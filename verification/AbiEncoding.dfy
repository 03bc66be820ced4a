/** What the codec means: the ABI head/tail encoding of a typed value, its canonical spelling,
    and the resources a value uses. */
module AbiEncoding {
  import opened ByteStrings
  import opened AbiTypes
  import opened AbiText

  function Padded(n: nat): nat {
    (n + 31) / 32 * 32
  }

  /** A length or offset as one 32-byte word. */
  function Word(n: nat): (w: seq<byte>)
    ensures |w| == 32
  {
    ToBe(n, |Zeros(32)|)
  }

  /** A length-prefixed, zero-padded byte string. */
  function Blob(b: seq<byte>): (s: seq<byte>)
    ensures |s| == 32 + Padded(|b|) && |s| % 32 == 0
  {
    Word(|b|) + b + Zeros(Padded(|b|) - |b|)
  }

  predicate IsContainer(kind: Kind) {
    kind.Tuple? || kind.Array?
  }

  /** The entries of a tuple, or of an array that holds `n` elements. */
  function Entries(kind: Kind, n: nat): Sequence
    requires IsContainer(kind)
  {
    match kind
    case Tuple(fields) => Fields(fields)
    case Array(child, _) => Repeat(child, n)
  }

  predicate IsDynamicArray(kind: Kind) {
    kind.Array? && kind.length.None?
  }

  // ---------------------------------------------------------------- well-typed values

  /** The value has the shape, arity, range and byte lengths that the type asks for. */
  predicate Typed(ty: AbiType, v: Json, h: Hasher)
    decreases v, 0
  {
    match ty.kind
    case Tuple(_) => v.List? && TypedSeq(Entries(ty.kind, |v.items|), v.items, h)
    case Array(_, length) =>
      && v.List?
      && (length.Some? ==> length.value == |v.items|)
      && TypedSeq(Entries(ty.kind, |v.items|), v.items, h)
    case Str => v.String?
    case DynBytes => DecodeHex(v).Ok?
    case _ => PrimitiveWidth(ty.kind) && PrimitiveWord(ty.kind, v, h).Ok?
  }

  predicate TypedUpTo(s: Sequence, vs: seq<Json>, n: nat, h: Hasher)
    requires n <= |vs| && n <= s.Len()
    decreases vs, 1
  {
    forall i :: 0 <= i < n ==> Typed(s.Get(i), vs[i], h)
  }

  predicate TypedSeq(s: Sequence, vs: seq<Json>, h: Hasher)
    decreases vs, 2
  {
    |vs| == s.Len() && TypedUpTo(s, vs, |vs|, h)
  }

  // ---------------------------------------------------------------- the encoding

  /** The encoding of one well-typed value; dynamic values are reached through an offset. */
  function Enc(ty: AbiType, v: Json, h: Hasher): seq<byte>
    decreases v, 0
  {
    match ty.kind
    case Tuple(_) => if v.List? then EncSeq(Entries(ty.kind, |v.items|), v.items, h) else []
    case Array(_, length) =>
      if v.List? then
        (if length.None? then Word(|v.items|) else []) + EncSeq(Entries(ty.kind, |v.items|), v.items, h)
      else []
    case Str => if v.String? then Blob(v.text) else []
    case DynBytes => if DecodeHex(v).Ok? then Blob(DecodeHex(v).value) else []
    case _ =>
      if PrimitiveWidth(ty.kind) && PrimitiveWord(ty.kind, v, h).Ok? then PrimitiveWord(ty.kind, v, h).value else []
  }

  /** Heads of the first `n` entries: static encodings, and offsets from the start of the sequence. */
  function Heads(s: Sequence, vs: seq<Json>, n: nat, h: Hasher): seq<byte>
    requires n <= |vs| && n <= s.Len()
    decreases vs, 1, n
  {
    if n == 0 then []
    else Heads(s, vs, n - 1, h) + HeadEntry(s, vs, n - 1, h)
  }

  function HeadEntry(s: Sequence, vs: seq<Json>, i: nat, h: Hasher): seq<byte>
    requires i < |vs| && i < s.Len()
    decreases vs, 1, i, 1
  {
    if s.Get(i).dynamic then Word(s.Head() + |Tails(s, vs, i, h)|) else Enc(s.Get(i), vs[i], h)
  }

  /** Encodings of the dynamic entries among the first `n`. */
  function Tails(s: Sequence, vs: seq<Json>, n: nat, h: Hasher): seq<byte>
    requires n <= |vs| && n <= s.Len()
    decreases vs, 1, n, 0
  {
    if n == 0 then []
    else if s.Get(n - 1).dynamic then Tails(s, vs, n - 1, h) + Enc(s.Get(n - 1), vs[n - 1], h)
    else Tails(s, vs, n - 1, h)
  }

  function EncSeq(s: Sequence, vs: seq<Json>, h: Hasher): seq<byte>
    decreases vs, 2
  {
    if |vs| == s.Len() then Heads(s, vs, |vs|, h) + Tails(s, vs, |vs|, h) else []
  }

  // ---------------------------------------------------------------- canonical spelling

  /** The spelling the decoder prints: decimal integers, lower-case hex, checksummed addresses. */
  function Canonical(ty: AbiType, v: Json, h: Hasher): Json
    decreases v, 0
  {
    match ty.kind
    case Tuple(_) =>
      if v.List? then List(CanonicalSeq(Entries(ty.kind, |v.items|), v.items, h)) else v
    case Array(_, _) =>
      if v.List? then List(CanonicalSeq(Entries(ty.kind, |v.items|), v.items, h)) else v
    case DynBytes => if DecodeHex(v).Ok? then String(ToHex(DecodeHex(v).value)) else v
    case Str => v
    case _ =>
      if PrimitiveWidth(ty.kind) && PrimitiveWord(ty.kind, v, h).Ok? then CanonicalPrimitive(ty.kind, v, h) else v
  }

  function CanonicalUpTo(s: Sequence, vs: seq<Json>, n: nat, h: Hasher): (cs: seq<Json>)
    requires n <= |vs| && n <= s.Len()
    ensures |cs| == n
    decreases vs, 1, n
  {
    if n == 0 then [] else CanonicalUpTo(s, vs, n - 1, h) + [Canonical(s.Get(n - 1), vs[n - 1], h)]
  }

  function CanonicalSeq(s: Sequence, vs: seq<Json>, h: Hasher): seq<Json>
    decreases vs, 2
  {
    CanonicalUpTo(s, vs, Min(|vs|, s.Len()), h)
  }

  // ---------------------------------------------------------------- resources

  function Nodes(v: Json): (n: nat)
    ensures n >= 1
    decreases v, 0
  {
    1 + if v.List? then NodesUpTo(v.items, |v.items|) else 0
  }

  function NodesUpTo(vs: seq<Json>, n: nat): (k: nat)
    requires n <= |vs|
    ensures k >= n
    decreases vs, 1, n
  {
    if n == 0 then 0 else NodesUpTo(vs, n - 1) + Nodes(vs[n - 1])
  }

  /** Bytes of text in a value. */
  function TextSize(v: Json): nat
    decreases v, 0
  {
    match v
    case String(text) => |text|
    case List(items) => TextUpTo(items, |items|)
    case _ => 0
  }

  function TextUpTo(vs: seq<Json>, n: nat): nat
    requires n <= |vs|
    decreases vs, 1, n
  {
    if n == 0 then 0 else TextUpTo(vs, n - 1) + TextSize(vs[n - 1])
  }

  /** No node of the value lies deeper than the limit when its root lies at `depth`. */
  predicate WithinDepth(v: Json, depth: nat)
    decreases v, 0
  {
    depth <= MAX_DEPTH && (v.List? ==> AllWithinDepth(v.items, depth + 1))
  }

  predicate AllWithinDepth(vs: seq<Json>, depth: nat)
    decreases vs, 1
  {
    forall i :: 0 <= i < |vs| ==> WithinDepth(vs[i], depth)
  }

  predicate HasObject(v: Json)
    decreases v, 0
  {
    match v
    case Object => true
    case List(items) => exists i :: 0 <= i < |items| && HasObject(items[i])
    case _ => false
  }

  /** The parameter list itself is within the field and node limits (codec.rs, `sequence_limit`). */
  predicate SequenceLimit(types: seq<AbiType>) {
    |types| <= MAX_FIELDS && Fields(types).MinimumNodes() <= MAX_VALUE_NODES
  }

  /** Exactly the inputs that `encode` accepts. */
  predicate Encodable(types: seq<AbiType>, values: seq<Json>, h: Hasher)
  {
    && SequenceLimit(types)
    && TypedSeq(Fields(types), values, h)
    && NodesUpTo(values, |values|) <= MAX_VALUE_NODES
    && TextUpTo(values, |values|) <= MAX_DATA_BYTES
    && AllWithinDepth(values, 0)
    && |EncSeq(Fields(types), values, h)| <= MAX_DATA_BYTES
  }

  // ---------------------------------------------------------------- facts about the encoding

  predicate AgreeUpTo(vs: seq<Json>, ws: seq<Json>, n: nat) {
    n <= |vs| && n <= |ws| && forall i :: 0 <= i < n ==> vs[i] == ws[i]
  }

  lemma {:induction false} TailsPrefix(s: Sequence, vs: seq<Json>, ws: seq<Json>, n: nat, h: Hasher)
    requires AgreeUpTo(vs, ws, n) && n <= s.Len()
    ensures Tails(s, vs, n, h) == Tails(s, ws, n, h)
  {
    hide Enc;
    if n == 0 {
    } else {
      TailsPrefix(s, vs, ws, n - 1, h);
    }
  }

  lemma {:induction false} HeadEntryPrefix(s: Sequence, vs: seq<Json>, ws: seq<Json>, i: nat, h: Hasher)
    requires AgreeUpTo(vs, ws, i + 1) && i < s.Len()
    ensures HeadEntry(s, vs, i, h) == HeadEntry(s, ws, i, h)
  {
    hide Enc, Word;
    TailsPrefix(s, vs, ws, i, h);
  }

  lemma {:induction false} HeadsPrefix(s: Sequence, vs: seq<Json>, ws: seq<Json>, n: nat, h: Hasher)
    requires AgreeUpTo(vs, ws, n) && n <= s.Len()
    ensures Heads(s, vs, n, h) == Heads(s, ws, n, h)
  {
    hide HeadEntry, Tails;
    if n == 0 {
    } else {
      HeadsPrefix(s, vs, ws, n - 1, h);
      HeadEntryPrefix(s, vs, ws, n - 1, h);
      assert Heads(s, vs, n, h) == Heads(s, vs, n - 1, h) + HeadEntry(s, vs, n - 1, h);
      assert Heads(s, ws, n, h) == Heads(s, ws, n - 1, h) + HeadEntry(s, ws, n - 1, h);
    }
  }

  lemma {:induction false} CanonicalPrefix(s: Sequence, vs: seq<Json>, ws: seq<Json>, n: nat, h: Hasher)
    requires AgreeUpTo(vs, ws, n) && n <= s.Len()
    ensures CanonicalUpTo(s, vs, n, h) == CanonicalUpTo(s, ws, n, h)
  {
    hide Canonical;
    if n == 0 {
    } else {
      CanonicalPrefix(s, vs, ws, n - 1, h);
    }
  }

  lemma {:induction false} ResourcePrefix(vs: seq<Json>, ws: seq<Json>, n: nat)
    requires AgreeUpTo(vs, ws, n)
    ensures NodesUpTo(vs, n) == NodesUpTo(ws, n)
    ensures TextUpTo(vs, n) == TextUpTo(ws, n)
  {
    hide Nodes, TextSize;
    if n == 0 {
    } else {
      ResourcePrefix(vs, ws, n - 1);
    }
  }

  /** What a container's cached metadata says about its entries. */
  predicate Describes(ty: AbiType, s: Sequence) {
    && s.Valid()
    && (ty.dynamic ==> ty.head == 32)
    && (!ty.dynamic ==> ty.head == s.Head() && !IsDynamicArray(ty.kind) && forall i :: 0 <= i < s.Len() ==>
      !s.Get(i).dynamic)
    && ty.minimumNodes <= 1 + s.MinimumNodes()
    && ty.head <= MAX_DATA_BYTES
  }

  lemma {:induction false} TupleMetadata(ty: AbiType)
    requires ty.Valid() && ty.kind.Tuple?
    ensures Describes(ty, Fields(ty.kind.fields))
  {
    var fields := ty.kind.fields;
    var s := Fields(fields);
    var dynamic := exists i :: 0 <= i < |fields| && fields[i].dynamic;
    assert ty == AbiType(ty.kind, dynamic, if dynamic then 32 else s.Head(), 1 + s.MinimumNodes(), MaxDepth(fields));
    hide AbiTypes.New, MaxDepth;
    assert forall i :: 0 <= i < s.Len() ==> s.Get(i) == fields[i];
  }

  lemma {:induction false} ArrayMetadata(ty: AbiType, n: nat)
    requires ty.Valid() && ty.kind.Array? && (ty.kind.length.Some? ==> ty.kind.length.value == n)
    ensures Describes(ty, Repeat(ty.kind.child, n))
  {
  }

  /** Cached metadata of a container, read back from its entries. */
  lemma {:induction false} ContainerMetadata(ty: AbiType, n: nat)
    requires ty.Valid() && IsContainer(ty.kind)
    requires ty.kind.Array? && ty.kind.length.Some? ==> ty.kind.length.value == n
    ensures var s := Entries(ty.kind, n);
            && s.Valid()
            && (ty.dynamic ==> ty.head == 32)
            && (!ty.dynamic ==> ty.head == s.Head() && !IsDynamicArray(ty.kind) && forall i :: 0 <= i < s.Len() ==>
              !s.Get(i).dynamic)
            && ty.minimumNodes <= 1 + s.MinimumNodes()
            && ty.head <= MAX_DATA_BYTES
  {
    hide New;
    if ty.kind.Tuple? {
      TupleMetadata(ty);
    } else {
      ArrayMetadata(ty, n);
    }
  }

  /** A static value fills exactly its type's cached head. */
  lemma {:induction false} StaticLength(ty: AbiType, v: Json, h: Hasher)
    requires ty.Valid() && Typed(ty, v, h) && !ty.dynamic
    ensures |Enc(ty, v, h)| == ty.head
    decreases v, 0
  {
    if IsContainer(ty.kind) {
      var s := Entries(ty.kind, |v.items|);
      ContainerMetadata(ty, |v.items|);
      LayoutLength(s, v.items, |v.items|, h);
      StaticTails(s, v.items, |v.items|, h);
      SequenceTotals(s);
    }
  }

  /** Heads end where the cached head sizes say. */
  lemma {:induction false} LayoutLength(s: Sequence, vs: seq<Json>, n: nat, h: Hasher)
    requires n <= |vs| && n <= s.Len() && s.Valid() && TypedUpTo(s, vs, n, h)
    ensures |Heads(s, vs, n, h)| == s.HeadUpTo(n)
    decreases vs, 1, n
  {
    hide PrimitiveWord, DecodeHex, CanonicalPrimitive, ToBe;
    if n == 0 {
    } else {
      LayoutLength(s, vs, n - 1, h);
      var ty := s.Get(n - 1);
      if ty.dynamic {
        DynamicHead(ty);
      } else {
        StaticLength(ty, vs[n - 1], h);
      }
    }
  }

  lemma {:induction false} DynamicHead(ty: AbiType)
    requires ty.Valid() && ty.dynamic
    ensures ty.head == 32
  {
  }

  lemma {:induction false} StaticTails(s: Sequence, vs: seq<Json>, n: nat, h: Hasher)
    requires n <= |vs| && n <= s.Len()
    requires forall i :: 0 <= i < n ==> !s.Get(i).dynamic
    ensures Tails(s, vs, n, h) == []
    decreases n
  {
    if n == 0 {
    } else {
      StaticTails(s, vs, n - 1, h);
    }
  }

  lemma {:induction false} EncSeqLength(s: Sequence, vs: seq<Json>, h: Hasher)
    requires s.Valid() && TypedSeq(s, vs, h)
    ensures |EncSeq(s, vs, h)| == s.Head() + |Tails(s, vs, |vs|, h)|
  {
    LayoutLength(s, vs, |vs|, h);
    SequenceTotals(s);
  }

  predicate WholeWords(n: int) {
    n % 32 == 0
  }

  lemma {:induction false} WholeWordsAdd(a: int, b: int)
    requires WholeWords(a) && WholeWords(b)
    ensures WholeWords(a + b)
  {
  }

  lemma {:induction false} WholeWordConstants()
    ensures WholeWords(0) && WholeWords(32)
  {
  }

  lemma {:induction false} BlobWholeWords(b: seq<byte>)
    ensures WholeWords(|Blob(b)|)
  {
  }

  /** Every encoding is a whole number of words. */
  lemma {:induction false} EncWholeWords(ty: AbiType, v: Json, h: Hasher)
    requires Typed(ty, v, h)
    ensures WholeWords(|Enc(ty, v, h)|)
    decreases v, 0
  {
    hide PrimitiveWord, DecodeHex, Word, Blob, WholeWords, EncSeq, TypedSeq;
    match ty.kind
    case Tuple(_) =>
      EncSeqWholeWords(Entries(ty.kind, |v.items|), v.items, h);
    case Array(_, _) =>
      EncSeqWholeWords(Entries(ty.kind, |v.items|), v.items, h);
      WholeWordConstants();
      WholeWordsAdd(32, |EncSeq(Entries(ty.kind, |v.items|), v.items, h)|);
    case Str =>
      BlobWholeWords(v.text);
    case DynBytes =>
      BlobWholeWords(DecodeHex(v).value);
    case _ =>
      WholeWordConstants();
  }

  lemma {:induction false} EncSeqWholeWords(s: Sequence, vs: seq<Json>, h: Hasher)
    requires TypedSeq(s, vs, h)
    ensures WholeWords(|EncSeq(s, vs, h)|)
    decreases vs, 2
  {
    hide WholeWords, Heads, Tails, Typed;
    TailsWholeWords(s, vs, |vs|, h);
    HeadsWholeWords(s, vs, |vs|, h);
    WholeWordsAdd(|Heads(s, vs, |vs|, h)|, |Tails(s, vs, |vs|, h)|);
  }

  lemma {:induction false} TailsWholeWords(s: Sequence, vs: seq<Json>, n: nat, h: Hasher)
    requires n <= |vs| && n <= s.Len() && TypedUpTo(s, vs, n, h)
    ensures WholeWords(|Tails(s, vs, n, h)|)
    decreases vs, 1, n
  {
    hide WholeWords, Enc, Typed;
    WholeWordConstants();
    if n == 0 {
    } else {
      TailsWholeWords(s, vs, n - 1, h);
      EncWholeWords(s.Get(n - 1), vs[n - 1], h);
      WholeWordsAdd(|Tails(s, vs, n - 1, h)|, |Enc(s.Get(n - 1), vs[n - 1], h)|);
    }
  }

  lemma {:induction false} HeadsWholeWords(s: Sequence, vs: seq<Json>, n: nat, h: Hasher)
    requires n <= |vs| && n <= s.Len() && TypedUpTo(s, vs, n, h)
    ensures WholeWords(|Heads(s, vs, n, h)|)
    decreases vs, 1, n
  {
    hide WholeWords, Enc, Typed, HeadEntry, Tails;
    WholeWordConstants();
    if n == 0 {
    } else {
      HeadsWholeWords(s, vs, n - 1, h);
      EncWholeWords(s.Get(n - 1), vs[n - 1], h);
      HeadEntryWholeWords(s, vs, n - 1, h);
      WholeWordsAdd(|Heads(s, vs, n - 1, h)|, |HeadEntry(s, vs, n - 1, h)|);
    }
  }

  lemma {:induction false} HeadEntryWholeWords(s: Sequence, vs: seq<Json>, i: nat, h: Hasher)
    requires i < |vs| && i < s.Len() && WholeWords(|Enc(s.Get(i), vs[i], h)|)
    ensures WholeWords(|HeadEntry(s, vs, i, h)|)
  {
    hide Enc, Tails;
  }

  /** A part is never longer than the whole. */
  lemma {:induction false} TailsGrow(s: Sequence, vs: seq<Json>, i: nat, n: nat, h: Hasher)
    requires i < n <= |vs| && n <= s.Len()
    ensures s.Get(i).dynamic ==> |Tails(s, vs, i, h)| + |Enc(s.Get(i), vs[i], h)| <= |Tails(s, vs, n, h)|
    ensures |Tails(s, vs, i, h)| <= |Tails(s, vs, n, h)|
    decreases n
  {
    if i == n - 1 {
    } else {
      TailsGrow(s, vs, i, n - 1, h);
    }
  }

  /** `minimum_nodes` bounds the node count of every value of the type from below. */
  lemma {:induction false} MinimumNodesBound(ty: AbiType, v: Json, h: Hasher)
    requires ty.Valid() && Typed(ty, v, h)
    ensures ty.minimumNodes <= Nodes(v)
    decreases v, 0
  {
    if IsContainer(ty.kind) {
      var s := Entries(ty.kind, |v.items|);
      ContainerMetadata(ty, |v.items|);
      MinimumNodesUpTo(s, v.items, |v.items|, h);
      SequenceTotals(s);
    }
  }

  lemma {:induction false} MinimumNodesUpTo(s: Sequence, vs: seq<Json>, n: nat, h: Hasher)
    requires n <= |vs| && n <= s.Len() && s.Valid() && TypedUpTo(s, vs, n, h)
    ensures s.NodesUpTo(n) <= NodesUpTo(vs, n)
    decreases vs, 1, n
  {
    if n == 0 {
    } else {
      MinimumNodesUpTo(s, vs, n - 1, h);
      MinimumNodesBound(s.Get(n - 1), vs[n - 1], h);
    }
  }
}
