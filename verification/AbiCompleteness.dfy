/** The decoder reads back every encoding: it returns the canonical spelling of the values, and
    the only way it can refuse is that this spelling is longer than the text budget. */
module AbiCompleteness {
  import opened ByteStrings
  import opened AbiTypes
  import opened AbiText
  import opened AbiEncoding
  import opened AbiDecoding

  /** The bytes at `offset` are `data`. */
  predicate Holds(bytes: seq<byte>, offset: nat, data: seq<byte>) {
    offset + |data| <= |bytes| && bytes[offset..offset + |data|] == data
  }

  lemma {:induction false} HoldsPart(bytes: seq<byte>, offset: nat, data: seq<byte>, from: nat, to: nat)
    requires Holds(bytes, offset, data) && from <= to <= |data|
    ensures Holds(bytes, offset + from, data[from..to])
  {
    var whole, part := bytes[offset..offset + |data|], bytes[offset + from..offset + to];
    forall i | 0 <= i < |part|
      ensures part[i] == data[from..to][i]
    {
      assert part[i] == whole[from + i];
    }
  }

  lemma {:induction false} SizeWordOfWord(bytes: seq<byte>, offset: nat, n: nat)
    requires Holds(bytes, offset, Word(n)) && n <= MAX_DATA_BYTES
    ensures SizeWord(bytes, offset) == Ok(n)
  {
    var w := Word(n);
    assert n < Pow(256, 8) by {
      Pow256();
    }
    PowMonotone(256, 8, 32);
    BeNatOfToBe(n, |Zeros(32)|);
    BeNatPrefixZero(w, 24);
    assert bytes[offset..offset + 32] == w;
  }

  /** What decoding must answer once the text budget is taken into account. */
  function Outcome<T>(v: T, end: nat, b: Budget, nodes: nat, text: nat): Result<Decoded<T>, AbiError> {
    if b.bytes + text <= MAX_DATA_BYTES then Ok(Decoded(v, end, Budget(b.nodes + nodes, b.bytes + text)))
      else Err(Limit)
  }

  lemma {:induction false} BlobParts(raw: seq<byte>, bytes: seq<byte>, offset: nat)
    requires Holds(bytes, offset, Blob(raw))
    ensures Holds(bytes, offset, Word(|raw|)) && Holds(bytes, offset + 32, raw)
    ensures offset + |Blob(raw)| <= |bytes|
    ensures All(bytes[offset + 32 + |raw|..offset + |Blob(raw)|], 0)
  {
    hide Word;
    var len := |raw|;
    HoldsPart(bytes, offset, Blob(raw), 0, 32);
    HoldsPart(bytes, offset, Blob(raw), 32, 32 + len);
    HoldsPart(bytes, offset, Blob(raw), 32 + len, |Blob(raw)|);
    assert Blob(raw)[0..32] == Word(len);
    assert Blob(raw)[32..32 + len] == raw;
    assert Blob(raw)[32 + len..|Blob(raw)|] == Zeros(Padded(len) - len);
  }

  lemma {:induction false} BlobComplete(kind: Kind, raw: seq<byte>, bytes: seq<byte>, offset: nat, b: Budget)
    requires kind.DynBytes? || (kind.Str? && IsUtf8(raw))
    requires |bytes| <= MAX_DATA_BYTES && Holds(bytes, offset, Blob(raw))
    ensures var v := if kind.Str? then String(raw) else String(ToHex(raw));
            DecBlob(kind, bytes, offset, b) == Outcome(v, offset + |Blob(raw)|, b, 0, TextSize(v))
  {
    var end := offset + |Blob(raw)|;
    BlobParts(raw, bytes, offset);
    hide SizeWord, Word, All, Blob, Padded, IsUtf8, ToHex;
    BlobEnd(raw);
    SizeWordOfWord(bytes, offset, |raw|);
    assert bytes[offset + 32..offset + 32 + |raw|] == raw;
  }

  lemma {:induction false} BlobEnd(raw: seq<byte>)
    ensures |Blob(raw)| == 32 + Padded(|raw|) && |raw| <= Padded(|raw|)
  {
  }

  lemma {:induction false} WordComplete(kind: Kind, v: Json, bytes: seq<byte>, offset: nat, b: Budget, h: Hasher)
    requires PrimitiveWidth(kind) && PrimitiveWord(kind, v, h).Ok?
    requires Holds(bytes, offset, PrimitiveWord(kind, v, h).value)
    ensures var c := CanonicalPrimitive(kind, v, h);
            && |PrimitiveWord(kind, v, h).value| == 32 && !v.List?
            && DecWord(kind, bytes, offset, b, h) == Outcome(c, offset + 32, b, 0, TextSize(c))
  {
    PrimitiveRoundTrip(kind, v, h);
    hide PrimitiveWord, PrimitiveOfWord, CanonicalPrimitive;
  }

  // ---------------------------------------------------------------- where each entry lies

  lemma {:induction false} HeadsAt(s: Sequence, vs: seq<Json>, i: nat, n: nat, h: Hasher)
    requires i < n <= |vs| && n <= s.Len() && s.Valid() && TypedUpTo(s, vs, n, h)
    ensures s.HeadUpTo(i) + |HeadEntry(s, vs, i, h)| <= |Heads(s, vs, n, h)|
    ensures Heads(s, vs, n, h)[s.HeadUpTo(i)..s.HeadUpTo(i) + |HeadEntry(s, vs, i, h)|] == HeadEntry(s, vs, i, h)
    decreases n
  {
    hide HeadEntry, Tails, Typed;
    LayoutLength(s, vs, i, h);
    if i == n - 1 {
    } else {
      HeadsAt(s, vs, i, n - 1, h);
    }
  }

  lemma {:induction false} TailsAt(s: Sequence, vs: seq<Json>, i: nat, n: nat, h: Hasher)
    requires i < n <= |vs| && n <= s.Len() && s.Get(i).dynamic
    ensures |Tails(s, vs, i, h)| + |Enc(s.Get(i), vs[i], h)| <= |Tails(s, vs, n, h)|
    ensures Tails(s, vs, n, h)[|Tails(s, vs, i, h)|..|Tails(s, vs, i, h)| + |Enc(s.Get(i), vs[i], h)|]
            == Enc(s.Get(i), vs[i], h)
    decreases n
  {
    hide Enc;
    if i == n - 1 {
    } else {
      TailsAt(s, vs, i, n - 1, h);
    }
  }

  lemma {:induction false} HoldsConcat(bytes: seq<byte>, base: nat, a: seq<byte>, b: seq<byte>)
    requires Holds(bytes, base, a + b)
    ensures Holds(bytes, base, a) && Holds(bytes, base + |a|, b)
  {
    HoldsPart(bytes, base, a + b, 0, |a|);
    HoldsPart(bytes, base, a + b, |a|, |a| + |b|);
    assert (a + b)[0..|a|] == a && (a + b)[|a|..|a| + |b|] == b;
  }

  /** An encoded sequence starts with its heads, and its tails follow. */
  lemma {:induction false} SequenceAt(s: Sequence, vs: seq<Json>, bytes: seq<byte>, base: nat, h: Hasher)
    requires s.Valid() && TypedSeq(s, vs, h) && Holds(bytes, base, EncSeq(s, vs, h))
    ensures Holds(bytes, base, Heads(s, vs, |vs|, h))
    ensures Holds(bytes, base + s.Head(), Tails(s, vs, |vs|, h))
  {
    hide Heads, Tails, Typed, Holds;
    LayoutLength(s, vs, |vs|, h);
    SequenceTotals(s);
    HoldsConcat(bytes, base, Heads(s, vs, |vs|, h), Tails(s, vs, |vs|, h));
  }

  /** The head of entry `i` of an encoded sequence. */
  lemma {:induction false} HeadAt(s: Sequence, vs: seq<Json>, i: nat, bytes: seq<byte>, base: nat, h: Hasher)
    requires s.Valid() && TypedSeq(s, vs, h) && i < |vs| && Holds(bytes, base, EncSeq(s, vs, h))
    ensures Holds(bytes, base + s.HeadUpTo(i), HeadEntry(s, vs, i, h))
  {
    SequenceAt(s, vs, bytes, base, h);
    hide HeadEntry, EncSeq, Heads, Tails, Typed, Holds;
    HeadsAt(s, vs, i, |vs|, h);
    HoldsPart(bytes, base, Heads(s, vs, |vs|, h), s.HeadUpTo(i), s.HeadUpTo(i) + |HeadEntry(s, vs, i, h)|);
  }

  /** The tail of dynamic entry `i` of an encoded sequence. */
  lemma {:induction false} TailAt(s: Sequence, vs: seq<Json>, i: nat, bytes: seq<byte>, base: nat, h: Hasher)
    requires s.Valid() && TypedSeq(s, vs, h) && i < |vs| && s.Get(i).dynamic && Holds(bytes, base, EncSeq(s, vs, h))
    ensures Holds(bytes, base + s.Head() + |Tails(s, vs, i, h)|, Enc(s.Get(i), vs[i], h))
  {
    SequenceAt(s, vs, bytes, base, h);
    hide Enc, EncSeq, Heads, Tails, Typed, Holds;
    TailsAt(s, vs, i, |vs|, h);
    var p := |Tails(s, vs, i, h)|;
    HoldsPart(bytes, base + s.Head(), Tails(s, vs, |vs|, h), p, p + |Enc(s.Get(i), vs[i], h)|);
  }

  // ---------------------------------------------------------------- decoding an encoding

  lemma {:induction false} DecComplete(ty: AbiType, v: Json, bytes: seq<byte>, offset: nat, b: Budget, depth: nat,
          h: Hasher)
    requires ty.Valid() && Typed(ty, v, h) && WithinDepth(v, depth)
    requires |bytes| <= MAX_DATA_BYTES && Holds(bytes, offset, Enc(ty, v, h))
    requires b.nodes + Nodes(v) <= MAX_VALUE_NODES && b.bytes <= MAX_DATA_BYTES
    ensures var c := Canonical(ty, v, h);
            Dec(ty, bytes, offset, b, depth, h) == Outcome(c, offset + |Enc(ty, v, h)|, b, Nodes(v), TextSize(c))
    decreases v, 1
  {
    hide Dec, Typed, Enc, Canonical, Nodes, TextSize, Holds;
    if IsContainer(ty.kind) {
      ContainerComplete(ty, v, bytes, offset, b, depth, h);
    } else {
      LeafComplete(ty, v, bytes, offset, b, depth, h);
    }
  }

  lemma {:induction false} LeafComplete(ty: AbiType, v: Json, bytes: seq<byte>, offset: nat, b: Budget, depth: nat,
          h: Hasher)
    requires !IsContainer(ty.kind) && Typed(ty, v, h) && depth <= MAX_DEPTH
    requires |bytes| <= MAX_DATA_BYTES && Holds(bytes, offset, Enc(ty, v, h))
    requires b.nodes + 1 <= MAX_VALUE_NODES
    ensures var c := Canonical(ty, v, h);
            Dec(ty, bytes, offset, b, depth, h) == Outcome(c, offset + |Enc(ty, v, h)|, b, Nodes(v), TextSize(c))
  {
    hide Dec, Enc, Typed, Canonical, TextSize, Holds;
    if ty.kind.Str? {
      TextComplete(ty, v, bytes, offset, b, depth, h);
    } else if ty.kind.DynBytes? {
      HexComplete(ty, v, bytes, offset, b, depth, h);
    } else {
      PrimitiveComplete(ty, v, bytes, offset, b, depth, h);
    }
  }

  lemma {:induction false} TextComplete(ty: AbiType, v: Json, bytes: seq<byte>, offset: nat, b: Budget, depth: nat,
          h: Hasher)
    requires ty.kind.Str? && Typed(ty, v, h) && depth <= MAX_DEPTH
    requires |bytes| <= MAX_DATA_BYTES && Holds(bytes, offset, Enc(ty, v, h))
    requires b.nodes + 1 <= MAX_VALUE_NODES
    ensures var c := Canonical(ty, v, h);
            Dec(ty, bytes, offset, b, depth, h) == Outcome(c, offset + |Enc(ty, v, h)|, b, Nodes(v), TextSize(c))
  {
    hide DecBlob, Holds, Blob, TextSize;
    BlobComplete(ty.kind, v.text, bytes, offset, SpendNode(b, depth).value);
  }

  lemma {:induction false} HexComplete(ty: AbiType, v: Json, bytes: seq<byte>, offset: nat, b: Budget, depth: nat,
          h: Hasher)
    requires ty.kind.DynBytes? && Typed(ty, v, h) && depth <= MAX_DEPTH
    requires |bytes| <= MAX_DATA_BYTES && Holds(bytes, offset, Enc(ty, v, h))
    requires b.nodes + 1 <= MAX_VALUE_NODES
    ensures var c := Canonical(ty, v, h);
            Dec(ty, bytes, offset, b, depth, h) == Outcome(c, offset + |Enc(ty, v, h)|, b, Nodes(v), TextSize(c))
  {
    HexIsText(v);
    hide DecBlob, Holds, Blob, DecodeHex, ToHex, TextSize;
    BlobComplete(ty.kind, DecodeHex(v).value, bytes, offset, SpendNode(b, depth).value);
  }

  lemma {:induction false} PrimitiveComplete(ty: AbiType, v: Json, bytes: seq<byte>, offset: nat, b: Budget,
          depth: nat, h: Hasher)
    requires !IsContainer(ty.kind) && !ty.kind.Str? && !ty.kind.DynBytes? && Typed(ty, v, h) && depth <= MAX_DEPTH
    requires |bytes| <= MAX_DATA_BYTES && Holds(bytes, offset, Enc(ty, v, h))
    requires b.nodes + 1 <= MAX_VALUE_NODES
    ensures var c := Canonical(ty, v, h);
            Dec(ty, bytes, offset, b, depth, h) == Outcome(c, offset + |Enc(ty, v, h)|, b, Nodes(v), TextSize(c))
  {
    hide DecWord, Holds, PrimitiveWord, CanonicalPrimitive, TextSize;
    WordComplete(ty.kind, v, bytes, offset, SpendNode(b, depth).value, h);
  }

  lemma {:induction false} ContainerComplete(ty: AbiType, v: Json, bytes: seq<byte>, offset: nat, b: Budget,
          depth: nat, h: Hasher)
    requires ty.Valid() && IsContainer(ty.kind) && Typed(ty, v, h) && WithinDepth(v, depth)
    requires |bytes| <= MAX_DATA_BYTES && Holds(bytes, offset, Enc(ty, v, h))
    requires b.nodes + Nodes(v) <= MAX_VALUE_NODES && b.bytes <= MAX_DATA_BYTES
    ensures var c := Canonical(ty, v, h);
            Dec(ty, bytes, offset, b, depth, h) == Outcome(c, offset + |Enc(ty, v, h)|, b, Nodes(v), TextSize(c))
    decreases v, 0
  {
    hide Dec, DecSeq, SizeWord, Holds, Enc, EncSeq, TypedUpTo, Canonical, CanonicalSeq;
    var n := |v.items|;
    var s := Entries(ty.kind, n);
    var base := if IsDynamicArray(ty.kind) then offset + 32 else offset;
    ContainerAt(ty, v, bytes, offset, h);
    assert s.Valid() && TypedSeq(s, v.items, h);
    DecSeqComplete(s, v.items, bytes, base, SpendNode(b, depth).value, depth + 1, h);
    ContainerAnswer(ty, v, bytes, offset, b, depth, h);
  }

  /** A container's answer, once its entries' answer is known. */
  lemma {:induction false} ContainerAnswer(ty: AbiType, v: Json, bytes: seq<byte>, offset: nat, b: Budget,
          depth: nat, h: Hasher)
    requires IsContainer(ty.kind) && v.List? && depth <= MAX_DEPTH && b.nodes + Nodes(v) <= MAX_VALUE_NODES
    requires ty.kind.Array? && ty.kind.length.Some? ==> ty.kind.length.value == |v.items|
    requires IsDynamicArray(ty.kind) ==> SizeWord(bytes, offset) == Ok(|v.items|)
    requires var base := if IsDynamicArray(ty.kind) then offset + 32 else offset;
             var s := Entries(ty.kind, |v.items|);
             var cs := CanonicalSeq(s, v.items, h);
             DecSeq(s, bytes, base, SpendNode(b, depth).value, depth + 1, h)
             == Outcome(cs, base + |EncSeq(s, v.items, h)|, SpendNode(b, depth).value, NodesUpTo(v.items, |v.items|),
                        TextUpTo(cs, |cs|))
    ensures var c := Canonical(ty, v, h);
            Dec(ty, bytes, offset, b, depth, h) == Outcome(c, offset + |Enc(ty, v, h)|, b, Nodes(v), TextSize(c))
  {
    hide DecSeq, SizeWord, Word, EncSeq, CanonicalSeq, NodesUpTo, TextUpTo;
  }

  /** A container's entries follow its length word, if it has one. */
  lemma {:induction false} ContainerAt(ty: AbiType, v: Json, bytes: seq<byte>, offset: nat, h: Hasher)
    requires IsContainer(ty.kind) && Typed(ty, v, h)
    requires Holds(bytes, offset, Enc(ty, v, h)) && |v.items| <= MAX_VALUE_NODES
    ensures var base := if IsDynamicArray(ty.kind) then offset + 32 else offset;
            var body := EncSeq(Entries(ty.kind, |v.items|), v.items, h);
            && Holds(bytes, base, body)
            && base + |body| == offset + |Enc(ty, v, h)|
            && (IsDynamicArray(ty.kind) ==> SizeWord(bytes, offset) == Ok(|v.items|))
  {
    hide SizeWord, Holds, Word, EncSeq, TypedUpTo;
    if IsDynamicArray(ty.kind) {
      HoldsConcat(bytes, offset, Word(|v.items|), EncSeq(Entries(ty.kind, |v.items|), v.items, h));
      SizeWordOfWord(bytes, offset, |v.items|);
    } else {
      var body := EncSeq(Entries(ty.kind, |v.items|), v.items, h);
      assert [] + body == body;
    }
  }

  lemma {:induction false} DecSeqComplete(s: Sequence, vs: seq<Json>, bytes: seq<byte>, base: nat, b: Budget,
          depth: nat, h: Hasher)
    requires depth <= MAX_DEPTH + 1 && s.Valid() && TypedSeq(s, vs, h) && AllWithinDepth(vs, depth)
    requires |bytes| <= MAX_DATA_BYTES && Holds(bytes, base, EncSeq(s, vs, h))
    requires b.nodes + NodesUpTo(vs, |vs|) <= MAX_VALUE_NODES && b.bytes <= MAX_DATA_BYTES
    ensures var cs := CanonicalSeq(s, vs, h);
            DecSeq(s, bytes, base, b, depth, h)
              == Outcome(cs, base + |EncSeq(s, vs, h)|, b, NodesUpTo(vs, |vs|), TextUpTo(cs, |cs|))
    decreases vs, 3
  {
    hide DecUpTo, EncSeq, TypedUpTo, AllWithinDepth, CanonicalUpTo;
    EncSeqLength(s, vs, h);
    MinimumNodesUpTo(s, vs, |vs|, h);
    SequenceTotals(s);
    DecUpToComplete(s, vs, |vs|, bytes, base, b, depth, h);
  }

  function CursorOutcome(s: Sequence, vs: seq<Json>, n: nat, base: nat, b: Budget, h: Hasher): Result<Cursor, AbiError>
    requires n <= |vs| && n <= s.Len()
  {
    var cs := CanonicalUpTo(s, vs, n, h);
    var text := b.bytes + TextUpTo(cs, n);
    if text > MAX_DATA_BYTES then Err(Limit)
    else
      var tail := base + s.Head() + |Tails(s, vs, n, h)|;
      Ok(Cursor(cs, base + s.HeadUpTo(n), tail, Budget(b.nodes + NodesUpTo(vs, n), text)))
  }

  lemma {:induction false} NodesGrow(vs: seq<Json>, m: nat, n: nat)
    requires m <= n <= |vs|
    ensures NodesUpTo(vs, m) <= NodesUpTo(vs, n)
    decreases n
  {
    hide Nodes;
    if m == n {
    } else {
      NodesGrow(vs, m, n - 1);
    }
  }

  lemma {:induction false} DecUpToComplete(s: Sequence, vs: seq<Json>, n: nat, bytes: seq<byte>, base: nat,
          b: Budget, depth: nat, h: Hasher)
    requires n <= |vs| && depth <= MAX_DEPTH + 1 && s.Valid() && TypedSeq(s, vs, h) && AllWithinDepth(vs, depth)
    requires |bytes| <= MAX_DATA_BYTES && Holds(bytes, base, EncSeq(s, vs, h))
    requires b.nodes + NodesUpTo(vs, |vs|) <= MAX_VALUE_NODES && b.bytes <= MAX_DATA_BYTES
    ensures DecUpTo(s, bytes, base, n, b, depth, h) == CursorOutcome(s, vs, n, base, b, h)
    decreases vs, 1, n
  {
    hide EncSeq, Typed, WithinDepth, Canonical, DecStep, CursorOutcome, Nodes;
    if n == 0 {
      CursorStart(s, vs, base, b, h);
    } else {
      DecUpToComplete(s, vs, n - 1, bytes, base, b, depth, h);
      CursorStep(s, vs, n - 1, base, b, h);
      if CursorOutcome(s, vs, n - 1, base, b, h).Ok? {
        NodesGrow(vs, n, |vs|);
        DecStepComplete(s, vs, n - 1, bytes, base, b, depth, h);
      }
    }
  }

  lemma {:induction false} CursorStart(s: Sequence, vs: seq<Json>, base: nat, b: Budget, h: Hasher)
    requires b.bytes <= MAX_DATA_BYTES
    ensures CursorOutcome(s, vs, 0, base, b, h) == Ok(Cursor([], base, base + s.Head(), b))
  {
  }

  /** The next cursor, in terms of the previous one and the entry's own outcome. */
  lemma {:induction false} CursorStep(s: Sequence, vs: seq<Json>, n: nat, base: nat, b: Budget, h: Hasher)
    requires n < |vs| && n < s.Len()
    ensures var ty, v := s.Get(n), vs[n];
            var v' := Canonical(ty, v, h);
            match CursorOutcome(s, vs, n, base, b, h) {
              case Err(e) => CursorOutcome(s, vs, n + 1, base, b, h) == Err(e)
              case Ok(c) =>
                CursorOutcome(s, vs, n + 1, base, b, h)
                == match Outcome(v', if ty.dynamic then c.tail + |Enc(ty, v, h)|
                  else c.tail, c.budget, Nodes(v), TextSize(v')) {
                     case Err(e) => Err(e)
                     case Ok(d) => Ok(Cursor(c.values + [d.value], c.head + ty.head, d.end, d.budget))
                   }
            }
  {
    hide Enc, Canonical, Nodes, TextSize;
    var cs := CanonicalUpTo(s, vs, n, h);
    ResourcePrefix(CanonicalUpTo(s, vs, n + 1, h), cs, n);
  }

  /** A step's answer, once the entry's own answer is known. */
  lemma {:induction false} StepAnswer(ty: AbiType, bytes: seq<byte>, base: nat, c: Cursor, depth: nat,
          r: Result<Decoded<Json>, AbiError>, h: Hasher)
    requires depth <= MAX_DEPTH + 1
    requires Dec(ty, bytes, if ty.dynamic then c.tail else c.head, c.budget, depth, h) == r
    requires ty.dynamic ==> SizeWord(bytes, c.head) == Ok(c.tail - base)
    requires !ty.dynamic && r.Ok? ==> r.value.end == c.head + ty.head
    ensures DecStep(ty, bytes, base, c, depth, h)
            == match r {
                 case Err(e) => Err(e)
                 case Ok(d) =>
                   Ok(Cursor(c.values + [d.value], c.head + ty.head, if ty.dynamic then d.end else c.tail, d.budget))
               }
  {
    hide Dec, SizeWord;
  }

  lemma {:induction false} CursorFields(s: Sequence, vs: seq<Json>, n: nat, base: nat, b: Budget, h: Hasher)
    requires n < |vs| && n < s.Len() && CursorOutcome(s, vs, n, base, b, h).Ok?
    ensures var c := CursorOutcome(s, vs, n, base, b, h).value;
            && c.head == base + s.HeadUpTo(n) && c.tail == base + s.Head() + |Tails(s, vs, n, h)|
            && c.budget.nodes + Nodes(vs[n]) == b.nodes + NodesUpTo(vs, n + 1)
            && c.budget.bytes <= MAX_DATA_BYTES
  {
    hide Nodes, TextUpTo, CanonicalUpTo, Tails;
  }

  lemma {:induction false} DecStepComplete(s: Sequence, vs: seq<Json>, n: nat, bytes: seq<byte>, base: nat,
          b: Budget, depth: nat, h: Hasher)
    requires n < |vs| && depth <= MAX_DEPTH + 1 && s.Valid() && TypedSeq(s, vs, h) && AllWithinDepth(vs, depth)
    requires |bytes| <= MAX_DATA_BYTES && Holds(bytes, base, EncSeq(s, vs, h))
    requires b.nodes + NodesUpTo(vs, n + 1) <= MAX_VALUE_NODES && b.bytes <= MAX_DATA_BYTES
    requires CursorOutcome(s, vs, n, base, b, h).Ok?
    ensures DecStep(s.Get(n), bytes, base, CursorOutcome(s, vs, n, base, b, h).value, depth, h)
            == CursorOutcome(s, vs, n + 1, base, b, h)
    decreases vs, 0
  {
    hide Dec, DecStep, Enc, EncSeq, Typed, WithinDepth, Canonical, Nodes, NodesUpTo, SizeWord, TextSize, Tails,
         CursorOutcome, Holds;
    var ty, v := s.Get(n), vs[n];
    var c := CursorOutcome(s, vs, n, base, b, h).value;
    CursorFields(s, vs, n, base, b, h);
    CursorStep(s, vs, n, base, b, h);
    var offset := if ty.dynamic then c.tail else c.head;
    if ty.dynamic {
      OffsetAt(s, vs, n, bytes, base, h);
      TailAt(s, vs, n, bytes, base, h);
    } else {
      StaticAt(s, vs, n, bytes, base, h);
    }
    DecComplete(ty, v, bytes, offset, c.budget, depth, h);
    StepAnswer(ty, bytes, base, c, depth, Dec(ty, bytes, offset, c.budget, depth, h), h);
  }

  /** A dynamic entry's head is the offset of its tail. */
  lemma {:induction false} OffsetAt(s: Sequence, vs: seq<Json>, i: nat, bytes: seq<byte>, base: nat, h: Hasher)
    requires s.Valid() && TypedSeq(s, vs, h) && i < |vs| && s.Get(i).dynamic
    requires |bytes| <= MAX_DATA_BYTES && Holds(bytes, base, EncSeq(s, vs, h))
    ensures SizeWord(bytes, base + s.HeadUpTo(i)) == Ok(s.Head() + |Tails(s, vs, i, h)|)
  {
    HeadAt(s, vs, i, bytes, base, h);
    TailAt(s, vs, i, bytes, base, h);
    assert HeadEntry(s, vs, i, h) == Word(s.Head() + |Tails(s, vs, i, h)|);
    hide HeadEntry, Enc, EncSeq, Word, Tails, SizeWord, Typed;
    SizeWordOfWord(bytes, base + s.HeadUpTo(i), s.Head() + |Tails(s, vs, i, h)|);
  }

  /** A static entry lies in its head. */
  lemma {:induction false} StaticAt(s: Sequence, vs: seq<Json>, i: nat, bytes: seq<byte>, base: nat, h: Hasher)
    requires s.Valid() && TypedSeq(s, vs, h) && i < |vs| && !s.Get(i).dynamic && Holds(bytes, base, EncSeq(s, vs, h))
    ensures Holds(bytes, base + s.HeadUpTo(i), Enc(s.Get(i), vs[i], h))
    ensures |Enc(s.Get(i), vs[i], h)| == s.Get(i).head
  {
    HeadAt(s, vs, i, bytes, base, h);
    hide Enc, EncSeq, Tails, Typed, Holds;
    StaticLength(s.Get(i), vs[i], h);
  }
}
