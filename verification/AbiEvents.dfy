/** Event logs (interface.rs, codec.rs): indexed topics, partition of the arguments into topics and data,
    and what decoding a log gives back. */
module AbiEvents {
  import opened ByteStrings
  import opened AbiTypes
  import opened AbiText
  import opened AbiEncoding
  import opened AbiDecoding
  import opened AbiMeasure
  import opened AbiRoundTrip

  // ---------------------------------------------------------------- picking by flag

  function Count(flags: seq<bool>, want: bool, n: nat): nat
    requires n <= |flags|
  {
    if n == 0 then 0 else Count(flags, want, n - 1) + (if flags[n - 1] == want then 1 else 0)
  }

  /** The entries among the first `n` whose flag is `want`. */
  function Pick<T>(flags: seq<bool>, want: bool, xs: seq<T>, n: nat): (ys: seq<T>)
    requires n <= |flags| && n <= |xs|
    ensures |ys| == Count(flags, want, n)
  {
    if n == 0 then [] else Pick(flags, want, xs, n - 1) + (if flags[n - 1] == want then [xs[n - 1]] else [])
  }

  lemma {:induction false} PickAt<T>(flags: seq<bool>, want: bool, xs: seq<T>, n: nat, i: nat)
    requires i < n <= |flags| && n <= |xs| && flags[i] == want
    ensures Count(flags, want, i) < |Pick(flags, want, xs, n)|
            && Pick(flags, want, xs, n)[Count(flags, want, i)] == xs[i]
  {
    if i == n - 1 {
    } else {
      PickAt(flags, want, xs, n - 1, i);
    }
  }

  // ---------------------------------------------------------------- indexed topics

  function Padding(n: nat, nested: bool): seq<byte> {
    if nested then Zeros(Padded(n) - n) else []
  }

  /** The in-place encoding that is hashed for compound values. */
  function IndexedBytes(ty: AbiType, v: Json, nested: bool, h: Hasher): seq<byte>
    decreases v, 0
  {
    match ty.kind
    case Str => if v.String? then v.text + Padding(|v.text|, nested) else []
    case DynBytes => if DecodeHex(v).Ok? then DecodeHex(v).value + Padding(|DecodeHex(v).value|, nested) else []
    case Tuple(_) => if v.List? then IndexedSeq(Entries(ty.kind, |v.items|), v.items, h) else []
    case Array(_, _) => if v.List? then IndexedSeq(Entries(ty.kind, |v.items|), v.items, h) else []
    case _ =>
      if PrimitiveWidth(ty.kind) && PrimitiveWord(ty.kind, v, h).Ok? then PrimitiveWord(ty.kind, v, h).value else []
  }

  function IndexedUpTo(s: Sequence, vs: seq<Json>, n: nat, h: Hasher): seq<byte>
    requires n <= |vs| && n <= s.Len()
    decreases vs, 1, n
  {
    if n == 0 then [] else IndexedUpTo(s, vs, n - 1, h) + IndexedBytes(s.Get(n - 1), vs[n - 1], true, h)
  }

  function IndexedSeq(s: Sequence, vs: seq<Json>, h: Hasher): seq<byte>
    decreases vs, 2
  {
    IndexedUpTo(s, vs, Min(|vs|, s.Len()), h)
  }

  /** A word for single-word types, a hash for everything else. */
  function Topic(ty: AbiType, v: Json, h: Hasher): seq<byte> {
    if IsWordKind(ty.kind) then IndexedBytes(ty, v, false, h) else h.digest(IndexedBytes(ty, v, false, h))
  }

  lemma {:induction false} CanonicalWord(kind: Kind, v: Json, h: Hasher)
    requires PrimitiveWidth(kind) && PrimitiveWord(kind, v, h).Ok?
    ensures PrimitiveWord(kind, CanonicalPrimitive(kind, v, h), h) == PrimitiveWord(kind, v, h)
  {
    hide CanonicalPrimitive;
    PrimitiveRoundTrip(kind, v, h);
    WordRoundTrip(kind, PrimitiveWord(kind, v, h).value, h);
  }

  lemma {:induction false} BytesCanonical(v: Json)
    requires DecodeHex(v).Ok?
    ensures DecodeHex(String(ToHex(DecodeHex(v).value))) == DecodeHex(v)
  {
    DecodeHexOfToHex(DecodeHex(v).value);
  }

  /** Spelling does not matter: a topic depends only on the canonical value. */
  lemma {:induction false} IndexedCanonical(ty: AbiType, v: Json, nested: bool, h: Hasher)
    requires Typed(ty, v, h)
    ensures IndexedBytes(ty, Canonical(ty, v, h), nested, h) == IndexedBytes(ty, v, nested, h)
    decreases v, 0
  {
    hide PrimitiveWord, CanonicalPrimitive, DecodeHex, CanonicalSeq, IndexedSeq, TypedSeq, ToHex;
    match ty.kind
    case Str =>
    case DynBytes => BytesCanonical(v);
    case Tuple(_) => SeqCanonical(Entries(ty.kind, |v.items|), v.items, h);
    case Array(_, _) => SeqCanonical(Entries(ty.kind, |v.items|), v.items, h);
    case _ => CanonicalWord(ty.kind, v, h);
  }

  lemma {:induction false} SeqCanonical(s: Sequence, vs: seq<Json>, h: Hasher)
    requires TypedSeq(s, vs, h)
    ensures IndexedSeq(s, CanonicalSeq(s, vs, h), h) == IndexedSeq(s, vs, h) && |CanonicalSeq(s, vs, h)| == |vs|
    decreases vs, 2
  {
    hide Typed, IndexedUpTo;
    UpToCanonical(s, vs, |vs|, h);
  }

  lemma {:induction false} UpToCanonical(s: Sequence, vs: seq<Json>, n: nat, h: Hasher)
    requires TypedSeq(s, vs, h) && n <= |vs|
    ensures IndexedUpTo(s, CanonicalSeq(s, vs, h), n, h) == IndexedUpTo(s, vs, n, h)
    decreases vs, 1, n
  {
    hide Typed, Canonical, IndexedBytes;
    if n == 0 {
    } else {
      UpToCanonical(s, vs, n - 1, h);
      CanonicalAt(s, vs, |vs|, n - 1, h);
      IndexedCanonical(s.Get(n - 1), vs[n - 1], true, h);
    }
  }

  lemma {:induction false} CanonicalAt(s: Sequence, vs: seq<Json>, n: nat, i: nat, h: Hasher)
    requires i < n <= |vs| && n <= s.Len()
    ensures CanonicalUpTo(s, vs, n, h)[i] == Canonical(s.Get(i), vs[i], h)
    decreases n
  {
    hide Canonical;
    if i == n - 1 {
    } else {
      CanonicalAt(s, vs, n - 1, i, h);
    }
  }

  lemma {:induction false} TopicCanonical(ty: AbiType, a: Json, b: Json, h: Hasher)
    requires Typed(ty, a, h) && Typed(ty, b, h) && Canonical(ty, a, h) == Canonical(ty, b, h)
    ensures Topic(ty, a, h) == Topic(ty, b, h)
  {
    hide Typed, Canonical, IndexedBytes;
    IndexedCanonical(ty, a, false, h);
    IndexedCanonical(ty, b, false, h);
  }

  /** Single-word topics identify the canonical value. */
  lemma {:induction false} WordTopicInjective(ty: AbiType, a: Json, b: Json, h: Hasher)
    requires IsWordKind(ty.kind) && Typed(ty, a, h) && Typed(ty, b, h) && Topic(ty, a, h) == Topic(ty, b, h)
    ensures Canonical(ty, a, h) == Canonical(ty, b, h)
  {
    hide PrimitiveWord, CanonicalPrimitive;
    PrimitiveRoundTrip(ty.kind, a, h);
    PrimitiveRoundTrip(ty.kind, b, h);
  }

  /** Inside a compound value every part takes a whole number of words. */
  lemma {:induction false} IndexedWholeWords(ty: AbiType, v: Json, h: Hasher)
    requires Typed(ty, v, h)
    ensures WholeWords(|IndexedBytes(ty, v, true, h)|)
    decreases v, 0
  {
    hide PrimitiveWord, DecodeHex, WholeWords, IndexedSeq, TypedSeq;
    match ty.kind
    case Str => PaddedWholeWords(v.text);
    case DynBytes => PaddedWholeWords(DecodeHex(v).value);
    case Tuple(_) => IndexedSeqWholeWords(Entries(ty.kind, |v.items|), v.items, h);
    case Array(_, _) => IndexedSeqWholeWords(Entries(ty.kind, |v.items|), v.items, h);
    case _ => WholeWordConstants();
  }

  lemma {:induction false} PaddedWholeWords(b: seq<byte>)
    ensures WholeWords(|b + Padding(|b|, true)|)
  {
  }

  lemma {:induction false} IndexedSeqWholeWords(s: Sequence, vs: seq<Json>, h: Hasher)
    requires TypedSeq(s, vs, h)
    ensures WholeWords(|IndexedSeq(s, vs, h)|)
    decreases vs, 2
  {
    hide Typed, WholeWords, IndexedUpTo;
    IndexedUpToWholeWords(s, vs, |vs|, h);
  }

  lemma {:induction false} IndexedUpToWholeWords(s: Sequence, vs: seq<Json>, n: nat, h: Hasher)
    requires TypedSeq(s, vs, h) && n <= |vs|
    ensures WholeWords(|IndexedUpTo(s, vs, n, h)|)
    decreases vs, 1, n
  {
    hide Typed, WholeWords, IndexedBytes;
    WholeWordConstants();
    if n == 0 {
    } else {
      IndexedUpToWholeWords(s, vs, n - 1, h);
      IndexedWholeWords(s.Get(n - 1), vs[n - 1], h);
      WholeWordsAdd(|IndexedUpTo(s, vs, n - 1, h)|, |IndexedBytes(s.Get(n - 1), vs[n - 1], true, h)|);
    }
  }

  /** For a static type what is hashed is exactly the canonical encoding. */
  lemma {:induction false} StaticPreimage(ty: AbiType, v: Json, nested: bool, h: Hasher)
    requires ty.Valid() && !ty.dynamic && Typed(ty, v, h)
    ensures IndexedBytes(ty, v, nested, h) == Enc(ty, v, h)
    decreases v, 0
  {
    hide PrimitiveWord, DecodeHex, IndexedSeq, TypedSeq, EncSeq, New;
    if IsContainer(ty.kind) {
      ContainerMetadata(ty, |v.items|);
      StaticSeqPreimage(Entries(ty.kind, |v.items|), v.items, h);
    } else {
      StaticIsWord(ty);
    }
  }

  lemma {:induction false} StaticIsWord(ty: AbiType)
    requires ty.Valid() && !ty.dynamic && !IsContainer(ty.kind)
    ensures IsWordKind(ty.kind)
  {
  }

  lemma {:induction false} StaticSeqPreimage(s: Sequence, vs: seq<Json>, h: Hasher)
    requires s.Valid() && TypedSeq(s, vs, h) && forall i :: 0 <= i < s.Len() ==> !s.Get(i).dynamic
    ensures IndexedSeq(s, vs, h) == EncSeq(s, vs, h)
    decreases vs, 2
  {
    hide Typed, IndexedUpTo, Heads, Tails;
    StaticUpToPreimage(s, vs, |vs|, h);
    StaticTails(s, vs, |vs|, h);
  }

  lemma {:induction false} StaticUpToPreimage(s: Sequence, vs: seq<Json>, n: nat, h: Hasher)
    requires s.Valid() && TypedSeq(s, vs, h) && n <= |vs| && forall i :: 0 <= i < s.Len() ==> !s.Get(i).dynamic
    ensures IndexedUpTo(s, vs, n, h) == Heads(s, vs, n, h)
    decreases vs, 1, n
  {
    hide Typed, IndexedBytes, Enc, Tails;
    if n == 0 {
    } else {
      StaticUpToPreimage(s, vs, n - 1, h);
      StaticPreimage(s.Get(n - 1), vs[n - 1], true, h);
    }
  }

  // ---------------------------------------------------------------- events and logs

  datatype Event = Event(inputs: seq<AbiType>, indexed: seq<bool>, anonymous: bool, topic: seq<byte>) {
    predicate Valid() {
      |indexed| == |inputs| && Fields(inputs).Valid()
    }
  }

  /** A decoded argument, or the hash that stands for a compound indexed one. */
  datatype Slot = FullValue(value: Json) | IndexedHash(hash: seq<byte>)

  function First(e: Event): seq<seq<byte>> {
    if e.anonymous then [] else [e.topic]
  }

  function AllTopics(e: Event, values: seq<Json>, h: Hasher): (ts: seq<seq<byte>>)
    requires |values| == |e.inputs|
    ensures |ts| == |e.inputs|
  {
    seq(|e.inputs|, i requires 0 <= i < |e.inputs| => Topic(e.inputs[i], values[i], h))
  }

  function DataTypes(e: Event): seq<AbiType>
    requires e.Valid()
  {
    Pick(e.indexed, false, e.inputs, |e.inputs|)
  }

  function DataValues(e: Event, values: seq<Json>): seq<Json>
    requires e.Valid() && |values| == |e.inputs|
  {
    Pick(e.indexed, false, values, |e.inputs|)
  }

  function LogTopics(e: Event, values: seq<Json>, h: Hasher): seq<seq<byte>>
    requires e.Valid() && |values| == |e.inputs|
  {
    First(e) + Pick(e.indexed, true, AllTopics(e, values, h), |e.inputs|)
  }

  function LogData(e: Event, values: seq<Json>, h: Hasher): seq<byte>
    requires e.Valid() && |values| == |e.inputs|
  {
    EncSeq(Fields(DataTypes(e)), DataValues(e, values), h)
  }

  /** The value decoding puts in slot `i`. */
  function SlotOf(e: Event, topics: seq<seq<byte>>, decoded: seq<Json>, i: nat, h: Hasher): Result<Slot, AbiError>
    requires e.Valid() && i < |e.inputs|
  {
    if e.indexed[i] then
      var at := |First(e)| + Count(e.indexed, true, i);
      if at >= |topics| then Err(Selector)
      else if !IsWordKind(e.inputs[i].kind) then Ok(IndexedHash(topics[at]))
      else
        var word :- Decode([e.inputs[i]], topics[at], h);
        if word == [] then Err(Encoding) else Ok(FullValue(word[0]))
    else
      var at := Count(e.indexed, false, i);
      if at >= |decoded| then Err(Encoding) else Ok(FullValue(decoded[at]))
  }

  function SlotsUpTo(e: Event, topics: seq<seq<byte>>, decoded: seq<Json>, n: nat, h: Hasher): Result<seq<Slot>,
          AbiError>
    requires e.Valid() && n <= |e.inputs|
  {
    if n == 0 then Ok([])
    else
      var slots :- SlotsUpTo(e, topics, decoded, n - 1, h);
      var slot :- SlotOf(e, topics, decoded, n - 1, h);
      Ok(slots + [slot])
  }

  function DecodeLog(e: Event, topics: seq<seq<byte>>, data: seq<byte>, h: Hasher): Result<seq<Slot>, AbiError>
    requires e.Valid()
  {
    if |topics| != Count(e.indexed, true, |e.indexed|) + |First(e)| || (!e.anonymous
      && topics[0] != e.topic) then Err(Selector)
    else
      var decoded :- Decode(DataTypes(e), data, h);
      SlotsUpTo(e, topics, decoded, |e.inputs|, h)
  }

  /** What a log says about its arguments: canonical values, and hashes for compound indexed ones. */
  function Observable(e: Event, values: seq<Json>, i: nat, h: Hasher): Slot
    requires |values| == |e.inputs| == |e.indexed| && i < |e.inputs|
  {
    if e.indexed[i] && !IsWordKind(e.inputs[i].kind) then IndexedHash(Topic(e.inputs[i], values[i], h))
    else FullValue(Canonical(e.inputs[i], values[i], h))
  }

  // ---------------------------------------------------------------- the data part is encodable

  /** One more field. */
  lemma {:induction false} FieldsPrefix(ts: seq<AbiType>, us: seq<AbiType>, n: nat)
    requires n <= |ts| && n <= |us| && forall i :: 0 <= i < n ==> ts[i] == us[i]
    ensures Fields(ts).HeadUpTo(n) == Fields(us).HeadUpTo(n) && Fields(ts).NodesUpTo(n) == Fields(us).NodesUpTo(n)
  {
    if n == 0 {
    } else {
      FieldsPrefix(ts, us, n - 1);
    }
  }

  lemma {:induction false} TailsOfPrefix(ts: seq<AbiType>, us: seq<AbiType>, vs: seq<Json>, ws: seq<Json>, n: nat,
          h: Hasher)
    requires n <= |ts| && n <= |us| && n <= |vs| && n <= |ws|
    requires forall i :: 0 <= i < n ==> ts[i] == us[i] && vs[i] == ws[i]
    ensures Tails(Fields(ts), vs, n, h) == Tails(Fields(us), ws, n, h)
    ensures CanonicalUpTo(Fields(ts), vs, n, h) == CanonicalUpTo(Fields(us), ws, n, h)
  {
    hide Enc, Canonical;
    if n == 0 {
    } else {
      TailsOfPrefix(ts, us, vs, ws, n - 1, h);
    }
  }

  /** Resources of the data part never exceed those of all arguments. */
  ghost predicate Below(ts: seq<AbiType>, vs: seq<Json>, types: seq<AbiType>, values: seq<Json>, n: nat, h: Hasher)
    requires |ts| == |vs| && n <= |types| && n <= |values|
  {
    && Fields(ts).HeadUpTo(|ts|) <= Fields(types).HeadUpTo(n)
    && Fields(ts).NodesUpTo(|ts|) <= Fields(types).NodesUpTo(n)
    && NodesUpTo(vs, |vs|) <= NodesUpTo(values, n)
    && TextUpTo(vs, |vs|) <= TextUpTo(values, n)
    && |Tails(Fields(ts), vs, |vs|, h)| <= |Tails(Fields(types), values, n, h)|
  }

  lemma {:induction false} BelowSkip(ts: seq<AbiType>, vs: seq<Json>, types: seq<AbiType>, values: seq<Json>, n: nat,
          h: Hasher)
    requires |ts| == |vs| && n < |types| && n < |values| && Below(ts, vs, types, values, n, h)
    ensures Below(ts, vs, types, values, n + 1, h)
  {
    hide Enc, Nodes, TextSize;
    assert Fields(types).Get(n) == types[n];
  }

  lemma {:induction false} BelowTake(ts: seq<AbiType>, vs: seq<Json>, types: seq<AbiType>, values: seq<Json>, n: nat,
          h: Hasher)
    requires |ts| == |vs| && n < |types| && n < |values| && Below(ts, vs, types, values, n, h)
    ensures Below(ts + [types[n]], vs + [values[n]], types, values, n + 1, h)
  {
    hide Enc, Nodes, TextSize;
    var us, ws := ts + [types[n]], vs + [values[n]];
    FieldsPrefix(ts, us, |ts|);
    ResourcePrefix(vs, ws, |vs|);
    TailsOfPrefix(ts, us, vs, ws, |vs|, h);
    assert Fields(us).Get(|ts|) == types[n] && Fields(types).Get(n) == types[n] && ws[|vs|] == values[n];
  }

  lemma {:induction false} PickBelow(flags: seq<bool>, types: seq<AbiType>, values: seq<Json>, n: nat, h: Hasher)
    requires |flags| == |types| == |values| && n <= |types|
    ensures Below(Pick(flags, false, types, n), Pick(flags, false, values, n), types, values, n, h)
  {
    hide Below;
    if n == 0 {
      assert Below([], [], types, values, 0, h) by { NothingBelow(types, values, h); }
    } else {
      PickBelow(flags, types, values, n - 1, h);
      if flags[n - 1] {
        BelowSkip(Pick(flags, false, types, n - 1), Pick(flags, false, values, n - 1), types, values, n - 1, h);
        assert Pick(flags, false, types, n) == Pick(flags, false, types, n - 1);
        assert Pick(flags, false, values, n) == Pick(flags, false, values, n - 1);
      } else {
        BelowTake(Pick(flags, false, types, n - 1), Pick(flags, false, values, n - 1), types, values, n - 1, h);
      }
    }
  }

  lemma {:induction false} NothingBelow(types: seq<AbiType>, values: seq<Json>, h: Hasher)
    ensures Below([], [], types, values, 0, h)
  {
  }

  /** Every picked entry is one of the arguments. */
  lemma {:induction false} PickTyped(flags: seq<bool>, types: seq<AbiType>, values: seq<Json>, n: nat, h: Hasher)
    requires |flags| == |types| == |values| && n <= |types|
    requires Fields(types).Valid() && TypedUpTo(Fields(types), values, n, h) && AllWithinDepth(values, 0)
    ensures var ts, vs := Pick(flags, false, types, n), Pick(flags, false, values, n);
            Fields(ts).Valid() && TypedSeq(Fields(ts), vs, h) && AllWithinDepth(vs, 0)
  {
    hide Typed, WithinDepth;
    if n == 0 {
    } else {
      assert Fields(types).Get(n - 1) == types[n - 1];
      PickTyped(flags, types, values, n - 1, h);
    }
  }

  lemma {:induction false} DataIsEncodable(e: Event, values: seq<Json>, h: Hasher)
    requires e.Valid() && Encodable(e.inputs, values, h)
    ensures Fields(DataTypes(e)).Valid() && Encodable(DataTypes(e), DataValues(e, values), h)
  {
    hide Typed, Enc, Tails, Heads, NodesUpTo, TextUpTo, AllWithinDepth, EncSeq;
    var ts, vs := DataTypes(e), DataValues(e, values);
    PickBelow(e.indexed, e.inputs, values, |values|, h);
    PickTyped(e.indexed, e.inputs, values, |values|, h);
    EncSeqLength(Fields(ts), vs, h);
    EncSeqLength(Fields(e.inputs), values, h);
    CountBound(e.indexed, false, |e.inputs|);
  }

  lemma {:induction false} CountBound(flags: seq<bool>, want: bool, n: nat)
    requires n <= |flags|
    ensures Count(flags, want, n) <= n
  {
    if n == 0 {
    } else {
      CountBound(flags, want, n - 1);
    }
  }

  lemma {:induction false} EntryCost(values: seq<Json>, n: nat, i: nat)
    requires i < n <= |values|
    ensures Nodes(values[i]) <= NodesUpTo(values, n) && TextSize(values[i]) <= TextUpTo(values, n)
  {
    hide Nodes, TextSize;
    if i == n - 1 {
    } else {
      EntryCost(values, n - 1, i);
    }
  }

  /** Each argument on its own is encodable too, so its topic is never refused. */
  lemma {:induction false} EntryIsEncodable(types: seq<AbiType>, values: seq<Json>, i: nat, h: Hasher)
    requires Fields(types).Valid() && Encodable(types, values, h) && i < |types|
    ensures types[i].Valid() && Typed(types[i], values[i], h) && WithinDepth(values[i], 0)
    ensures |Enc(types[i], values[i], h)| <= MAX_DATA_BYTES
    ensures Nodes(values[i]) <= MAX_VALUE_NODES && TextSize(values[i]) <= MAX_DATA_BYTES
  {
    hide Typed, Enc, EncSeq, NodesUpTo, TextUpTo, Nodes, TextSize, WithinDepth;
    assert Fields(types).Get(i) == types[i];
    EntryTyped(Fields(types), values, i, h);
    EntryShort(Fields(types), values, i, h);
    EntryCost(values, |values|, i);
  }

  // ---------------------------------------------------------------- decoding gives the log back

  lemma {:induction false} WordText(kind: Kind, v: Json, h: Hasher)
    requires PrimitiveWidth(kind) && PrimitiveWord(kind, v, h).Ok? && IsWordKind(kind)
    ensures TextSize(CanonicalPrimitive(kind, v, h)) <= 79
  {
    hide Pow, Decimal, ReadInteger, ChecksumText, ToHex;
    if kind.Int? {
      var (_, n) := ReadInteger(v).value;
      Pow10();
      DecimalLength(n, 78);
    }
  }

  /** A single-word topic decodes to the canonical value. */
  lemma {:induction false} WordTopicDecodes(ty: AbiType, v: Json, h: Hasher)
    requires ty.Valid() && IsWordKind(ty.kind) && Typed(ty, v, h) && WithinDepth(v, 0)
    requires Nodes(v) <= MAX_VALUE_NODES && TextSize(v) <= MAX_DATA_BYTES
    ensures Decode([ty], Topic(ty, v, h), h) == Ok([Canonical(ty, v, h)])
  {
    hide Decode, PrimitiveWord, CanonicalPrimitive, EncSeq, CanonicalSeq, TypedSeq, NodesUpTo, TextUpTo,
         AllWithinDepth, Nodes, WithinDepth, TextSize;
    SingleValue(ty, v, h);
    WordText(ty.kind, v, h);
    WordTopicIsEncoding(ty, v, h);
    assert [] + Enc(ty, v, h) == Enc(ty, v, h);
    EncodeThenDecode([ty], [v], h);
  }

  lemma {:induction false} WordTopicIsEncoding(ty: AbiType, v: Json, h: Hasher)
    requires ty.Valid() && IsWordKind(ty.kind) && Typed(ty, v, h)
    ensures Topic(ty, v, h) == Enc(ty, v, h) && |Enc(ty, v, h)| == 32 && !ty.dynamic && ty.minimumNodes == 1
    ensures Canonical(ty, v, h) == CanonicalPrimitive(ty.kind, v, h) && PrimitiveWord(ty.kind, v, h).Ok?
  {
    hide PrimitiveWord, CanonicalPrimitive;
  }

  lemma {:induction false} PickCanonical(flags: seq<bool>, types: seq<AbiType>, values: seq<Json>, n: nat, h: Hasher)
    requires |flags| == |types| == |values| && n <= |types|
    ensures var ts, vs := Pick(flags, false, types, n), Pick(flags, false, values, n);
            CanonicalUpTo(Fields(ts), vs, |vs|, h)
              == Pick(flags, false, CanonicalUpTo(Fields(types), values, |values|, h), n)
  {
    hide CanonicalUpTo, Canonical, Pick, Count;
    var all := CanonicalUpTo(Fields(types), values, |values|, h);
    PickNext(flags, types, n);
    PickNext(flags, values, n);
    PickNext(flags, all, n);
    if n == 0 {
      NothingCanonical(h);
    } else {
      PickCanonical(flags, types, values, n - 1, h);
      if !flags[n - 1] {
        var ts, vs := Pick(flags, false, types, n - 1), Pick(flags, false, values, n - 1);
        CanonicalSnoc(ts, vs, types[n - 1], values[n - 1], h);
        assert all[n - 1] == Canonical(types[n - 1], values[n - 1], h) by {
          CanonicalAt(Fields(types), values, |values|, n - 1, h);
        }
      }
    }
  }

  lemma {:induction false} PickNext<T>(flags: seq<bool>, xs: seq<T>, n: nat)
    requires n <= |flags| && n <= |xs|
    ensures Pick(flags, false, xs, n) == if n == 0 then [] else if flags[n - 1]
            then Pick(flags, false, xs, n - 1) else Pick(flags, false, xs, n - 1) + [xs[n - 1]]
  {
  }

  lemma {:induction false} NothingCanonical(h: Hasher)
    ensures CanonicalUpTo(Fields([]), [], 0, h) == []
  {
  }

  lemma {:induction false} CanonicalSnoc(ts: seq<AbiType>, vs: seq<Json>, ty: AbiType, v: Json, h: Hasher)
    requires |ts| == |vs|
    ensures CanonicalUpTo(Fields(ts + [ty]), vs + [v], |vs| + 1, h)
            == CanonicalUpTo(Fields(ts), vs, |vs|, h) + [Canonical(ty, v, h)]
  {
    hide Canonical;
    TailsOfPrefix(ts, ts + [ty], vs, vs + [v], |vs|, h);
    assert Fields(ts + [ty]).Get(|vs|) == ty;
  }

  lemma {:induction false} SlotIsObservable(e: Event, values: seq<Json>, i: nat, h: Hasher)
    requires e.Valid() && Encodable(e.inputs, values, h) && i < |e.inputs|
    ensures SlotOf(e, LogTopics(e, values, h), CanonicalSeq(Fields(DataTypes(e)), DataValues(e, values), h), i, h)
            == Ok(Observable(e, values, i, h))
  {
    hide Decode, Canonical, Topic, CanonicalUpTo, Typed, Enc, EncSeq, Nodes, TextSize, WithinDepth, NodesUpTo, TextUpTo;
    EntryIsEncodable(e.inputs, values, i, h);
    if e.indexed[i] {
      var all := AllTopics(e, values, h);
      PickAt(e.indexed, true, all, |e.inputs|, i);
      if IsWordKind(e.inputs[i].kind) {
        WordTopicDecodes(e.inputs[i], values[i], h);
      }
    } else {
      PickCanonical(e.indexed, e.inputs, values, |e.inputs|, h);
      var all := CanonicalUpTo(Fields(e.inputs), values, |values|, h);
      PickAt(e.indexed, false, all, |e.inputs|, i);
      CanonicalAt(Fields(e.inputs), values, |values|, i, h);
    }
  }

  lemma {:induction false} SlotsAreObservable(e: Event, values: seq<Json>, n: nat, h: Hasher)
    requires e.Valid() && Encodable(e.inputs, values, h) && n <= |e.inputs|
    ensures var data := CanonicalSeq(Fields(DataTypes(e)), DataValues(e, values), h);
            var r := SlotsUpTo(e, LogTopics(e, values, h), data, n, h);
            r.Ok? && |r.value| == n && forall i :: 0 <= i < n ==> r.value[i] == Observable(e, values, i, h)
  {
    hide SlotOf, Observable, Encodable, LogTopics, CanonicalSeq;
    if n == 0 {
    } else {
      SlotsAreObservable(e, values, n - 1, h);
      SlotIsObservable(e, values, n - 1, h);
    }
  }

  lemma {:induction false} EncodableArity(types: seq<AbiType>, values: seq<Json>, h: Hasher)
    requires Encodable(types, values, h)
    ensures |values| == |types|
  {
  }

  /** Decoding an encoded log puts every canonical value, or the hash that stands for it, back in its
      declared slot, exactly when the canonical data fits the decoder's text budget. */
  lemma {:induction false} LogRoundTrip(e: Event, values: seq<Json>, h: Hasher)
    requires e.Valid() && Encodable(e.inputs, values, h)
    ensures var data := CanonicalSeq(Fields(DataTypes(e)), DataValues(e, values), h);
            var r := DecodeLog(e, LogTopics(e, values, h), LogData(e, values, h), h);
            if TextUpTo(data, |data|) <= MAX_DATA_BYTES
            then r.Ok? && |r.value| == |e.inputs| && forall i :: 0 <= i < |e.inputs| ==>
              r.value[i] == Observable(e, values, i, h)
            else r == Err(Limit)
  {
    hide Decode, SlotsUpTo, Encodable, CanonicalSeq, EncSeq, Observable, AllTopics, TextUpTo;
    assert |values| == |e.inputs| by { EncodableArity(e.inputs, values, h); }
    DataIsEncodable(e, values, h);
    EncodeThenDecode(DataTypes(e), DataValues(e, values), h);
    SlotsAreObservable(e, values, |e.inputs|, h);
  }

  /** A log that is encoded and whose decoding is refused: one non-indexed list of 25000 unprefixed addresses. */
  lemma {:induction false} EncodedLogIsRefused(anonymous: bool, topic: seq<byte>, h: Hasher)
    ensures var e := Event([ADDRESSES], [false], anonymous, topic);
            var values := [List(Copies(String(BareZeroAddress), 25000))];
            && e.Valid() && Encodable(e.inputs, values, h)
            && DecodeLog(e, LogTopics(e, values, h), LogData(e, values, h), h) == Err(Limit)
  {
    hide Decode, EncSeq, Encodable, Copies, BareZeroAddress, AbiType.Valid, SlotsUpTo, AllTopics, CanonicalSeq,
         TextUpTo;
    var e := Event([ADDRESSES], [false], anonymous, topic);
    var values := [List(Copies(String(BareZeroAddress), 25000))];
    EncodeAcceptsWhatDecodeRefuses(h);
    assert DataTypes(e) == [ADDRESSES] && DataValues(e, values) == values;
    LogRoundTrip(e, values, h);
  }
}
