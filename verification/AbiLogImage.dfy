/** The other direction for logs (interface.rs): what decoding a log gives encodes to the same log. */
module AbiLogImage {
  import opened ByteStrings
  import opened AbiTypes
  import opened AbiText
  import opened AbiEncoding
  import opened AbiDecoding
  import opened AbiMeasure
  import opened AbiRoundTrip
  import opened AbiEvents

  /** Every indexed argument is a single word, so a log says what all its arguments are. */
  predicate Transparent(e: Event) {
    |e.indexed| == |e.inputs| && forall i :: 0 <= i < |e.inputs| && e.indexed[i] ==> IsWordKind(e.inputs[i].kind)
  }

  function SlotValue(s: Slot): Json {
    if s.FullValue? then s.value else Null
  }

  function SlotValues(slots: seq<Slot>): (vs: seq<Json>)
    ensures |vs| == |slots| && forall i :: 0 <= i < |vs| ==> vs[i] == SlotValue(slots[i])
  {
    seq(|slots|, i requires 0 <= i < |slots| => SlotValue(slots[i]))
  }

  // ---------------------------------------------------------------- slots

  lemma {:induction false} SlotAt(e: Event, topics: seq<seq<byte>>, decoded: seq<Json>, n: nat, i: nat, h: Hasher)
    requires e.Valid() && i < n <= |e.inputs| && SlotsUpTo(e, topics, decoded, n, h).Ok?
    ensures |SlotsUpTo(e, topics, decoded, n, h).value| == n
    ensures SlotOf(e, topics, decoded, i, h) == Ok(SlotsUpTo(e, topics, decoded, n, h).value[i])
    decreases n
  {
    hide SlotOf;
    SlotsLength(e, topics, decoded, n, h);
    SlotsLength(e, topics, decoded, n - 1, h);
    if i == n - 1 {
    } else {
      SlotAt(e, topics, decoded, n - 1, i, h);
    }
  }

  lemma {:induction false} SlotsLength(e: Event, topics: seq<seq<byte>>, decoded: seq<Json>, n: nat, h: Hasher)
    requires e.Valid() && n <= |e.inputs|
    ensures SlotsUpTo(e, topics, decoded, n, h).Ok? ==> |SlotsUpTo(e, topics, decoded, n, h).value| == n
  {
    hide SlotOf;
    if n == 0 {
    } else {
      SlotsLength(e, topics, decoded, n - 1, h);
    }
  }

  lemma {:induction false} SlotsNext(e: Event, topics: seq<seq<byte>>, decoded: seq<Json>, n: nat, h: Hasher)
    requires e.Valid() && n < |e.inputs|
    requires SlotsUpTo(e, topics, decoded, n, h).Ok? && SlotOf(e, topics, decoded, n, h).Ok?
    ensures n == 0 ==> SlotsUpTo(e, topics, decoded, n, h).value == []
    ensures SlotsUpTo(e, topics, decoded, n + 1, h)
            == Ok(SlotsUpTo(e, topics, decoded, n, h).value + [SlotOf(e, topics, decoded, n, h).value])
  {
    hide SlotOf;
  }

  /** A value that one word spells, and how that word is read. */
  predicate Reads(ty: AbiType, v: Json, word: seq<byte>, h: Hasher) {
    && Typed(ty, v, h) && WithinDepth(v, 0) && Canonical(ty, v, h) == v
    && Topic(ty, v, h) == word
  }

  lemma {:induction false} WordIsRead(ty: AbiType, word: seq<byte>, h: Hasher)
    requires ty.Valid() && IsWordKind(ty.kind) && Decode([ty], word, h).Ok?
    ensures |Decode([ty], word, h).value| == 1 && Reads(ty, Decode([ty], word, h).value[0], word, h)
  {
    hide Decode, EncSeq, CanonicalSeq, NodesUpTo, TextUpTo, Typed, Canonical, Enc, Topic, WithinDepth;
    var vs := Decode([ty], word, h).value;
    assert Fields([ty]).Valid();
    DecodeThenEncode([ty], word, h);
    var s := Fields([ty]);
    EntryTyped(s, vs, 0, h);
    assert vs == [vs[0]] && s.Get(0) == ty;
    SingleValue(ty, vs[0], h);
    WordTopicIsEncoding(ty, vs[0], h);
    assert [] + Enc(ty, vs[0], h) == Enc(ty, vs[0], h);
  }

  /** The entries of `xs` with the flag, when each is known from its place among them. */
  lemma {:induction false} PickFrom<T>(flags: seq<bool>, want: bool, xs: seq<T>, ys: seq<T>, n: nat)
    requires n <= |flags| && n <= |xs| && Count(flags, want, n) <= |ys|
    requires forall i :: 0 <= i < n && flags[i] == want ==>
               Count(flags, want, i) < |ys| && xs[i] == ys[Count(flags, want, i)]
    ensures Pick(flags, want, xs, n) == ys[..Count(flags, want, n)]
  {
    if n == 0 {
    } else {
      PickFrom(flags, want, xs, ys, n - 1);
    }
  }

  lemma {:induction false} Accepted(e: Event, topics: seq<seq<byte>>, data: seq<byte>, h: Hasher)
    requires e.Valid() && DecodeLog(e, topics, data, h).Ok?
    ensures |topics| == Count(e.indexed, true, |e.indexed|) + |First(e)| && First(e) <= topics
    ensures Decode(DataTypes(e), data, h).Ok?
    ensures SlotsUpTo(e, topics, Decode(DataTypes(e), data, h).value, |e.inputs|, h) == DecodeLog(e, topics, data, h)
  {
    hide Decode, SlotsUpTo, Pick;
  }

  lemma {:induction false} DecodedData(e: Event, data: seq<byte>, h: Hasher)
    requires e.Valid() && Decode(DataTypes(e), data, h).Ok?
    ensures var vs := Decode(DataTypes(e), data, h).value;
            && |vs| == |DataTypes(e)| && TypedSeq(Fields(DataTypes(e)), vs, h) && AllWithinDepth(vs, 0)
            && EncSeq(Fields(DataTypes(e)), vs, h) == data && Fields(DataTypes(e)).Valid()
            && CanonicalSeq(Fields(DataTypes(e)), vs, h) == vs
  {
    hide Decode, EncSeq, CanonicalSeq, NodesUpTo, TextUpTo, Typed, WithinDepth;
    PickValidTypes(e.indexed, e.inputs, |e.inputs|);
    DecodeThenEncode(DataTypes(e), data, h);
  }

  lemma {:induction false} PickValidTypes(flags: seq<bool>, types: seq<AbiType>, n: nat)
    requires n <= |flags| && n <= |types| && Fields(types).Valid()
    ensures Fields(Pick(flags, false, types, n)).Valid()
  {
    hide AbiType.Valid;
    if n == 0 {
    } else {
      PickValidTypes(flags, types, n - 1);
    }
  }

  /** What the slot of one argument says. */
  lemma {:induction false} SlotIsFaithful(e: Event, topics: seq<seq<byte>>, data: seq<byte>, i: nat, h: Hasher)
    requires e.Valid() && Transparent(e) && DecodeLog(e, topics, data, h).Ok? && i < |e.inputs|
    ensures var slots, decoded := DecodeLog(e, topics, data, h).value, Decode(DataTypes(e), data, h);
            && |slots| == |e.inputs| && decoded.Ok? && slots[i].FullValue?
            && (e.indexed[i] ==>
                  var at := |First(e)| + Count(e.indexed, true, i);
                  at < |topics| && Reads(e.inputs[i], slots[i].value, topics[at], h))
            && (!e.indexed[i] ==>
                  var at := Count(e.indexed, false, i);
                  at < |decoded.value| && slots[i].value == decoded.value[at])
  {
    hide Decode, Reads, SlotsUpTo, Pick;
    Accepted(e, topics, data, h);
    var decoded := Decode(DataTypes(e), data, h).value;
    SlotAt(e, topics, decoded, |e.inputs|, i, h);
    if e.indexed[i] {
      WordIsRead(e.inputs[i], topics[|First(e)| + Count(e.indexed, true, i)], h);
    }
  }

  lemma {:induction false} CountAll(flags: seq<bool>, n: nat)
    requires n <= |flags|
    ensures Count(flags, true, n) + Count(flags, false, n) == n
  {
    if n == 0 {
    } else {
      CountAll(flags, n - 1);
    }
  }

  lemma {:induction false} PickedType(flags: seq<bool>, types: seq<AbiType>, vs: seq<Json>, n: nat, i: nat, h: Hasher)
    requires i < n <= |flags| && n <= |types| && !flags[i]
    requires TypedSeq(Fields(Pick(flags, false, types, n)), vs, h) && AllWithinDepth(vs, 0)
    requires CanonicalSeq(Fields(Pick(flags, false, types, n)), vs, h) == vs
    ensures var k := Count(flags, false, i);
            k < |vs| && Typed(types[i], vs[k], h) && WithinDepth(vs[k], 0) && Canonical(types[i], vs[k], h) == vs[k]
  {
    hide Typed, WithinDepth, Canonical, CanonicalUpTo, Pick;
    var ts, k := Pick(flags, false, types, n), Count(flags, false, i);
    PickAt(flags, false, types, n, i);
    assert Fields(ts).Get(k) == types[i];
    CanonicalAt(Fields(ts), vs, |vs|, k, h);
  }

  /** Every argument is typed, canonical and within the depth limit. */
  lemma {:induction false} ArgumentIsSound(e: Event, topics: seq<seq<byte>>, data: seq<byte>, i: nat, h: Hasher)
    requires e.Valid() && Transparent(e) && DecodeLog(e, topics, data, h).Ok? && i < |e.inputs|
    ensures var slots := DecodeLog(e, topics, data, h).value;
            && |slots| == |e.inputs| && slots[i].FullValue? && Typed(e.inputs[i], slots[i].value, h)
            && WithinDepth(slots[i].value, 0) && Canonical(e.inputs[i], slots[i].value, h) == slots[i].value
  {
    hide Decode, DecodeLog, Typed, Canonical, WithinDepth, Topic, TypedSeq, CanonicalSeq, AllWithinDepth, EncSeq, Pick;
    SlotIsFaithful(e, topics, data, i, h);
    if !e.indexed[i] {
      DecodedData(e, data, h);
      PickedType(e.indexed, e.inputs, Decode(DataTypes(e), data, h).value, |e.inputs|, i, h);
    }
  }

  lemma {:induction false} SameData(e: Event, topics: seq<seq<byte>>, data: seq<byte>, h: Hasher)
    requires e.Valid() && Transparent(e) && DecodeLog(e, topics, data, h).Ok?
    ensures |DecodeLog(e, topics, data, h).value| == |e.inputs| && Decode(DataTypes(e), data, h).Ok?
    ensures DataValues(e, SlotValues(DecodeLog(e, topics, data, h).value)) == Decode(DataTypes(e), data, h).value
  {
    hide Decode, DecodeLog, Pick, Reads, EncSeq, CanonicalSeq, TypedSeq, AllWithinDepth;
    Accepted(e, topics, data, h);
    var decoded := Decode(DataTypes(e), data, h).value;
    var slots := DecodeLog(e, topics, data, h).value;
    SlotsLength(e, topics, decoded, |e.inputs|, h);
    DecodedData(e, data, h);
    forall i | 0 <= i < |e.inputs| && !e.indexed[i]
      ensures Count(e.indexed, false, i) < |decoded| && SlotValue(slots[i]) == decoded[Count(e.indexed, false, i)]
    {
      SlotIsFaithful(e, topics, data, i, h);
    }
    PickFrom(e.indexed, false, SlotValues(slots), decoded, |e.inputs|);
    assert decoded[..|decoded|] == decoded;
  }

  lemma {:induction false} SameTopics(e: Event, topics: seq<seq<byte>>, data: seq<byte>, h: Hasher)
    requires e.Valid() && Transparent(e) && DecodeLog(e, topics, data, h).Ok?
    ensures |DecodeLog(e, topics, data, h).value| == |e.inputs|
    ensures LogTopics(e, SlotValues(DecodeLog(e, topics, data, h).value), h) == topics
  {
    hide Decode, DecodeLog, Pick, Topic, Typed, Canonical, WithinDepth;
    Accepted(e, topics, data, h);
    var slots := DecodeLog(e, topics, data, h).value;
    SlotsLength(e, topics, Decode(DataTypes(e), data, h).value, |e.inputs|, h);
    var values := SlotValues(slots);
    var all, rest := AllTopics(e, values, h), topics[|First(e)|..];
    forall i | 0 <= i < |e.inputs| && e.indexed[i]
      ensures Count(e.indexed, true, i) < |rest| && all[i] == rest[Count(e.indexed, true, i)]
    {
      SlotIsFaithful(e, topics, data, i, h);
    }
    PickFrom(e.indexed, true, all, rest, |e.inputs|);
    assert topics == First(e) + rest;
    assert rest[..|rest|] == rest;
  }

  // ---------------------------------------------------------------- resources of all arguments together

  /** The arguments use what the data uses, and one word and one node more for each indexed one. */
  ghost predicate Splits(ts: seq<AbiType>, vs: seq<Json>, types: seq<AbiType>, values: seq<Json>, n: nat, k: nat,
          h: Hasher)
    requires |ts| == |vs| && n <= |types| && n <= |values|
  {
    && Fields(types).HeadUpTo(n) == Fields(ts).HeadUpTo(|ts|) + 32 * k
    && NodesUpTo(values, n) == NodesUpTo(vs, |vs|) + k
    && |Tails(Fields(types), values, n, h)| == |Tails(Fields(ts), vs, |vs|, h)|
  }

  lemma {:induction false} WordCosts(ty: AbiType, v: Json, h: Hasher)
    requires ty.Valid() && IsWordKind(ty.kind) && Typed(ty, v, h)
    ensures !ty.dynamic && ty.head == 32 && Nodes(v) == 1
  {
    WordNotList(ty.kind, v, h);
  }

  lemma {:induction false} SplitSkip(ts: seq<AbiType>, vs: seq<Json>, types: seq<AbiType>, values: seq<Json>, n: nat,
          k: nat, h: Hasher)
    requires |ts| == |vs| && n < |types| && n < |values| && Splits(ts, vs, types, values, n, k, h)
    requires !types[n].dynamic && types[n].head == 32 && Nodes(values[n]) == 1
    ensures Splits(ts, vs, types, values, n + 1, k + 1, h)
  {
    hide Enc, Nodes;
    assert Fields(types).Get(n) == types[n];
  }

  lemma {:induction false} SplitTake(ts: seq<AbiType>, vs: seq<Json>, types: seq<AbiType>, values: seq<Json>, n: nat,
          k: nat, h: Hasher)
    requires |ts| == |vs| && n < |types| && n < |values| && Splits(ts, vs, types, values, n, k, h)
    ensures Splits(ts + [types[n]], vs + [values[n]], types, values, n + 1, k, h)
  {
    hide Enc, Nodes;
    var us, ws := ts + [types[n]], vs + [values[n]];
    FieldsPrefix(ts, us, |ts|);
    ResourcePrefix(vs, ws, |vs|);
    TailsOfPrefix(ts, us, vs, ws, |vs|, h);
    assert Fields(us).Get(|ts|) == types[n] && Fields(types).Get(n) == types[n] && ws[|vs|] == values[n];
  }

  lemma {:induction false} PickSplits(flags: seq<bool>, types: seq<AbiType>, values: seq<Json>, n: nat, h: Hasher)
    requires |flags| == |types| == |values| && n <= |types| && Fields(types).Valid()
    requires forall i :: 0 <= i < n ==> Typed(types[i], values[i], h) && (flags[i] ==> IsWordKind(types[i].kind))
    ensures var ts, vs := Pick(flags, false, types, n), Pick(flags, false, values, n);
            Splits(ts, vs, types, values, n, Count(flags, true, n), h)
  {
    hide Splits, Typed, AbiType.Valid;
    if n == 0 {
      assert Splits([], [], types, values, 0, 0, h) by { NothingSplits(types, values, h); }
    } else {
      PickSplits(flags, types, values, n - 1, h);
      var ts, vs := Pick(flags, false, types, n - 1), Pick(flags, false, values, n - 1);
      if flags[n - 1] {
        WordCosts(types[n - 1], values[n - 1], h);
        SplitSkip(ts, vs, types, values, n - 1, Count(flags, true, n - 1), h);
        assert Pick(flags, false, types, n) == ts && Pick(flags, false, values, n) == vs;
      } else {
        SplitTake(ts, vs, types, values, n - 1, Count(flags, true, n - 1), h);
      }
    }
  }

  lemma {:induction false} NothingSplits(types: seq<AbiType>, values: seq<Json>, h: Hasher)
    ensures Splits([], [], types, values, 0, 0, h)
  {
  }

  /** The limits on all arguments together, in terms of the log: `k` of them are indexed. */
  predicate Affordable(types: seq<AbiType>, values: seq<Json>, data: seq<byte>, dataNodes: nat, k: nat) {
    && |types| <= MAX_FIELDS
    && |data| + 32 * k <= MAX_DATA_BYTES
    && dataNodes + k <= MAX_VALUE_NODES
    && TextUpTo(values, |values|) <= MAX_DATA_BYTES
  }

  lemma {:induction false} EncodableWhenAffordable(e: Event, values: seq<Json>, h: Hasher)
    requires e.Valid() && Transparent(e) && TypedSeq(Fields(e.inputs), values, h) && AllWithinDepth(values, 0)
    ensures var vs, k := DataValues(e, values), Count(e.indexed, true, |e.inputs|);
            Encodable(e.inputs, values, h)
            <==> Affordable(e.inputs, values, LogData(e, values, h), NodesUpTo(vs, |vs|), k)
  {
    hide Typed, Enc, Tails, Heads, NodesUpTo, TextUpTo, AllWithinDepth, EncSeq, Pick, AbiType.Valid;
    var s, ts, vs := Fields(e.inputs), DataTypes(e), DataValues(e, values);
    forall i | 0 <= i < |e.inputs| ensures Typed(e.inputs[i], values[i], h) {
      assert s.Get(i) == e.inputs[i];
    }
    PickSplits(e.indexed, e.inputs, values, |values|, h);
    PickTyped(e.indexed, e.inputs, values, |values|, h);
    EncSeqLength(Fields(ts), vs, h);
    EncSeqLength(s, values, h);
    MinimumNodesUpTo(s, values, |values|, h);
    SequenceTotals(s);
  }

  /** Every log that decoding accepts, when its indexed arguments are single words, is the encoding of what
      decoding gave: the values are typed and canonical and have the same topics and data. Encoding accepts
      them exactly when all arguments together stay within the limits, which decoding only asks of the data. */
  lemma {:induction false} DecodeThenEncodeLog(e: Event, topics: seq<seq<byte>>, data: seq<byte>, h: Hasher)
    requires e.Valid() && Transparent(e) && DecodeLog(e, topics, data, h).Ok?
    ensures var slots := DecodeLog(e, topics, data, h).value;
            var values := SlotValues(slots);
            && |slots| == |e.inputs| && (forall i :: 0 <= i < |slots| ==> slots[i] == FullValue(values[i]))
            && TypedSeq(Fields(e.inputs), values, h) && CanonicalSeq(Fields(e.inputs), values, h) == values
            && LogTopics(e, values, h) == topics && LogData(e, values, h) == data
            && var vs := DataValues(e, values);
               Encodable(e.inputs, values, h)
               <==> Affordable(e.inputs, values, data, NodesUpTo(vs, |vs|), Count(e.indexed, true, |e.inputs|))
  {
    hide Decode, DecodeLog, Typed, Canonical, WithinDepth, Encodable, Affordable, NodesUpTo, EncSeq, LogTopics, Pick,
         CanonicalUpTo;
    SameTopics(e, topics, data, h);
    SameData(e, topics, data, h);
    DecodedData(e, data, h);
    var slots := DecodeLog(e, topics, data, h).value;
    var values, s := SlotValues(slots), Fields(e.inputs);
    forall i | 0 <= i < |slots|
      ensures slots[i] == FullValue(values[i]) && Typed(s.Get(i), values[i], h) && WithinDepth(values[i], 0)
              && Canonical(s.Get(i), values[i], h) == values[i]
    {
      ArgumentIsSound(e, topics, data, i, h);
    }
    forall i | 0 <= i < |values| ensures CanonicalUpTo(s, values, |values|, h)[i] == values[i] {
      CanonicalAt(s, values, |values|, i, h);
    }
    EncodableWhenAffordable(e, values, h);
  }

  // ---------------------------------------------------------------- why the limits are needed

  const BOOL: AbiType := AbiType(Bool, false, 32, 1, 0)
  const BOOLS: AbiType := AbiType(Array(BOOL, None), true, 32, 1, 1)

  lemma {:induction false} BooleanWord(h: Hasher)
    ensures var v := Boolean(true);
            && Typed(BOOL, v, h) && |Enc(BOOL, v, h)| == 32 && Canonical(BOOL, v, h) == v
            && TextSize(v) == 0 && Nodes(v) == 1 && WithinDepth(v, 1) && WithinDepth(v, 0)
  {
    hide ToBe;
  }

  lemma {:induction false} BooleanListCost(n: nat, h: Hasher)
    ensures var v := List(Copies(Boolean(true), n));
            && Typed(BOOLS, v, h) && Nodes(v) == 1 + n && TextSize(v) == 0 && WithinDepth(v, 0)
            && |Enc(BOOLS, v, h)| == 32 + 32 * n && Canonical(BOOLS, v, h) == v
  {
    var v := Boolean(true);
    var items := Copies(v, n);
    var s := Repeat(BOOL, n);
    assert Enc(BOOLS, List(items), h) == Word(n) + EncSeq(s, items, h);
    assert Canonical(BOOLS, List(items), h) == List(CanonicalSeq(s, items, h));
    BooleanWord(h);
    hide PrimitiveWord, Canonical, Word, Enc;
    assert TypedSeq(s, items, h);
    CopiesLayout(BOOL, v, items, n, h);
    CopiesCost(v, items, n);
    assert CanonicalSeq(s, items, h) == items;
  }

  const FULL: nat := 32766

  lemma {:induction false} FullList(h: Hasher)
    ensures var v := List(Copies(Boolean(true), FULL));
            && Typed(BOOLS, v, h) && WithinDepth(v, 0) && |EncSeq(Fields([BOOLS]), [v], h)| == MAX_DATA_BYTES
            && Decode([BOOLS], EncSeq(Fields([BOOLS]), [v], h), h) == Ok([v])
  {
    var v := List(Copies(Boolean(true), FULL));
    BooleanListCost(FULL, h);
    SingleValue(BOOLS, v, h);
    hide Decode, Enc, EncSeq, CanonicalSeq, Typed, TypedSeq, Nodes, TextSize, WithinDepth, NodesUpTo, TextUpTo,
         AllWithinDepth, Copies;
    EncodeThenDecode([BOOLS], [v], h);
  }

  lemma {:induction false} TwoParts(e: Event, data: AbiType, word: AbiType, v: Json, w: Json, h: Hasher)
    requires e.Valid() && e.inputs == [data, word] && e.indexed == [false, true]
    ensures DataTypes(e) == [data] && DataValues(e, [v, w]) == [v]
    ensures LogTopics(e, [v, w], h) == First(e) + [Topic(word, w, h)]
    ensures Count(e.indexed, true, 2) == 1 && Count(e.indexed, true, 1) == 0 && Count(e.indexed, false, 0) == 0
  {
    hide Topic, AbiType.Valid;
    var flags := e.indexed;
    var all := AllTopics(e, [v, w], h);
    assert all[1] == Topic(word, w, h);
    assert Count(flags, true, 0) == 0 && Count(flags, true, 1) == 0 && Count(flags, false, 1) == 1;
    assert Pick(flags, true, all, 1) == [] && Pick(flags, true, all, 2) == [all[1]];
    assert Pick(flags, false, e.inputs, 1) == [data] && Pick(flags, false, [v, w], 1) == [v];
  }

  lemma {:induction false} TwoSlots(e: Event, data: AbiType, word: AbiType, v: Json, w: Json, h: Hasher)
    requires e.Valid() && e.inputs == [data, word] && e.indexed == [false, true] && IsWordKind(word.kind)
    requires Decode([data], EncSeq(Fields([data]), [v], h), h) == Ok([v])
    requires Decode([word], Topic(word, w, h), h) == Ok([w])
    ensures DecodeLog(e, LogTopics(e, [v, w], h), LogData(e, [v, w], h), h) == Ok([FullValue(v), FullValue(w)])
  {
    hide Decode, Topic, EncSeq, Pick, Count, LogTopics, AbiType.Valid;
    TwoParts(e, data, word, v, w, h);
    var topics := LogTopics(e, [v, w], h);
    assert SlotOf(e, topics, [v], 0, h) == Ok(FullValue(v));
    assert SlotOf(e, topics, [v], 1, h) == Ok(FullValue(w));
    SlotsNext(e, topics, [v], 0, h);
    SlotsNext(e, topics, [v], 1, h);
    assert [] + [FullValue(v)] == [FullValue(v)] && [FullValue(v)] + [FullValue(w)] == [FullValue(v), FullValue(w)];
  }

  /** A log that decoding accepts and whose values encoding refuses: a list of 32766 booleans fills the data
      to the last byte, and one indexed boolean more is too much. */
  lemma {:induction false} DecodedLogIsRefused(anonymous: bool, topic: seq<byte>, h: Hasher)
    ensures var e := Event([BOOLS, BOOL], [false, true], anonymous, topic);
            var v, w := List(Copies(Boolean(true), FULL)), Boolean(true);
            && e.Valid() && Transparent(e)
            && DecodeLog(e, LogTopics(e, [v, w], h), LogData(e, [v, w], h), h) == Ok([FullValue(v), FullValue(w)])
            && !Encodable(e.inputs, [v, w], h)
  {
    var e := Event([BOOLS, BOOL], [false, true], anonymous, topic);
    var v, w := List(Copies(Boolean(true), FULL)), Boolean(true);
    BooleanWord(h);
    FullList(h);
    assert BOOL.Valid() && BOOLS.Valid();
    hide Decode, DecodeLog, Topic, Typed, Canonical, Enc, EncSeq, Nodes, NodesUpTo, TextUpTo, TextSize, WithinDepth,
         Pick, Count, LogTopics, Encodable, Copies, AbiType.Valid;
    WordTopicDecodes(BOOL, w, h);
    TwoParts(e, BOOLS, BOOL, v, w, h);
    TwoSlots(e, BOOLS, BOOL, v, w, h);
    var s := Fields(e.inputs);
    assert s.Get(0) == BOOLS && s.Get(1) == BOOL;
    EncodableWhenAffordable(e, [v, w], h);
  }
}
