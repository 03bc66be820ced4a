/** Encoding and decoding of logs and filters as they run (interface.rs, workflows.rs, codec.rs). */
module AbiLogs {
  import opened ByteStrings
  import opened AbiTypes
  import opened AbiText
  import opened AbiEncoding
  import opened AbiDecoding
  import opened AbiMeasure
  import opened AbiRoundTrip
  import opened AbiCodec
  import opened AbiEvents
  import opened AbiFilters

  // ---------------------------------------------------------------- topics

  /** A hasher that is fed piece by piece. */
  class Sponge {
    var absorbed: seq<byte>

    constructor ()
      ensures absorbed == []
    {
      absorbed := [];
    }

    method Update(piece: seq<byte>)
      modifies this
      ensures absorbed == old(absorbed) + piece
    {
      absorbed := absorbed + piece;
    }
  }

  method Indexed(ty: AbiType, v: Json, nested: bool, sponge: Sponge, h: Hasher)
    requires Typed(ty, v, h)
    modifies sponge
    ensures sponge.absorbed == old(sponge.absorbed) + IndexedBytes(ty, v, nested, h)
    decreases v, 0
  {
    hide PrimitiveWord, DecodeHex, TypedSeq, IndexedSeq, Padded;
    match ty.kind {
      case Str =>
        sponge.Update(v.text);
        if nested {
          sponge.Update(Zeros(PaddingOf(|v.text|)));
        }
      case DynBytes =>
        var bytes := DecodeHex(v).value;
        sponge.Update(bytes);
        if nested {
          sponge.Update(Zeros(PaddingOf(|bytes|)));
        }
      case Tuple(_) => IndexedAll(Entries(ty.kind, |v.items|), v.items, sponge, h);
      case Array(_, _) => IndexedAll(Entries(ty.kind, |v.items|), v.items, sponge, h);
      case _ => sponge.Update(PrimitiveWord(ty.kind, v, h).value);
    }
  }

  /** Bytes up to the next word boundary. */
  function PaddingOf(n: nat): (k: nat)
    ensures k == Padded(n) - n
  {
    (32 - n % 32) % 32
  }

  method IndexedAll(s: Sequence, vs: seq<Json>, sponge: Sponge, h: Hasher)
    requires TypedSeq(s, vs, h)
    modifies sponge
    ensures sponge.absorbed == old(sponge.absorbed) + IndexedSeq(s, vs, h)
    decreases vs, 1
  {
    hide Typed, IndexedBytes;
    var i := 0;
    while i < |vs|
      invariant 0 <= i <= |vs| && sponge.absorbed == old(sponge.absorbed) + IndexedUpTo(s, vs, i, h)
    {
      Indexed(s.Get(i), vs[i], true, sponge, h);
      i := i + 1;
    }
  }

  /** Values within every limit on their own. */
  predicate Admissible(ty: AbiType, v: Json, h: Hasher) {
    && Typed(ty, v, h) && WithinDepth(v, 0) && |Enc(ty, v, h)| <= MAX_DATA_BYTES
    && Nodes(v) <= MAX_VALUE_NODES && TextSize(v) <= MAX_DATA_BYTES
  }

  lemma {:induction false} OneValue(v: Json)
    ensures NodesUpTo([v], 1) == Nodes(v) && TextUpTo([v], 1) == TextSize(v)
    ensures AllWithinDepth([v], 0) <==> WithinDepth(v, 0)
    ensures AnyObject([v]) <==> HasObject(v)
  {
    hide Nodes, TextSize, WithinDepth, HasObject;
    assert NodesUpTo([v], 0) == 0 && TextUpTo([v], 0) == 0;
    assert [v][0] == v;
  }

  method IndexedEventTopic(ty: AbiType, v: Json, h: Hasher) returns (r: Result<seq<byte>, AbiError>)
    requires ty.Valid()
    ensures r.Ok? <==> Admissible(ty, v, h)
    ensures r.Ok? ==> r.value == Topic(ty, v, h)
  {
    hide Typed, Enc, WithinDepth, Nodes, TextSize, NodesUpTo, TextUpTo, AllWithinDepth, AnyObject, HasObject;
    OneValue(v);
    var checked := PreflightValues([v]);
    if checked.Err? {
      if HasObject(v) {
        ObjectIsUntyped(ty, v, h);
      }
      return Err(checked.error);
    }
    var size := Measure(ty, v, 0, h);
    if size.Err? {
      return Err(size.error);
    }
    if IsWordKind(ty.kind) {
      WordOf(ty, v, h);
      return PrimitiveWord(ty.kind, v, h);
    }
    var sponge := new Sponge();
    Indexed(ty, v, false, sponge, h);
    assert [] + IndexedBytes(ty, v, false, h) == IndexedBytes(ty, v, false, h);
    return Ok(h.digest(sponge.absorbed));
  }

  lemma {:induction false} WordOf(ty: AbiType, v: Json, h: Hasher)
    requires ty.Valid() && IsWordKind(ty.kind) && Typed(ty, v, h)
    ensures PrimitiveWord(ty.kind, v, h) == Ok(Topic(ty, v, h))
  {
  }

  // ---------------------------------------------------------------- logs

  /** Succeeds exactly when all arguments together are encodable. */
  method EncodeLog(e: Event, values: seq<Json>, h: Hasher) returns (r: Result<(seq<seq<byte>>, seq<byte>), AbiError>)
    requires e.Valid()
    ensures r.Ok? <==> Encodable(e.inputs, values, h)
    ensures r.Ok? ==> r.value == (LogTopics(e, values, h), LogData(e, values, h))
  {
    hide Encodable, Topic, EncSeq, Admissible, Pick;
    var valid := Validate(e.inputs, values, h);
    if valid.Err? {
      return Err(valid.error);
    }
    EncodableArity(e.inputs, values, h);
    ghost var all := AllTopics(e, values, h);
    var topics, types: seq<AbiType>, data: seq<Json>, i := First(e), [], [], 0;
    PickSteps(e.indexed, e.inputs, 0);
    PickSteps(e.indexed, values, 0);
    PickSteps(e.indexed, all, 0);
    while i < |e.inputs|
      invariant 0 <= i <= |e.inputs| && topics == First(e) + Pick(e.indexed, true, all, i)
      invariant types == Pick(e.indexed, false, e.inputs, i) && data == Pick(e.indexed, false, values, i)
    {
      PickSteps(e.indexed, e.inputs, i + 1);
      PickSteps(e.indexed, values, i + 1);
      PickSteps(e.indexed, all, i + 1);
      if e.indexed[i] {
        ArgumentIsAdmissible(e.inputs, values, i, h);
        var topic := IndexedEventTopic(e.inputs[i], values[i], h);
        topics := topics + [topic.value];
      } else {
        types, data := types + [e.inputs[i]], data + [values[i]];
      }
      i := i + 1;
    }
    DataIsEncodable(e, values, h);
    var bytes := Encode(types, data, h);
    return Ok((topics, bytes.value));
  }

  lemma {:induction false} ArgumentIsAdmissible(types: seq<AbiType>, values: seq<Json>, i: nat, h: Hasher)
    requires Fields(types).Valid() && Encodable(types, values, h) && i < |types|
    ensures |values| == |types| && types[i].Valid() && Admissible(types[i], values[i], h)
  {
    hide Typed, Enc, EncSeq, NodesUpTo, TextUpTo, Nodes, TextSize, WithinDepth;
    EntryIsEncodable(types, values, i, h);
  }

  lemma {:induction false} PickSteps<T>(flags: seq<bool>, xs: seq<T>, n: nat)
    requires n <= |flags| && n <= |xs|
    ensures n == 0 ==> Pick(flags, true, xs, n) == [] && Pick(flags, false, xs, n) == []
    ensures n > 0 && flags[n - 1] ==>
            Pick(flags, true, xs, n) == Pick(flags, true, xs, n - 1) + [xs[n - 1]]
            && Pick(flags, false, xs, n) == Pick(flags, false, xs, n - 1)
    ensures n > 0 && !flags[n - 1] ==>
            Pick(flags, false, xs, n) == Pick(flags, false, xs, n - 1) + [xs[n - 1]]
            && Pick(flags, true, xs, n) == Pick(flags, true, xs, n - 1)
  {
  }

  lemma {:induction false} SlotErrorsStop(e: Event, topics: seq<seq<byte>>, decoded: seq<Json>, i: nat, n: nat,
          h: Hasher)
    requires e.Valid() && i <= n <= |e.inputs| && SlotsUpTo(e, topics, decoded, i, h).Err?
    ensures SlotsUpTo(e, topics, decoded, n, h) == SlotsUpTo(e, topics, decoded, i, h)
    decreases n
  {
    hide SlotOf;
    if i == n {
    } else {
      SlotErrorsStop(e, topics, decoded, i, n - 1, h);
    }
  }

  method DecodeLogs(e: Event, topics: seq<seq<byte>>, data: seq<byte>, h: Hasher)
    returns (r: Result<seq<Slot>, AbiError>)
    requires e.Valid()
    ensures r == DecodeLog(e, topics, data, h)
  {
    hide Decode, Pick;
    var expected, types, i := |First(e)|, [], 0;
    PickSteps(e.indexed, e.inputs, 0);
    while i < |e.inputs|
      invariant 0 <= i <= |e.inputs| && expected == |First(e)| + Count(e.indexed, true, i)
        && types == Pick(e.indexed, false, e.inputs, i)
    {
      PickSteps(e.indexed, e.inputs, i + 1);
      if e.indexed[i] {
        expected := expected + 1;
      } else {
        types := types + [e.inputs[i]];
      }
      i := i + 1;
    }
    if |topics| != expected || (!e.anonymous && topics[0] != e.topic) {
      return Err(Selector);
    }
    DataTypesValid(e);
    var decoded := DecodeValues(types, data, h);
    if decoded.Err? {
      return Err(decoded.error);
    }
    r := FillSlots(e, topics, decoded.value, h);
  }

  lemma {:induction false} PickValid(flags: seq<bool>, types: seq<AbiType>, n: nat)
    requires |flags| == |types| && n <= |types| && Fields(types).Valid()
    ensures Fields(Pick(flags, false, types, n)).Valid()
  {
    if n == 0 {
    } else {
      PickValid(flags, types, n - 1);
    }
  }

  lemma {:induction false} DataTypesValid(e: Event)
    requires e.Valid()
    ensures Fields(DataTypes(e)).Valid() && forall i :: 0 <= i < |e.inputs| ==> e.inputs[i].Valid()
  {
    PickValid(e.indexed, e.inputs, |e.inputs|);
  }

  method FillSlots(e: Event, topics: seq<seq<byte>>, decoded: seq<Json>, h: Hasher)
    returns (r: Result<seq<Slot>, AbiError>)
    requires e.Valid() && |topics| == Count(e.indexed, true, |e.indexed|) + |First(e)|
    ensures r == SlotsUpTo(e, topics, decoded, |e.inputs|, h)
  {
    hide SlotOf;
    var result: seq<Slot>, topic, next, i := [], |First(e)|, 0, 0;
    while i < |e.inputs|
      invariant 0 <= i <= |e.inputs| && SlotsUpTo(e, topics, decoded, i, h) == Ok(result)
      invariant topic == |First(e)| + Count(e.indexed, true, i) && next == Count(e.indexed, false, i)
    {
      var slot := FillSlot(e, topics, decoded, i, topic, next, h);
      if slot.Err? {
        SlotErrorsStop(e, topics, decoded, i + 1, |e.inputs|, h);
        return Err(slot.error);
      }
      result := result + [slot.value];
      if e.indexed[i] {
        topic := topic + 1;
      } else {
        next := next + 1;
      }
      i := i + 1;
    }
    return Ok(result);
  }

  method FillSlot(e: Event, topics: seq<seq<byte>>, decoded: seq<Json>, i: nat, topic: nat, next: nat, h: Hasher)
    returns (r: Result<Slot, AbiError>)
    requires e.Valid() && |topics| == Count(e.indexed, true, |e.indexed|) + |First(e)| && i < |e.inputs|
    requires topic == |First(e)| + Count(e.indexed, true, i) && next == Count(e.indexed, false, i)
    ensures r == SlotOf(e, topics, decoded, i, h)
  {
    hide Decode;
    DataTypesValid(e);
    CountGrows(e.indexed, true, i + 1, |e.indexed|);
    if !e.indexed[i] {
      return if next >= |decoded| then Err(Encoding) else Ok(FullValue(decoded[next]));
    }
    if !IsWordKind(e.inputs[i].kind) {
      return Ok(IndexedHash(topics[topic]));
    }
    var word := DecodeValues([e.inputs[i]], topics[topic], h);
    if word.Err? {
      return Err(word.error);
    }
    return if word.value == [] then Err(Encoding) else Ok(FullValue(word.value[0]));
  }

  // ---------------------------------------------------------------- filters

  function Probes(f: FilterValue): seq<Json> {
    match f
    case AnyValue => []
    case Exactly(v) => [v]
    case OneOf(vs) => vs
  }

  /** All values the first `n` filters ask for, with their types. */
  function Asked(filters: seq<FilterValue>, n: nat): seq<Json>
    requires n <= |filters|
  {
    if n == 0 then [] else Asked(filters, n - 1) + Probes(filters[n - 1])
  }

  function AskedTypes(e: Event, filters: seq<FilterValue>, n: nat): (ts: seq<AbiType>)
    requires n <= |filters| <= |e.inputs|
    ensures |ts| == |Asked(filters, n)|
  {
    if n == 0 then [] else AskedTypes(e, filters, n - 1) + seq(|Probes(filters[n - 1])|, _ => e.inputs[n - 1])
  }

  predicate Shaped(e: Event, filters: seq<FilterValue>, n: nat) {
    && n <= |filters| <= |e.inputs| == |e.indexed|
    && forall i :: 0 <= i < n ==> (e.indexed[i] || filters[i].AnyValue?) && (filters[i].OneOf? ==>
      1 <= |filters[i].values| <= MAX_FILTER_ALTERNATIVES)
  }

  function SizeUpTo(ts: seq<AbiType>, vs: seq<Json>, n: nat, h: Hasher): nat
    requires n <= |ts| == |vs|
  {
    if n == 0 then 0 else SizeUpTo(ts, vs, n - 1, h) + |EncSeq(Fields([ts[n - 1]]), [vs[n - 1]], h)|
  }

  /** All alternatives share one node, text and byte budget. */
  predicate Affordable(ts: seq<AbiType>, vs: seq<Json>, h: Hasher)
    requires |ts| == |vs|
  {
    && NodesUpTo(vs, |vs|) <= MAX_VALUE_NODES && TextUpTo(vs, |vs|) <= MAX_DATA_BYTES && AllWithinDepth(vs, 0)
    && (forall k :: 0 <= k < |vs| ==> Encodable([ts[k]], [vs[k]], h))
    && SizeUpTo(ts, vs, |vs|, h) <= MAX_DATA_BYTES
  }

  lemma {:induction false} AskedAreTyped(e: Event, filters: seq<FilterValue>, n: nat, h: Hasher)
    requires n <= |filters| <= |e.inputs|
    requires forall k :: 0 <= k < |Asked(filters, n)| ==>
            Admissible(AskedTypes(e, filters, n)[k], Asked(filters, n)[k], h)
    ensures forall i, k :: 0 <= i < n && 0 <= k < |Probes(filters[i])| ==>
            Admissible(e.inputs[i], Probes(filters[i])[k], h)
  {
    hide Admissible, Probes;
    if n == 0 {
    } else {
      var front, last := Asked(filters, n - 1), Probes(filters[n - 1]);
      forall k | 0 <= k < |front| ensures Admissible(AskedTypes(e, filters, n - 1)[k], front[k], h) {
        assert Asked(filters, n)[k] == front[k];
      }
      AskedAreTyped(e, filters, n - 1, h);
      forall k | 0 <= k < |last| ensures Admissible(e.inputs[n - 1], last[k], h) {
        assert Asked(filters, n)[|front| + k] == last[k];
      }
    }
  }

  lemma {:induction false} SingleIsAdmissible(ty: AbiType, v: Json, h: Hasher)
    requires ty.Valid() && Encodable([ty], [v], h)
    ensures Admissible(ty, v, h)
  {
    hide Typed, Enc, EncSeq, NodesUpTo, TextUpTo, Nodes, TextSize, WithinDepth;
    assert Fields([ty]).Valid();
    EntryIsEncodable([ty], [v], 0, h);
  }

  lemma {:induction false} AskedTypesValid(e: Event, filters: seq<FilterValue>, n: nat)
    requires e.Valid() && n <= |filters| <= |e.inputs|
    ensures forall k :: 0 <= k < |Asked(filters, n)| ==> AskedTypes(e, filters, n)[k].Valid()
  {
    hide Asked;
    if n == 0 {
    } else {
      AskedTypesValid(e, filters, n - 1);
    }
  }

  /** Collects every value the filters ask for, refusing restrictions on fields that are not indexed. */
  method Gather(e: Event, filters: seq<FilterValue>) returns (r: Result<(seq<AbiType>, seq<Json>), AbiError>)
    requires e.Valid()
    ensures r.Ok? <==> Shaped(e, filters, |filters|)
    ensures r.Ok? ==> r.value == (AskedTypes(e, filters, |filters|), Asked(filters, |filters|))
  {
    if |filters| > |e.inputs| {
      return Err(Value);
    }
    var types: seq<AbiType>, values: seq<Json>, i := [], [], 0;
    while i < |filters|
      invariant 0 <= i <= |filters| && Shaped(e, filters, i)
      invariant types == AskedTypes(e, filters, i) && values == Asked(filters, i)
    {
      if !e.indexed[i] && !filters[i].AnyValue? {
        return Err(Value);
      }
      match filters[i] {
        case AnyValue =>
        case Exactly(v) =>
          types, values := types + seq(1, _ => e.inputs[i]), values + [v];
        case OneOf(vs) =>
          if vs == [] {
            return Err(Value);
          }
          if |vs| > MAX_FILTER_ALTERNATIVES {
            return Err(Limit);
          }
          types, values := types + seq(|vs|, _ => e.inputs[i]), values + vs;
      }
      i := i + 1;
    }
    return Ok((types, values));
  }

  lemma {:induction false} SizeGrows(ts: seq<AbiType>, vs: seq<Json>, m: nat, n: nat, h: Hasher)
    requires m <= n <= |ts| == |vs|
    ensures SizeUpTo(ts, vs, m, h) <= SizeUpTo(ts, vs, n, h)
    decreases n
  {
    if m == n {
    } else {
      SizeGrows(ts, vs, m, n - 1, h);
    }
  }

  lemma {:induction false} ObjectIsUnaffordable(ts: seq<AbiType>, vs: seq<Json>, h: Hasher)
    requires |ts| == |vs| && AnyObject(vs)
    ensures !Affordable(ts, vs, h)
  {
    hide Typed, HasObject, EncSeq, NodesUpTo, TextUpTo, AllWithinDepth, SizeUpTo;
    var k :| 0 <= k < |vs| && HasObject(vs[k]);
    ObjectIsUntyped(ts[k], vs[k], h);
    if Encodable([ts[k]], [vs[k]], h) {
      EntryTyped(Fields([ts[k]]), [vs[k]], 0, h);
    }
  }

  /** Checks all asked values against the shared budgets. */
  method Afford(types: seq<AbiType>, values: seq<Json>, h: Hasher) returns (r: Result<(), AbiError>)
    requires |types| == |values| && forall k :: 0 <= k < |types| ==> types[k].Valid()
    ensures r.Ok? <==> Affordable(types, values, h)
  {
    hide Encodable, AnyObject, NodesUpTo, TextUpTo, AllWithinDepth, EncSeq;
    var checked := PreflightValues(values);
    if checked.Err? {
      if AnyObject(values) {
        ObjectIsUnaffordable(types, values, h);
      }
      return checked;
    }
    var size, i := 0, 0;
    while i < |values|
      invariant 0 <= i <= |values| && size == SizeUpTo(types, values, i, h) <= MAX_DATA_BYTES
      invariant forall k :: 0 <= k < i ==> Encodable([types[k]], [values[k]], h)
    {
      assert Fields([types[i]]).Valid();
      var one := Validate([types[i]], [values[i]], h);
      if one.Err? {
        return Err(one.error);
      }
      size := size + one.value;
      if size > MAX_DATA_BYTES {
        SizeGrows(types, values, i + 1, |values|, h);
        return Err(Limit);
      }
      i := i + 1;
    }
    return Ok(());
  }

  predicate AllAdmissible(ty: AbiType, vs: seq<Json>, h: Hasher) {
    forall k :: 0 <= k < |vs| ==> Admissible(ty, vs[k], h)
  }

  method FilterTopicOf(ty: AbiType, f: FilterValue, h: Hasher) returns (t: FilterTopic)
    requires ty.Valid() && AllAdmissible(ty, Probes(f), h)
    ensures t == EncodeFilter(ty, f, h)
  {
    hide Admissible, Topic;
    match f
    case AnyValue => return AnyTopic;
    case Exactly(v) =>
      assert Admissible(ty, Probes(f)[0], h);
      var topic := IndexedEventTopic(ty, v, h);
      return OneTopic(topic.value);
    case OneOf(vs) =>
      var topics, i := [], 0;
      while i < |vs|
        invariant 0 <= i <= |vs| && topics == TopicsOf(ty, vs, h)[..i]
      {
        var topic := IndexedEventTopic(ty, vs[i], h);
        topics := topics + [topic.value];
        i := i + 1;
      }
      return Alternatives(topics);
  }

  method EncodeFilterTopics(e: Event, filters: seq<FilterValue>, h: Hasher)
    returns (r: Result<seq<FilterTopic>, AbiError>)
    requires e.Valid()
    ensures r.Ok? <==>
            Shaped(e, filters, |filters|)
            && Affordable(AskedTypes(e, filters, |filters|), Asked(filters, |filters|), h)
    ensures r.Ok? ==> GoodFilters(e, filters, h) && r.value == Trim(FilterTopics(e, filters, h))
  {
    hide Affordable, EncodeFilter, AllAdmissible, Pick, Trim, Asked, AskedTypes;
    var gathered := Gather(e, filters);
    if gathered.Err? {
      return Err(gathered.error);
    }
    AskedTypesValid(e, filters, |filters|);
    var afforded := Afford(gathered.value.0, gathered.value.1, h);
    if afforded.Err? {
      return Err(afforded.error);
    }
    DataTypesValid(e);
    FiltersAreAdmissible(e, filters, h);
    ghost var all := AllFilterTopics(e, filters, h);
    PickSteps(e.indexed, all, 0);
    var topics, i := FirstFilter(e), 0;
    while i < |filters|
      invariant 0 <= i <= |filters| && topics == FirstFilter(e) + Pick(e.indexed, true, all, i)
    {
      PickSteps(e.indexed, all, i + 1);
      if e.indexed[i] {
        var topic := FilterTopicOf(e.inputs[i], filters[i], h);
        topics := topics + [topic];
      }
      i := i + 1;
    }
    var trimmed := DropWildcards(topics);
    return Ok(trimmed);
  }

  method DropWildcards(topics: seq<FilterTopic>) returns (trimmed: seq<FilterTopic>)
    ensures trimmed == Trim(topics)
  {
    trimmed := topics;
    while trimmed != [] && trimmed[|trimmed| - 1] == AnyTopic
      invariant Trim(trimmed) == Trim(topics)
    {
      trimmed := trimmed[..|trimmed| - 1];
    }
  }

  lemma {:induction false} FiltersAreAdmissible(e: Event, filters: seq<FilterValue>, h: Hasher)
    requires e.Valid() && Shaped(e, filters, |filters|)
            && Affordable(AskedTypes(e, filters, |filters|), Asked(filters, |filters|), h)
    ensures GoodFilters(e, filters, h) && forall i :: 0 <= i < |filters| ==>
            AllAdmissible(e.inputs[i], Probes(filters[i]), h)
  {
    hide Encodable, Admissible, Asked, AskedTypes, NodesUpTo, TextUpTo, AllWithinDepth, SizeUpTo;
    var ts, vs := AskedTypes(e, filters, |filters|), Asked(filters, |filters|);
    AskedTypesValid(e, filters, |filters|);
    forall k | 0 <= k < |vs| ensures Admissible(ts[k], vs[k], h) {
      SingleIsAdmissible(ts[k], vs[k], h);
    }
    AskedAreTyped(e, filters, |filters|, h);
    forall i | 0 <= i < |filters| ensures WellTyped(e.inputs[i], filters[i], h) {
      ProbesAreTyped(e.inputs[i], filters[i], h);
    }
  }

  lemma {:induction false} ProbesAreTyped(ty: AbiType, f: FilterValue, h: Hasher)
    requires AllAdmissible(ty, Probes(f), h)
    ensures WellTyped(ty, f, h)
  {
    hide Typed, Enc, Nodes, TextSize, WithinDepth;
    if f.Exactly? {
      assert Admissible(ty, Probes(f)[0], h);
    }
    if f.OneOf? {
      forall k | 0 <= k < |f.values| ensures Typed(ty, f.values[k], h) {
        assert Admissible(ty, Probes(f)[k], h);
      }
    }
  }
}
