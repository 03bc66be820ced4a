/** Event filters (workflows.rs): typed filters encoded as topic positions, and the logs they match. */
module AbiFilters {
  import opened ByteStrings
  import opened AbiTypes
  import opened AbiText
  import opened AbiEncoding
  import opened AbiEvents

  const MAX_FILTER_ALTERNATIVES: nat := 128

  datatype FilterValue = AnyValue | Exactly(value: Json) | OneOf(values: seq<Json>)
  datatype FilterTopic = AnyTopic | OneTopic(topic: seq<byte>) | Alternatives(topics: seq<seq<byte>>)

  function TopicsOf(ty: AbiType, values: seq<Json>, h: Hasher): (ts: seq<seq<byte>>)
    ensures |ts| == |values|
  {
    seq(|values|, i requires 0 <= i < |values| => Topic(ty, values[i], h))
  }

  function EncodeFilter(ty: AbiType, f: FilterValue, h: Hasher): FilterTopic {
    match f
    case AnyValue => AnyTopic
    case Exactly(v) => OneTopic(Topic(ty, v, h))
    case OneOf(vs) => Alternatives(TopicsOf(ty, vs, h))
  }

  function AllFilterTopics(e: Event, filters: seq<FilterValue>, h: Hasher): (ts: seq<FilterTopic>)
    requires |filters| <= |e.inputs|
    ensures |ts| == |filters|
  {
    seq(|filters|, i requires 0 <= i < |filters| => EncodeFilter(e.inputs[i], filters[i], h))
  }

  function FirstFilter(e: Event): seq<FilterTopic> {
    if e.anonymous then [] else [OneTopic(e.topic)]
  }

  /** The topic positions before trailing wildcards are dropped. */
  function FilterTopics(e: Event, filters: seq<FilterValue>, h: Hasher): seq<FilterTopic>
    requires e.Valid() && |filters| <= |e.inputs|
  {
    FirstFilter(e) + Pick(e.indexed, true, AllFilterTopics(e, filters, h), |filters|)
  }

  function Trim(ts: seq<FilterTopic>): seq<FilterTopic> {
    if ts == [] || ts[|ts| - 1] != AnyTopic then ts else Trim(ts[..|ts| - 1])
  }

  /** How a node matches a log against a filter: position by position, extra topics unrestricted. */
  predicate TopicMatches(f: FilterTopic, topic: seq<byte>) {
    match f
    case AnyTopic => true
    case OneTopic(t) => t == topic
    case Alternatives(ts) => topic in ts
  }

  predicate Matches(filter: seq<FilterTopic>, topics: seq<seq<byte>>) {
    |filter| <= |topics| && forall i :: 0 <= i < |filter| ==> TopicMatches(filter[i], topics[i])
  }

  /** The value is one the filter asks for, whatever spelling either uses. */
  predicate Wanted(ty: AbiType, f: FilterValue, v: Json, h: Hasher) {
    match f
    case AnyValue => true
    case Exactly(w) => Canonical(ty, w, h) == Canonical(ty, v, h)
    case OneOf(ws) => exists k :: 0 <= k < |ws| && Canonical(ty, ws[k], h) == Canonical(ty, v, h)
  }

  predicate Satisfies(e: Event, filters: seq<FilterValue>, values: seq<Json>, h: Hasher) {
    && |filters| <= |e.inputs| == |values|
    && forall i :: 0 <= i < |filters| ==> Wanted(e.inputs[i], filters[i], values[i], h)
  }

  predicate WellTyped(ty: AbiType, f: FilterValue, h: Hasher) {
    match f
    case AnyValue => true
    case Exactly(w) => Typed(ty, w, h)
    case OneOf(ws) => forall k :: 0 <= k < |ws| ==> Typed(ty, ws[k], h)
  }

  /** Only indexed fields are restricted, and by values of their type. */
  predicate GoodFilters(e: Event, filters: seq<FilterValue>, h: Hasher) {
    && |filters| <= |e.inputs| == |e.indexed|
    && forall i :: 0 <= i < |filters| ==>
      (e.indexed[i] || filters[i].AnyValue?) && WellTyped(e.inputs[i], filters[i], h)
  }

  // ---------------------------------------------------------------- trimming

  /** Dropping trailing wildcards does not change which long enough logs match. */
  lemma {:induction false} TrimKeepsMatches(filter: seq<FilterTopic>, topics: seq<seq<byte>>)
    requires |filter| <= |topics|
    ensures Matches(Trim(filter), topics) <==> Matches(filter, topics)
    decreases |filter|
  {
    if filter != [] && filter[|filter| - 1] == AnyTopic {
      TrimKeepsMatches(filter[..|filter| - 1], topics);
    }
  }

  // ---------------------------------------------------------------- matching

  lemma {:induction false} PickFrom<T>(flags: seq<bool>, xs: seq<T>, n: nat, j: nat) returns (i: nat)
    requires n <= |flags| && n <= |xs| && j < |Pick(flags, true, xs, n)|
    ensures i < n && flags[i] && Count(flags, true, i) == j && Pick(flags, true, xs, n)[j] == xs[i]
  {
    if j == |Pick(flags, true, xs, n - 1)| {
      i := n - 1;
    } else {
      i := PickFrom(flags, xs, n - 1, j);
    }
  }

  lemma {:induction false} WantedMatches(ty: AbiType, f: FilterValue, v: Json, h: Hasher)
    requires Typed(ty, v, h) && WellTyped(ty, f, h) && Wanted(ty, f, v, h)
    ensures TopicMatches(EncodeFilter(ty, f, h), Topic(ty, v, h))
  {
    hide Typed, Canonical, Topic;
    match f
    case AnyValue =>
    case Exactly(w) => TopicCanonical(ty, w, v, h);
    case OneOf(ws) =>
      var k :| 0 <= k < |ws| && Canonical(ty, ws[k], h) == Canonical(ty, v, h);
      TopicCanonical(ty, ws[k], v, h);
      assert TopicsOf(ty, ws, h)[k] == Topic(ty, v, h);
  }

  lemma {:induction false} MatchIsWanted(ty: AbiType, f: FilterValue, v: Json, h: Hasher)
    requires IsWordKind(ty.kind) && Typed(ty, v, h) && WellTyped(ty, f, h)
            && TopicMatches(EncodeFilter(ty, f, h), Topic(ty, v, h))
    ensures Wanted(ty, f, v, h)
  {
    hide Typed, Canonical, Topic;
    match f
    case AnyValue =>
    case Exactly(w) => WordTopicInjective(ty, w, v, h);
    case OneOf(ws) =>
      var k :| 0 <= k < |ws| && TopicsOf(ty, ws, h)[k] == Topic(ty, v, h);
      WordTopicInjective(ty, ws[k], v, h);
  }

  lemma {:induction false} CountGrows(flags: seq<bool>, want: bool, m: nat, n: nat)
    requires m <= n <= |flags|
    ensures Count(flags, want, m) <= Count(flags, want, n)
    decreases n
  {
    if m == n {
    } else {
      CountGrows(flags, want, m, n - 1);
    }
  }

  /** Position of field `i` in the filter and in the log. */
  lemma {:induction false} Positions(e: Event, filters: seq<FilterValue>, values: seq<Json>, i: nat, h: Hasher)
    requires e.Valid() && |filters| <= |e.inputs| == |values| && i < |filters| && e.indexed[i]
    ensures var at := |First(e)| + Count(e.indexed, true, i);
            && at < |FilterTopics(e, filters, h)| <= |LogTopics(e, values, h)|
            && FilterTopics(e, filters, h)[at] == EncodeFilter(e.inputs[i], filters[i], h)
            && LogTopics(e, values, h)[at] == Topic(e.inputs[i], values[i], h)
  {
    hide EncodeFilter, Topic, Count;
    PickAt(e.indexed, true, AllFilterTopics(e, filters, h), |filters|, i);
    PickAt(e.indexed, true, AllTopics(e, values, h), |e.inputs|, i);
    CountGrows(e.indexed, true, |filters|, |e.inputs|);
  }

  /** Every log whose values satisfy a filter matches its encoded topics. */
  lemma {:induction false} SatisfyingLogsMatch(e: Event, filters: seq<FilterValue>, values: seq<Json>, h: Hasher)
    requires e.Valid() && TypedSeq(Fields(e.inputs), values, h) && GoodFilters(e, filters, h)
            && Satisfies(e, filters, values, h)
    ensures Matches(Trim(FilterTopics(e, filters, h)), LogTopics(e, values, h))
  {
    hide EncodeFilter, Topic, Typed, Wanted, WellTyped, TopicMatches;
    var fs, ts := FilterTopics(e, filters, h), LogTopics(e, values, h);
    CountGrows(e.indexed, true, |filters|, |e.inputs|);
    forall j | 0 <= j < |fs| ensures TopicMatches(fs[j], ts[j]) {
      if j < |First(e)| {
        assert TopicMatches(OneTopic(e.topic), e.topic) by { SameTopic(e.topic); }
      } else {
        var i := PickFrom(e.indexed, AllFilterTopics(e, filters, h), |filters|, j - |First(e)|);
        Positions(e, filters, values, i, h);
        assert Fields(e.inputs).Get(i) == e.inputs[i];
        WantedMatches(e.inputs[i], filters[i], values[i], h);
      }
    }
    TrimKeepsMatches(fs, ts);
  }

  lemma {:induction false} SameTopic(topic: seq<byte>)
    ensures TopicMatches(OneTopic(topic), topic)
  {
  }

  /** When only single-word fields are restricted, nothing else matches. */
  lemma {:induction false} MatchingLogsSatisfy(e: Event, filters: seq<FilterValue>, values: seq<Json>, h: Hasher)
    requires e.Valid() && TypedSeq(Fields(e.inputs), values, h) && GoodFilters(e, filters, h)
    requires forall i :: 0 <= i < |filters| && !filters[i].AnyValue? ==> IsWordKind(e.inputs[i].kind)
    requires Matches(Trim(FilterTopics(e, filters, h)), LogTopics(e, values, h))
    ensures Satisfies(e, filters, values, h)
  {
    hide EncodeFilter, Topic, Typed, Wanted, WellTyped, TopicMatches;
    var fs, ts := FilterTopics(e, filters, h), LogTopics(e, values, h);
    CountGrows(e.indexed, true, |filters|, |e.inputs|);
    TrimKeepsMatches(fs, ts);
    forall i | 0 <= i < |filters| ensures Wanted(e.inputs[i], filters[i], values[i], h) {
      if filters[i].AnyValue? {
        AnyIsWanted(e.inputs[i], values[i], h);
      } else {
        Positions(e, filters, values, i, h);
        assert Fields(e.inputs).Get(i) == e.inputs[i];
        MatchIsWanted(e.inputs[i], filters[i], values[i], h);
      }
    }
  }

  lemma {:induction false} AnyIsWanted(ty: AbiType, v: Json, h: Hasher)
    ensures Wanted(ty, AnyValue, v, h)
  {
  }
}
