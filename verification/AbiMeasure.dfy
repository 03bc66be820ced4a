/** The checks before encoding: an explicit-stack preflight over one budget, and a measuring pass
    (codec.rs). */
module AbiMeasure {
  import opened ByteStrings
  import opened AbiTypes
  import opened AbiText
  import opened AbiEncoding
  import opened AbiDecoding

  // ---------------------------------------------------------------- the shared budget

  class Meter {
    var nodes: nat
    var bytes: nat

    constructor ()
      ensures View() == Budget(0, 0)
    {
      nodes, bytes := 0, 0;
    }

    function View(): Budget
      reads this
    {
      Budget(nodes, bytes)
    }

    method Node(depth: nat) returns (r: Result<(), AbiError>)
      modifies this
      ensures match SpendNode(old(View()), depth) {
                case Ok(b) => r == Ok(()) && View() == b
                case Err(e) => r == Err(e)
              }
    {
      nodes := nodes + 1;
      if nodes > MAX_VALUE_NODES || depth > MAX_DEPTH {
        return Err(Limit);
      }
      return Ok(());
    }

    method Text(n: nat) returns (r: Result<(), AbiError>)
      modifies this
      ensures match SpendText(old(View()), n) {
                case Ok(b) => r == Ok(()) && View() == b
                case Err(e) => r == Err(e)
              }
    {
      bytes := bytes + n;
      if bytes > MAX_DATA_BYTES {
        return Err(Limit);
      }
      return Ok(());
    }
  }

  // ---------------------------------------------------------------- preflight

  lemma {:induction false} ResourcesConcat(a: seq<Json>, b: seq<Json>, n: nat)
    requires n <= |b|
    ensures NodesUpTo(a + b, |a| + n) == NodesUpTo(a, |a|) + NodesUpTo(b, n)
    ensures TextUpTo(a + b, |a| + n) == TextUpTo(a, |a|) + TextUpTo(b, n)
  {
    hide Nodes, TextSize;
    if n == 0 {
      ResourcePrefix(a + b, a, |a|);
    } else {
      ResourcesConcat(a, b, n - 1);
    }
  }

  /** Pending nodes lie within the depth limit, each at its own depth. */
  predicate PendingWithinDepth(pending: seq<Json>, depths: seq<nat>)
    requires |pending| == |depths|
  {
    forall i :: 0 <= i < |pending| ==> WithinDepth(pending[i], depths[i])
  }

  predicate AnyObject(vs: seq<Json>) {
    exists i :: 0 <= i < |vs| && HasObject(vs[i])
  }

  /** Replacing the last pending node by its children, each one deeper, changes neither verdict. */
  lemma {:induction false} Replace(pending: seq<Json>, depths: seq<nat>, v: Json, depth: nat, items: seq<Json>)
    requires |pending| == |depths| && depth <= MAX_DEPTH && !v.Object?
    requires items == if v.List? then v.items else []
    ensures PendingWithinDepth(pending + [v], depths + [depth])
            <==> PendingWithinDepth(pending + items, depths + seq(|items|, _ => depth + 1))
    ensures AnyObject(pending + [v]) <==> AnyObject(pending + items)
  {
    var p0, d0 := pending + [v], depths + [depth];
    var p1, d1 := pending + items, depths + seq(|items|, _ => depth + 1);
    assert forall i :: 0 <= i < |pending| ==> p0[i] == p1[i] == pending[i] && d0[i] == d1[i];
    assert p0[|pending|] == v && d0[|pending|] == depth;
    assert forall i :: 0 <= i < |items| ==> p1[|pending| + i] == items[i] && d1[|pending| + i] == depth + 1;
    assert PendingWithinDepth(p0, d0) <==> PendingWithinDepth(pending, depths) && WithinDepth(v, depth);
    assert PendingWithinDepth(p1, d1) <==> PendingWithinDepth(pending, depths) && AllWithinDepth(items, depth + 1);
    assert AnyObject(p0) <==> AnyObject(pending) || HasObject(v);
    assert AnyObject(p1) <==> AnyObject(pending) || AnyObject(items);
  }

  /** What the stack still holds, plus what was charged, is what the values hold in all. */
  predicate Accounted(values: seq<Json>, pending: seq<Json>, depths: seq<nat>, b: Budget) {
    && |pending| == |depths|
    && b.nodes + NodesUpTo(pending, |pending|) == NodesUpTo(values, |values|)
    && b.bytes + TextUpTo(pending, |pending|) == TextUpTo(values, |values|)
    && (AllWithinDepth(values, 0) <==> PendingWithinDepth(pending, depths))
    && (AnyObject(values) <==> AnyObject(pending))
  }

  lemma {:induction false} StartWalk(values: seq<Json>)
    ensures Accounted(values, values, seq(|values|, _ => 0), Budget(0, 0))
    ensures |values| <= NodesUpTo(values, |values|)
  {
  }

  lemma {:induction false} Pop(values: seq<Json>, pending: seq<Json>, depths: seq<nat>, v: Json, depth: nat,
          items: seq<Json>, b: Budget)
    requires |pending| == |depths| && items == if v.List? then v.items else []
    requires Accounted(values, pending + [v], depths + [depth], b)
    ensures depth > MAX_DEPTH ==> !AllWithinDepth(values, 0)
    ensures v.Object? ==> AnyObject(values)
    ensures b.nodes + 1 + |pending| + |items| <= NodesUpTo(values, |values|)
    ensures v.String? ==> b.bytes + |v.text| <= TextUpTo(values, |values|)
    ensures depth <= MAX_DEPTH && !v.Object? ==>
              Accounted(values, pending + items, depths + seq(|items|, _ => depth + 1),
                        Budget(b.nodes + 1, b.bytes + if v.String? then |v.text| else 0))
    ensures NodesUpTo(pending + items, |pending + items|) < NodesUpTo(pending + [v], |pending + [v]|)
  {
    hide NodesUpTo, TextUpTo, PendingWithinDepth, AnyObject, AllWithinDepth;
    PopCost(pending, v, items);
    PopVerdict(pending, depths, v, depth);
    if depth <= MAX_DEPTH && !v.Object? {
      Replace(pending, depths, v, depth, items);
    }
  }

  lemma {:induction false} PopCost(pending: seq<Json>, v: Json, items: seq<Json>)
    requires items == if v.List? then v.items else []
    ensures var before, after := pending + [v], pending + items;
            && NodesUpTo(before, |before|) == 1 + NodesUpTo(after, |after|)
            && TextUpTo(before, |before|) == TextUpTo(after, |after|) + (if v.String? then |v.text| else 0)
            && |after| <= NodesUpTo(after, |after|)
  {
    ResourcesConcat(pending, [v], 1);
    ResourcesConcat(pending, items, |items|);
    assert NodesUpTo([v], 1) == NodesUpTo([v], 0) + Nodes(v) && TextUpTo([v], 1) == TextUpTo([v], 0) + TextSize(v);
  }

  lemma {:induction false} PopVerdict(pending: seq<Json>, depths: seq<nat>, v: Json, depth: nat)
    requires |pending| == |depths|
    ensures depth > MAX_DEPTH ==> !PendingWithinDepth(pending + [v], depths + [depth])
    ensures v.Object? ==> AnyObject(pending + [v])
  {
    assert (pending + [v])[|pending|] == v && (depths + [depth])[|pending|] == depth;
  }

  lemma {:induction false} EndWalk(values: seq<Json>, b: Budget)
    requires Accounted(values, [], [], b)
    ensures NodesUpTo(values, |values|) == b.nodes && TextUpTo(values, |values|) == b.bytes
    ensures AllWithinDepth(values, 0) && !AnyObject(values)
  {
  }

  /** Walk every value with an explicit stack and one budget. The answer does not depend on the
      order of the walk: it is a bound on the total node count, text and depth. */
  method PreflightValues(values: seq<Json>) returns (r: Result<(), AbiError>)
    ensures r.Ok? ==> NodesUpTo(values, |values|) <= MAX_VALUE_NODES
                      && TextUpTo(values, |values|) <= MAX_DATA_BYTES
                      && AllWithinDepth(values, 0) && !AnyObject(values)
    ensures r.Err? ==> r.error == Limit || r.error == Value
    ensures r == Err(Value) ==> AnyObject(values)
    ensures r == Err(Limit) ==> NodesUpTo(values, |values|) > MAX_VALUE_NODES
                                || TextUpTo(values, |values|) > MAX_DATA_BYTES
                                || !AllWithinDepth(values, 0)
  {
    hide NodesUpTo, TextUpTo, AllWithinDepth, AnyObject, Accounted;
    StartWalk(values);
    if |values| > MAX_VALUE_NODES {
      return Err(Limit);
    }
    var pending, depths := values, seq(|values|, _ => 0);
    var meter := new Meter();
    while pending != []
      invariant fresh(meter)
      invariant |pending| == |depths| && Accounted(values, pending, depths, meter.View())
      invariant meter.nodes <= MAX_VALUE_NODES && meter.bytes <= MAX_DATA_BYTES
      decreases NodesUpTo(pending, |pending|)
    {
      var v, depth := pending[|pending| - 1], depths[|depths| - 1];
      assert pending == pending[..|pending| - 1] + [v] && depths == depths[..|depths| - 1] + [depth];
      pending, depths := pending[..|pending| - 1], depths[..|depths| - 1];
      var items := if v.List? then v.items else [];
      Pop(values, pending, depths, v, depth, items, meter.View());
      var _ :- meter.Node(depth);
      match v {
        case String(text) =>
          var _ :- meter.Text(|text|);
        case List(items) =>
          if |items| > MAX_VALUE_NODES - meter.nodes || |pending| + |items| > MAX_VALUE_NODES {
            return Err(Limit);
          }
        case Object =>
          return Err(Value);
        case _ =>
      }
      pending, depths := pending + items, depths + seq(|items|, _ => depth + 1);
    }
    EndWalk(values, meter.View());
    return Ok(());
  }

  // ---------------------------------------------------------------- measuring

  /** The measured size is the length of the encoding; each error is explained. */
  predicate Measured(ty: AbiType, v: Json, depth: nat, h: Hasher, r: Result<nat, AbiError>) {
    match r
    case Ok(n) => Typed(ty, v, h) && WithinDepth(v, depth) && n == |Enc(ty, v, h)| <= MAX_DATA_BYTES
    case Err(e) =>
      || (e == Value && !Typed(ty, v, h))
      || (e == Limit && (!Typed(ty, v, h) || !WithinDepth(v, depth) || |Enc(ty, v, h)| > MAX_DATA_BYTES))
  }

  predicate MeasuredSeq(s: Sequence, vs: seq<Json>, depth: nat, h: Hasher, r: Result<nat, AbiError>) {
    match r
    case Ok(n) => TypedSeq(s, vs, h) && AllWithinDepth(vs, depth) && n == |EncSeq(s, vs, h)| <= MAX_DATA_BYTES
    case Err(e) =>
      || (e == Value && !TypedSeq(s, vs, h))
      || (e == Limit && (!TypedSeq(s, vs, h) || !AllWithinDepth(vs, depth) || |EncSeq(s, vs, h)| > MAX_DATA_BYTES))
  }

  method MeasureSequence(s: Sequence, vs: seq<Json>, depth: nat, h: Hasher) returns (r: Result<nat, AbiError>)
    requires s.Valid()
    ensures MeasuredSeq(s, vs, depth, h, r)
    decreases vs, 2
  {
    hide Enc, EncSeq, Typed, WithinDepth, Tails;
    if s.Len() != |vs| {
      return Err(Value);
    }
    if s.Head() > MAX_DATA_BYTES {
      MeasureTooLong(s, vs, 0, h);
      return Err(Limit);
    }
    var size := s.Head();
    assert Tails(s, vs, 0, h) == [] by {
      NoTails(s, vs, h);
    }
    for i := 0 to |vs|
      invariant TypedUpTo(s, vs, i, h) && forall j :: 0 <= j < i ==> WithinDepth(vs[j], depth)
      invariant size == s.Head() + |Tails(s, vs, i, h)| <= MAX_DATA_BYTES
    {
      var ty := s.Get(i);
      var m := Measure(ty, vs[i], depth, h);
      MeasureEntry(s, vs, i, depth, h, m);
      var n :- m;
      TailsNext(s, vs, i, h);
      if ty.dynamic {
        size := size + n;
        if size > MAX_DATA_BYTES {
          MeasureTooLong(s, vs, i + 1, h);
          return Err(Limit);
        }
      }
    }
    EncSeqLength(s, vs, h);
    return Ok(size);
  }

  lemma {:induction false} NoTails(s: Sequence, vs: seq<Json>, h: Hasher)
    ensures Tails(s, vs, 0, h) == []
  {
  }

  lemma {:induction false} TailsNext(s: Sequence, vs: seq<Json>, i: nat, h: Hasher)
    requires i < |vs| && i < s.Len()
    ensures Tails(s, vs, i + 1, h) == if s.Get(i).dynamic then Tails(s, vs, i, h) + Enc(s.Get(i), vs[i], h)
            else Tails(s, vs, i, h)
  {
    hide Enc;
  }

  /** A prefix that is already too long makes the whole too long. */
  lemma {:induction false} MeasureTooLong(s: Sequence, vs: seq<Json>, n: nat, h: Hasher)
    requires s.Valid() && n <= |vs| == s.Len() && s.Head() + |Tails(s, vs, n, h)| > MAX_DATA_BYTES
    ensures TypedSeq(s, vs, h) ==> |EncSeq(s, vs, h)| > MAX_DATA_BYTES
  {
    hide Enc, EncSeq, Typed, Tails;
    if TypedSeq(s, vs, h) {
      EncSeqLength(s, vs, h);
      if n < |vs| {
        TailsGrow(s, vs, n, |vs|, h);
      }
    }
  }

  /** What goes wrong with an entry goes wrong with the sequence. */
  lemma {:induction false} MeasureEntry(s: Sequence, vs: seq<Json>, i: nat, depth: nat, h: Hasher, m: Result<nat,
          AbiError>)
    requires s.Valid() && i < |vs| == s.Len() && Measured(s.Get(i), vs[i], depth, h, m)
    ensures m.Err? ==> MeasuredSeq(s, vs, depth, h, Err(m.error))
  {
    hide Enc, EncSeq, Typed, WithinDepth, Tails;
    var ty := s.Get(i);
    if m.Err? && TypedSeq(s, vs, h) {
      EntryTyped(s, vs, i, h);
      if AllWithinDepth(vs, depth) {
        EntryShort(s, vs, i, h);
      }
    }
  }

  lemma {:induction false} EntryTyped(s: Sequence, vs: seq<Json>, i: nat, h: Hasher)
    requires i < |vs| && TypedSeq(s, vs, h)
    ensures Typed(s.Get(i), vs[i], h)
  {
    hide Typed;
  }

  lemma {:induction false} EntryShort(s: Sequence, vs: seq<Json>, i: nat, h: Hasher)
    requires s.Valid() && i < |vs| && TypedSeq(s, vs, h)
    ensures |Enc(s.Get(i), vs[i], h)| <= Max(MAX_DATA_BYTES, |EncSeq(s, vs, h)|)
  {
    hide Enc, EncSeq, Typed, Tails;
    var ty := s.Get(i);
    EntryTyped(s, vs, i, h);
    EncSeqLength(s, vs, h);
    if ty.dynamic {
      TailsGrow(s, vs, i, |vs|, h);
    } else {
      StaticLength(ty, vs[i], h);
      HeadBound(ty);
    }
  }

  lemma {:induction false} HeadBound(ty: AbiType)
    requires ty.Valid()
    ensures ty.head <= MAX_DATA_BYTES
  {
  }

  method Measure(ty: AbiType, v: Json, depth: nat, h: Hasher) returns (r: Result<nat, AbiError>)
    requires ty.Valid()
    ensures Measured(ty, v, depth, h, r)
    decreases v, 0
  {
    hide EncSeq, TypedUpTo, PrimitiveWord, DecodeHex, Word;
    if depth > MAX_DEPTH {
      return Err(Limit);
    }
    match ty.kind {
      case Tuple(fields) =>
        if !v.List? {
          return Err(Value);
        }
        r := MeasureSequence(Fields(fields), v.items, depth + 1, h);
      case Array(child, length) =>
        if !v.List? || (length.Some? && length.value != |v.items|) {
          return Err(Value);
        }
        var size :- MeasureSequence(Repeat(child, |v.items|), v.items, depth + 1, h);
        r := Capped(size + if length.None? then 32 else 0);
      case Str =>
        if !v.String? {
          return Err(Value);
        }
        r := Capped(32 + Padded(|v.text|));
      case DynBytes =>
        HexIsText(v);
        var raw :- DecodeHex(v);
        r := Capped(32 + Padded(|raw|));
      case _ =>
        WordNotList(ty.kind, v, h);
        var w :- PrimitiveWord(ty.kind, v, h);
        r := Ok(32);
    }
  }

  lemma {:induction false} WordNotList(kind: Kind, v: Json, h: Hasher)
    requires PrimitiveWidth(kind)
    ensures PrimitiveWord(kind, v, h).Ok? ==> !v.List? && |PrimitiveWord(kind, v, h).value| == 32
    ensures PrimitiveWord(kind, v, h).Err? ==> PrimitiveWord(kind, v, h).error == Value
  {
  }
}
