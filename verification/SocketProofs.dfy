/** Every step of the session keeps its invariants, and what that means over whole runs. */
module SocketProofs {
  import opened ByteStrings
  import opened SocketState

  // ---------------------------------------------------------------- queues and counters

  lemma {:induction false} QueueBytesAppend(q: seq<Frame>, f: Frame)
    ensures QueueBytes(q + [f]) == QueueBytes(q) + f.size
  {
    if q == [] {
    } else {
      QueueBytesAppend(q[1..], f);
      assert (q + [f])[1..] == q[1..] + [f];
    }
  }

  lemma {:induction false} TotalRemove(subs: map<SubId, Sub>, id: SubId)
    requires id in subs
    ensures Total(subs) == QueueBytes(subs[id].queue) + Total(subs - {id})
    decreases |subs|
  {
    hide QueueBytes;
    var k :| k in subs && Total(subs) == QueueBytes(subs[k].queue) + Total(subs - {k});
    if k != id {
      TotalRemove(subs - {k}, id);
      TotalRemove(subs - {id}, k);
      assert subs - {k} - {id} == subs - {id} - {k};
    }
  }

  lemma {:induction false} TotalUpdate(subs: map<SubId, Sub>, id: SubId, sub: Sub)
    ensures Total(subs[id := sub]) == Total(subs - {id}) + QueueBytes(sub.queue)
  {
    hide Total, QueueBytes;
    TotalRemove(subs[id := sub], id);
    assert subs[id := sub] - {id} == subs - {id};
  }

  lemma {:induction false} TotalOfEmptyQueues(subs: map<SubId, Sub>)
    requires forall id :: id in subs ==> subs[id].queue == []
    ensures Total(subs) == 0
    decreases |subs|
  {
    if subs == map[] {
    } else {
      var k :| k in subs;
      TotalRemove(subs, k);
      TotalOfEmptyQueues(subs - {k});
    }
  }

  lemma {:induction false} SubscribesRemove(pending: map<nat, Kind>, id: nat)
    requires id in pending
    ensures |Subscribes(pending - {id})| == |Subscribes(pending)| - (if pending[id].Subscribe? then 1 else 0)
    ensures |pending - {id}| == |pending| - 1
  {
    assert Subscribes(pending - {id}) == Subscribes(pending) - {id};
    assert (pending - {id}).Keys == pending.Keys - {id};
  }

  lemma {:induction false} SubscribesEnter(pending: map<nat, Kind>, id: nat, kind: Kind)
    requires id !in pending
    ensures |Subscribes(pending[id := kind])| == |Subscribes(pending)| + (if kind.Subscribe? then 1 else 0)
    ensures |pending[id := kind]| == |pending| + 1
  {
    var more := pending[id := kind];
    assert more - {id} == pending;
    SubscribesRemove(more, id);
  }

  // ---------------------------------------------------------------- one subscription at a time

  /** Replacing one subscription by a good one keeps the invariant when the byte count follows. */
  lemma {:induction false} PutKeepsInv(s: State, id: SubId, sub: Sub, log: Log, queued: int)
    requires Inv(s) && id in s.subs && GoodSub(s.limits, sub) && Tracks(log, sub)
    requires queued == s.queuedBytes - QueueBytes(s.subs[id].queue) + QueueBytes(sub.queue)
            && queued <= s.limits.maxQueuedBytes
    requires s.closed ==> sub.error.Some?
    ensures Inv(s.(subs := s.subs[id := sub], log := s.log[id := log], queuedBytes := queued))
  {
    hide Total, QueueBytes, GoodSub, Tracks, GoodPending;
    TotalRemove(s.subs, id);
    TotalUpdate(s.subs, id, sub);
    assert s.subs[id := sub].Keys == s.subs.Keys;
  }

  lemma {:induction false} EndedIsGood(limits: Limits, sub: Sub, log: Log, fault: Fault)
    requires GoodSub(limits, sub) && Tracks(log, sub)
    ensures GoodSub(limits, EndedSub(sub, fault)) && Tracks(log, EndedSub(sub, fault))
    ensures EndedSub(sub, fault).queue == [] && EndedSub(sub, fault).error.Some?
    ensures sub.error.Some? ==> EndedSub(sub, fault) == sub
  {
  }

  lemma {:induction false} EndSubKeepsInv(s: State, id: SubId, fault: Fault)
    requires Inv(s) && id in s.subs
    ensures Inv(EndSub(s, id, fault))
  {
    hide Total, GoodSub, Tracks, EndedSub;
    EndedIsGood(s.limits, s.subs[id], s.log[id], fault);
    TotalRemove(s.subs, id);
    PutKeepsInv(s, id, EndedSub(s.subs[id], fault), s.log[id], EndSub(s, id, fault).queuedBytes);
    assert s.log[id := s.log[id]] == s.log;
  }

  /** The four ways a notification can arrive. */
  lemma {:induction false} ReceivedIsTracked(limits: Limits, sub: Sub, log: Log, f: Frame)
    requires GoodSub(limits, sub) && Tracks(log, sub)
    ensures var more := log.(received := log.received + [f]);
            && (sub.error.Some? ==> Tracks(more, sub))
            && Tracks(more, EndedSub(sub, Lagged))
            && (sub.error.None? && sub.waiter ==>
                  GoodSub(limits, sub.(waiter := false, delivery := Some(f)))
                    && Tracks(more, sub.(waiter := false, delivery := Some(f))))
            && (sub.error.None? && !sub.waiter && |sub.queue| < limits.maxQueue ==>
                  GoodSub(limits, sub.(queue := sub.queue + [f])) && Tracks(more, sub.(queue := sub.queue + [f])))
  {
  }

  lemma {:induction false} HandedIsTracked(limits: Limits, sub: Sub, log: Log)
    requires GoodSub(limits, sub) && Tracks(log, sub) && sub.error.None? && !sub.waiter && sub.delivery.None?
            && sub.queue != []
    ensures var next := sub.(queue := sub.queue[1..], delivery := Some(sub.queue[0]));
            GoodSub(limits, next) && Tracks(log, next)
  {
    assert sub.queue == [sub.queue[0]] + sub.queue[1..];
  }

  lemma {:induction false} AcknowledgedIsTracked(limits: Limits, sub: Sub, log: Log)
    requires GoodSub(limits, sub) && Tracks(log, sub) && sub.error.None? && sub.delivery.Some?
    ensures var next, more := sub.(delivery := None), log.(acknowledged := log.acknowledged + [sub.delivery.value]);
            GoodSub(limits, next) && Tracks(more, next)
  {
  }

  lemma {:induction false} WaitingIsGood(limits: Limits, sub: Sub, log: Log, waiter: bool)
    requires GoodSub(limits, sub) && Tracks(log, sub) && sub.error.None? && sub.delivery.None? && sub.queue == []
    ensures GoodSub(limits, sub.(waiter := waiter)) && Tracks(log, sub.(waiter := waiter))
  {
  }

  lemma {:induction false} WaiterIsIdle(limits: Limits, sub: Sub)
    requires GoodSub(limits, sub) && sub.waiter
    ensures sub.error.None? && sub.delivery.None? && sub.queue == []
  {
  }

  lemma {:induction false} NotifyKeepsInv(s: State, id: SubId, f: Frame)
    requires Inv(s) && !s.closed
    ensures Inv(Notify(s, id, f))
  {
    hide Total, QueueBytes, GoodSub, Tracks, EndedSub, GoodPending;
    if id in s.subs {
      var sub, log := s.subs[id], s.log[id].(received := s.log[id].received + [f]);
      ReceivedIsTracked(s.limits, sub, s.log[id], f);
      EndedIsGood(s.limits, sub, s.log[id], Lagged);
      QueueBytesAppend(sub.queue, f);
      if sub.error.Some? {
        PutKeepsInv(s, id, sub, log, s.queuedBytes);
        assert s.subs[id := sub] == s.subs;
      } else if sub.waiter {
        PutKeepsInv(s, id, sub.(waiter := false, delivery := Some(f)), log, s.queuedBytes);
      } else if |sub.queue| >= s.limits.maxQueue || f.size > s.limits.maxQueuedBytes - s.queuedBytes {
        TotalRemove(s.subs, id);
        assert QueueBytes([]) == 0 by { QueueBytesEmpty(); }
        PutKeepsInv(s, id, EndedSub(sub, Lagged), log, s.queuedBytes - QueueBytes(sub.queue));
      } else {
        PutKeepsInv(s, id, sub.(queue := sub.queue + [f]), log, s.queuedBytes + f.size);
      }
    }
  }

  lemma {:induction false} QueueBytesShift(q: seq<Frame>)
    requires q != []
    ensures QueueBytes(q) == q[0].size + QueueBytes(q[1..])
  {
  }

  lemma {:induction false} QueueBytesEmpty()
    ensures QueueBytes([]) == 0
  {
  }

  lemma {:induction false} NextKeepsInv(s: State, id: SubId, aborted: bool)
    requires Inv(s)
    ensures Inv(Next(s, id, aborted))
  {
    hide Total, GoodSub, Tracks, QueueBytes, GoodPending;
    match NextOf(s, id, aborted)
    case Refused(_) =>
    case Handed(f) =>
      var sub := s.subs[id];
      HandedIsTracked(s.limits, sub, s.log[id]);
      QueueBytesShift(sub.queue);
      PutKeepsInv(s, id, sub.(queue := sub.queue[1..], delivery := Some(f)), s.log[id], s.queuedBytes - f.size);
      assert s.log[id := s.log[id]] == s.log;
    case Waiting =>
      WaitingIsGood(s.limits, s.subs[id], s.log[id], true);
      PutKeepsInv(s, id, s.subs[id].(waiter := true), s.log[id], s.queuedBytes);
      assert s.log[id := s.log[id]] == s.log;
  }

  lemma {:induction false} StopWaitingKeepsInv(s: State, id: SubId)
    requires Inv(s)
    ensures Inv(StopWaiting(s, id))
  {
    hide Total, QueueBytes, GoodSub, Tracks, GoodPending;
    if id in s.subs && s.subs[id].waiter {
      WaiterIsIdle(s.limits, s.subs[id]);
      WaitingIsGood(s.limits, s.subs[id], s.log[id], false);
      PutKeepsInv(s, id, s.subs[id].(waiter := false), s.log[id], s.queuedBytes);
      assert s.log[id := s.log[id]] == s.log;
    }
  }

  lemma {:induction false} AcknowledgeKeepsInv(s: State, id: SubId)
    requires Inv(s)
    ensures Inv(Acknowledge(s, id))
  {
    hide Total, QueueBytes, GoodSub, Tracks, GoodPending;
    if id in s.subs && s.subs[id].error.None? && s.subs[id].delivery.Some? {
      AcknowledgedIsTracked(s.limits, s.subs[id], s.log[id]);
      PutKeepsInv(s, id, s.subs[id].(delivery := None), Acknowledge(s, id).log[id], s.queuedBytes);
    }
  }

  lemma {:induction false} ForgetKeepsInv(s: State, id: SubId)
    requires Inv(s)
    ensures Inv(Forget(s, id))
  {
    hide Total, QueueBytes, GoodSub, Tracks, GoodPending, EndedSub;
    if id in s.subs {
      var t := EndSub(s, id, SubscriptionClosed);
      EndSubKeepsInv(s, id, SubscriptionClosed);
      TotalRemove(t.subs, id);
      assert QueueBytes(t.subs[id].queue)
        == 0 by { EndedIsGood(s.limits, s.subs[id], s.log[id], SubscriptionClosed); QueueBytesEmpty(); }
      assert (t.subs - {id}).Keys == t.subs.Keys - {id};
    }
  }

  // ---------------------------------------------------------------- requests and closing

  lemma {:induction false} CloseKeepsInv(s: State, fault: Fault)
    requires Inv(s)
    ensures Inv(Close(s, fault)) && Close(s, fault).closed
  {
    hide Total, QueueBytes, GoodSub, Tracks, EndedSub, FailAll;
    if !s.closed {
      var t := Close(s, fault);
      forall id | id in s.subs
        ensures GoodSub(s.limits, t.subs[id]) && Tracks(s.log[id], t.subs[id]) && t.subs[id].queue == []
                && t.subs[id].error.Some?
      {
        EndedIsGood(s.limits, s.subs[id], s.log[id], fault);
      }
      TotalOfEmptyQueues(t.subs);
      assert t.subs.Keys == s.subs.Keys;
      assert Subscribes(map[]) == {};
    }
  }

  lemma {:induction false} RemoveKeepsInv(s: State, id: nat)
    requires Inv(s) && id in s.pending
    ensures Inv(Remove(s, id)) && !Remove(s, id).closed
  {
    hide Total, GoodSubs;
    SubscribesRemove(s.pending, id);
  }

  lemma {:induction false} FinishKeepsInv(s: State, id: nat, r: Outcome)
    requires Inv(s) && id in s.pending
    ensures Inv(Finish(s, id, r))
  {
    hide Total, GoodSubs, GoodPending, Close;
    var t := Remove(s, id);
    RemoveKeepsInv(s, id);
    if s.pending[id].Subscribe? && r.Failed? {
      CloseKeepsInv(t, r.fault);
    } else {
      CloseKeepsInv(Record(t, id, r), Closed);
    }
  }

  lemma {:induction false} RegisterKeepsSubs(s: State, id: SubId)
    requires Inv(s) && id !in s.subs
    ensures var t := Register(s, id);
            GoodSubs(t.limits, t.subs, t.log) && Total(t.subs) == Total(s.subs) && |t.subs| == |s.subs| + 1
  {
    hide Total, QueueBytes, GoodPending, GoodSub, Tracks;
    var blank := Sub([], false, None, None);
    assert GoodSub(s.limits, blank) && Tracks(Log([], []), blank) by { BlankIsGood(s.limits); }
    TotalUpdate(s.subs, id, blank);
    assert s.subs - {id} == s.subs;
    assert QueueBytes([]) == 0 by { QueueBytesEmpty(); }
    assert s.subs[id := blank].Keys == s.subs.Keys + {id};
  }

  lemma {:induction false} BlankIsGood(limits: Limits)
    ensures GoodSub(limits, Sub([], false, None, None)) && Tracks(Log([], []), Sub([], false, None, None))
  {
  }

  /** A registered subscription takes the place its pending subscribe had reserved. */
  lemma {:induction false} RegisterAndFinishKeepsInv(s: State, sub: SubId, id: nat, r: Outcome)
    requires Inv(s) && id in s.pending && s.pending[id].Subscribe? && r.Answer? && sub !in s.subs
    ensures Inv(Finish(Register(s, sub), id, r))
  {
    hide Total, QueueBytes, Subscribes, GoodSubs;
    RegisterKeepsSubs(s, sub);
    SubscribesRemove(s.pending, id);
  }

  lemma {:induction false} OnMessageKeepsInv(s: State, f: Frame)
    requires Inv(s)
    ensures Inv(OnMessage(s, f))
  {
    hide Inv, Close, Finish, Notify, Register, IsSubId;
    if !s.closed {
      CloseKeepsInv(s, ResponseSize);
      CloseKeepsInv(s, Invalid);
      if f.body.Notice? {
        NotifyKeepsInv(s, f.body.sub, f);
      } else if f.body.Reply? && f.body.id in s.pending {
        FinishKeepsInv(s, f.body.id, Answer(f));
        if f.body.result.Text? && f.body.result.text !in s.subs && s.pending[f.body.id].Subscribe? {
          RegisterAndFinishKeepsInv(s, f.body.result.text, f.body.id, Answer(f));
        }
      }
    }
  }

  lemma {:induction false} EnterKeepsInv(s: State, id: nat, kind: Kind)
    requires Inv(s) && !s.closed && 0 < id < s.nextId && id !in s.pending && |s.pending| < s.limits.maxFlight
    requires kind.Subscribe? ==> |s.subs| + s.pendingSubs < s.limits.maxSubs
    ensures Inv(Enter(s, id, kind))
  {
    hide Total, GoodSubs;
    SubscribesEnter(s.pending, id, kind);
  }

  lemma {:induction false} RequestKeepsInv(s: State, id: nat, size: nat, kind: Kind, env: Env)
    requires Inv(s)
    ensures Inv(Request(s, id, size, kind, env))
  {
    hide Close, Finish, Enter, GoodPending, GoodSubs, Total;
    var t := s.(requested := s.requested + {id});
    assert Inv(t) by { SamePending(s, t); }
    match Refusal(s, id, size, kind, env)
    case Some(fault) =>
      assert Inv(Record(t, id, Failed(fault))) by { SamePending(s, Record(t, id, Failed(fault))); }
      CloseKeepsInv(Record(t, id, Failed(fault)), Closed);
    case None =>
      EnterKeepsInv(t, id, kind);
      if !env.sends {
        EnterPends(t, id, kind);
        FinishKeepsInv(Enter(t, id, kind), id, Failed(Closed));
        CloseKeepsInv(Finish(Enter(t, id, kind), id, Failed(Closed)), Closed);
      }
  }

  lemma {:induction false} EnterPends(s: State, id: nat, kind: Kind)
    ensures id in Enter(s, id, kind).pending
  {
  }

  /** The invariant does not look at which requests were made and how they ended. */
  lemma {:induction false} SamePending(s: State, t: State)
    requires Inv(s) && t == s.(requested := t.requested, outcomes := t.outcomes)
    ensures Inv(t)
  {
    hide Total, GoodSubs;
  }

  lemma {:induction false} TakeIdKeepsInv(s: State)
    requires Inv(s)
    ensures Inv(TakeId(s))
  {
    hide Total, GoodSubs;
  }

  lemma {:induction false} SendKeepsInv(s: State, size: nat, kind: Kind, env: Env)
    requires Inv(s)
    ensures Inv(Send(s, size, kind, env))
  {
    hide Inv, Request;
    if HasId(s) {
      TakeIdKeepsInv(s);
      RequestKeepsInv(TakeId(s), s.nextId, size, kind, env);
    }
  }

  lemma {:induction false} DiscardKeepsInv(s: State, id: SubId, size: nat, env: Env)
    requires Inv(s)
    ensures Inv(Discard(s, id, size, env))
  {
    hide Inv, Forget, Send, Close;
    var t := Forget(s, id);
    ForgetKeepsInv(s, id);
    CloseKeepsInv(t, Closed);
    SendKeepsInv(t, size, Cleanup, env);
  }

  /** Every step keeps the counters, bounds, queue discipline and the accounting of notifications. */
  lemma {:induction false} StepKeepsInv(s: State, e: Event)
    requires Inv(s)
    ensures Inv(Step(s, e))
  {
    hide Inv, OnMessage, Send, Finish, Next, StopWaiting, EndSub, Acknowledge, Forget, Discard, Close, TakeId;
    match e
    case Incoming(f) => OnMessageKeepsInv(s, f);
    case Sends(size, subscribe, env) => SendKeepsInv(s, size, if subscribe then Subscribe else Plain, env);
    case WastesId => TakeIdKeepsInv(s);
    case RequestEnds(id, fault) => if id in s.pending { FinishKeepsInv(s, id, Failed(fault)); }
    case NextCall(id, aborted) => NextKeepsInv(s, id, aborted);
    case WaitEnds(id) => StopWaitingKeepsInv(s, id);
    case Abandons(id) => if id in s.subs { EndSubKeepsInv(s, id, Lagged); }
    case Acknowledges(id) => AcknowledgeKeepsInv(s, id);
    case Forgets(id) => ForgetKeepsInv(s, id);
    case Discards(id, size, env) => DiscardKeepsInv(s, id, size, env);
    case Closes(fault) => CloseKeepsInv(s, fault);
  }

  // ---------------------------------------------------------------- requests settle once

  /** Outcomes already recorded stay as they are. */
  ghost predicate Extends(a: map<nat, seq<Outcome>>, b: map<nat, seq<Outcome>>) {
    forall id :: id in a ==> id in b && b[id] == a[id]
  }

  lemma {:induction false} LedgerFailAll(nextId: nat, pending: set<nat>, requested: set<nat>, outcomes: map<nat,
          seq<Outcome>>, fault: Fault)
    requires Ledger(nextId, pending, requested, outcomes)
    ensures Ledger(nextId, {}, requested, FailAll(outcomes, pending, fault))
            && Extends(outcomes, FailAll(outcomes, pending, fault))
  {
    assert FailAll(outcomes, pending, fault).Keys == outcomes.Keys + pending;
  }

  lemma {:induction false} LedgerSettle(nextId: nat, pending: set<nat>, requested: set<nat>, outcomes: map<nat,
          seq<Outcome>>, id: nat, r: Outcome)
    requires Ledger(nextId, pending, requested, outcomes) && id in pending && Own(id, r)
    ensures Ledger(nextId, pending - {id}, requested, Settled(outcomes, id, r))
    ensures Extends(outcomes, Settled(outcomes, id, r)) && id in Settled(outcomes, id, r)
            && Settled(outcomes, id, r)[id] == [r]
  {
    assert Settled(outcomes, id, r).Keys == outcomes.Keys + {id};
  }

  /** An id that was never used makes a new request. */
  lemma {:induction false} LedgerRequest(nextId: nat, pending: set<nat>, requested: set<nat>, outcomes: map<nat,
          seq<Outcome>>, id: nat)
    requires Ledger(nextId, pending, requested, outcomes) && 0 < id < nextId && id !in requested
    ensures Ledger(nextId, pending + {id}, requested + {id}, outcomes)
    ensures pending + {id} - {id} == pending
  {
    assert id !in pending;
  }

  lemma {:induction false} SettleThenFail(outcomes: map<nat, seq<Outcome>>, ids: set<nat>, id: nat, r: Outcome,
          fault: Fault)
    requires id !in ids
    ensures Settled(FailAll(outcomes, ids, fault), id, r) == FailAll(Settled(outcomes, id, r), ids, fault)
  {
    var a, b := Settled(FailAll(outcomes, ids, fault), id, r), FailAll(Settled(outcomes, id, r), ids, fault);
    forall k | k in a ensures k in b && a[k] == b[k] {
      assert OutcomesOf(outcomes, k) + [] == OutcomesOf(outcomes, k);
    }
    assert a.Keys == b.Keys;
  }

  lemma {:induction false} ExtendsTransitive(a: map<nat, seq<Outcome>>, b: map<nat, seq<Outcome>>, c: map<nat,
          seq<Outcome>>)
    requires Extends(a, b) && Extends(b, c)
    ensures Extends(a, c)
  {
  }

  lemma {:induction false} CloseKeepsOnce(s: State, fault: Fault)
    requires Once(s)
    ensures Once(Close(s, fault)) && Extends(s.outcomes, Close(s, fault).outcomes)
  {
    hide Ledger, FailAll, EndedSub;
    LedgerFailAll(s.nextId, s.pending.Keys, s.requested, s.outcomes, fault);
    assert !s.closed ==> Close(s, fault).pending.Keys == {};
    if s.closed { assert Extends(s.outcomes, s.outcomes); }
  }

  lemma {:induction false} FinishKeepsOnce(s: State, id: nat, r: Outcome)
    requires Once(s) && id in s.pending && Own(id, r)
    ensures Once(Finish(s, id, r)) && Extends(s.outcomes, Finish(s, id, r).outcomes)
    ensures id in Finish(s, id, r).outcomes && Finish(s, id, r).outcomes[id] == [r]
  {
    hide Ledger, Own, Confirms, FailAll, Settled, EndedSub, Extends;
    var t := Record(Remove(s, id), id, r);
    assert t.pending.Keys == s.pending.Keys - {id};
    LedgerSettle(s.nextId, s.pending.Keys, s.requested, s.outcomes, id, r);
    var fault := if s.pending[id].Subscribe? && r.Failed? then r.fault else Closed;
    CloseKeepsOnce(t, fault);
    ExtendsTransitive(s.outcomes, t.outcomes, Close(t, fault).outcomes);
    SettleThenFail(s.outcomes, t.pending.Keys, id, r, fault);
    assert id in Close(t, fault).outcomes
      && Close(t, fault).outcomes[id] == [r] by { ExtendsAt(t, Close(t, fault), id, r); }
  }

  lemma {:induction false} ExtendsAt(s: State, t: State, id: nat, r: Outcome)
    requires Extends(s.outcomes, t.outcomes) && id in s.outcomes && s.outcomes[id] == [r]
    ensures id in t.outcomes && t.outcomes[id] == [r]
  {
  }

  lemma {:induction false} OnMessageKeepsOnce(s: State, f: Frame)
    requires Once(s)
    ensures Once(OnMessage(s, f)) && Extends(s.outcomes, OnMessage(s, f).outcomes)
  {
    hide Once, Extends, Close, Finish, IsSubId, EndedSub;
    SameIsOnce(s, s);
    CloseKeepsOnce(s, ResponseSize);
    CloseKeepsOnce(s, Invalid);
    match f.body
    case Garbage =>
    case Notice(id) => SameIsOnce(s, Notify(s, id, f));
    case Reply(id, _, result) =>
      if id in s.pending {
        FinishKeepsOnce(s, id, Answer(f));
        if result.Text? {
          SameIsOnce(s, Register(s, result.text));
          FinishKeepsOnce(Register(s, result.text), id, Answer(f));
        }
      }
  }

  lemma {:induction false} SameIsOnce(s: State, t: State)
    requires Once(s) && t.pending == s.pending && t.requested == s.requested && t.outcomes == s.outcomes
            && t.nextId >= s.nextId
    ensures Once(t) && Extends(s.outcomes, t.outcomes)
  {
  }

  /** A request with an id that was never used settles once, or is pending. */
  lemma {:induction false} RequestKeepsOnce(s: State, id: nat, size: nat, kind: Kind, env: Env)
    requires Once(s) && 0 < id < s.nextId && id !in s.requested
    ensures Once(Request(s, id, size, kind, env)) && Extends(s.outcomes, Request(s, id, size, kind, env).outcomes)
  {
    hide Close, Finish, Ledger, Extends, Settled, Refusal;
    var t := s.(requested := s.requested + {id});
    LedgerRequest(s.nextId, s.pending.Keys, s.requested, s.outcomes, id);
    match Refusal(s, id, size, kind, env)
    case Some(fault) =>
      var u := Record(t, id, Failed(fault));
      LedgerSettle(s.nextId, s.pending.Keys + {id}, t.requested, s.outcomes, id, Failed(fault));
      CloseKeepsOnce(u, Closed);
      ExtendsTransitive(s.outcomes, u.outcomes, Close(u, Closed).outcomes);
    case None =>
      var u := Enter(t, id, kind);
      assert u.pending.Keys == s.pending.Keys + {id};
      assert Extends(s.outcomes, s.outcomes) by { SameIsOnce(s, s); }
      if !env.sends {
        var v := Finish(u, id, Failed(Closed));
        FinishKeepsOnce(u, id, Failed(Closed));
        CloseKeepsOnce(v, Closed);
        ExtendsTransitive(s.outcomes, v.outcomes, Close(v, Closed).outcomes);
      }
  }

  lemma {:induction false} SendKeepsOnce(s: State, size: nat, kind: Kind, env: Env)
    requires Once(s)
    ensures Once(Send(s, size, kind, env)) && Extends(s.outcomes, Send(s, size, kind, env).outcomes)
  {
    hide Request;
    SameIsOnce(s, s);
    SameIsOnce(s, TakeId(s));
    if HasId(s) {
      RequestKeepsOnce(TakeId(s), s.nextId, size, kind, env);
    }
  }

  lemma {:induction false} DiscardKeepsOnce(s: State, id: SubId, size: nat, env: Env)
    requires Once(s)
    ensures Once(Discard(s, id, size, env)) && Extends(s.outcomes, Discard(s, id, size, env).outcomes)
  {
    hide Once, Extends, Close, Send, EndedSub;
    var t := Forget(s, id);
    SameIsOnce(s, t);
    CloseKeepsOnce(t, Closed);
    SendKeepsOnce(t, size, Cleanup, env);
  }

  lemma {:induction false} StepKeepsOnce(s: State, e: Event)
    requires Once(s)
    ensures Once(Step(s, e)) && Extends(s.outcomes, Step(s, e).outcomes)
  {
    hide Once, Extends, OnMessage, Send, Finish, Discard, Close, EndedSub;
    match e
    case Incoming(f) => OnMessageKeepsOnce(s, f);
    case Sends(size, subscribe, env) => SendKeepsOnce(s, size, if subscribe then Subscribe else Plain, env);
    case RequestEnds(id, fault) =>
      if id in s.pending {
        FinishKeepsOnce(s, id, Failed(fault));
      } else {
        SameIsOnce(s, s);
      }
    case Discards(id, size, env) => DiscardKeepsOnce(s, id, size, env);
    case Closes(fault) => CloseKeepsOnce(s, fault);
    case _ => SameIsOnce(s, Step(s, e));
  }
}
