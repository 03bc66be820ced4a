/** The session object itself: mutable maps, counters and flags updated step by step (socket.js),
    each entry point proved to have the effect its state-machine function describes. */
module SocketSession {
  import opened ByteStrings
  import opened SocketState
  import opened SocketProofs

  lemma {:induction false} EndKeepsTotal(s: State, id: SubId, fault: Fault)
    requires id in s.subs && GoodSub(s.limits, s.subs[id]) && s.queuedBytes == Total(s.subs)
    ensures EndSub(s, id, fault).queuedBytes == Total(EndSub(s, id, fault).subs)
  {
    hide Total;
    TotalRemove(s.subs, id);
    TotalUpdate(s.subs, id, EndedSub(s.subs[id], fault));
  }

  /** One more pending request failed by a closing session. */
  lemma {:induction false} FailOneMore(outcomes: map<nat, seq<Outcome>>, done: set<nat>, id: nat, fault: Fault)
    requires id !in done
    ensures Settled(FailAll(outcomes, done, fault), id, Failed(fault)) == FailAll(outcomes, done + {id}, fault)
  {
    var a, b := Settled(FailAll(outcomes, done, fault), id, Failed(fault)), FailAll(outcomes, done + {id}, fault);
    assert OutcomesOf(outcomes, id) + [] == OutcomesOf(outcomes, id);
    forall k | k in a ensures k in b && a[k] == b[k] {
    }
    assert a.Keys == b.Keys;
  }

  lemma {:induction false} FailNone(outcomes: map<nat, seq<Outcome>>, fault: Fault)
    ensures FailAll(outcomes, {}, fault) == outcomes
  {
    forall k | k in outcomes ensures FailAll(outcomes, {}, fault)[k] == outcomes[k] {
      assert outcomes[k] + [] == outcomes[k];
    }
  }

  class Session {
    const limits: Limits
    var closed: bool
    var nextId: nat
    var pending: map<nat, Kind>
    var pendingSubs: int
    var subs: map<SubId, Sub>
    var queuedBytes: int
    ghost var log: map<SubId, Log>
    ghost var requested: set<nat>
    ghost var outcomes: map<nat, seq<Outcome>>

    ghost function View(): State
      reads this
    {
      State(limits, closed, nextId, pending, pendingSubs, subs, queuedBytes, log, requested, outcomes)
    }

    ghost predicate Valid()
      reads this
    {
      Inv(View())
    }

    /** Every request made through the object is pending, or settled once with an outcome of its own. */
    ghost predicate Accounted()
      reads this
    {
      Once(View())
    }

    constructor (limits: Limits)
      ensures Valid() && Accounted() && View() == Initial(limits)
    {
      this.limits := limits;
      closed, nextId := false, 1;
      pending, pendingSubs, subs, queuedBytes := map[], 0, map[], 0;
      log, requested, outcomes := map[], {}, map[];
      new;
      assert Subscribes(map[]) == {};
    }

    /** Gives the bytes of a queue back, entry by entry. */
    method ClearQueue(queue: seq<Frame>)
      modifies `queuedBytes
      ensures queuedBytes == old(queuedBytes) - QueueBytes(queue)
    {
      var i := 0;
      while i < |queue|
        invariant 0 <= i <= |queue|
        invariant queuedBytes - QueueBytes(queue[i..]) == old(queuedBytes) - QueueBytes(queue)
      {
        assert queue[i..][1..] == queue[i + 1..];
        queuedBytes := queuedBytes - queue[i].size;
        i := i + 1;
      }
    }

    method End(id: SubId, fault: Fault)
      requires id in subs
      modifies `subs, `queuedBytes
      ensures View() == EndSub(old(View()), id, fault)
    {
      hide QueueBytes;
      var sub := subs[id].(delivery := None);
      if sub.error.None? {
        ClearQueue(sub.queue);
        sub := sub.(error := Some(fault), queue := []);
        if sub.waiter {
          sub := sub.(waiter := false);
        }
      }
      subs := subs[id := sub];
    }

    /** Settles a request; the failure of a subscribe or of a clean-up closes the session. */
    method Settle(id: nat, r: Outcome)
      requires id in pending && (closed || Valid() || (pending[id].Subscribe? && r.Answer?))
      modifies this
      ensures View() == Finish(old(View()), id, r)
      ensures old(Valid()) ==> Valid()
      ensures old(Accounted()) && Own(id, r) ==> Accounted() && id in outcomes && outcomes[id] == [r]
      decreases if closed then 0 else 1, 1
    {
      hide Inv, FailAll, EndedSub, Once, Own, Confirms;
      if Accounted() && Own(id, r) {
        FinishKeepsOnce(View(), id, r);
      }
      var kind := pending[id];
      if Valid() {
        RemoveKeepsInv(View(), id);
        FinishKeepsInv(View(), id, r);
      }
      pending := pending - {id};
      if kind.Subscribe? {
        pendingSubs := pendingSubs - 1;
      }
      if r.Failed? && kind.Subscribe? {
        Shut(r.fault);
        outcomes := Settled(outcomes, id, r);
      } else {
        outcomes := Settled(outcomes, id, r);
        if kind.Cleanup? && !Confirms(r) {
          if !closed {
            SamePending(Remove(old(View()), id), View());
          }
          Shut(Closed);
        }
      }
    }

    /** Closes the session: pending requests fail first, then every subscription ends. */
    method Shut(fault: Fault)
      requires closed || Valid()
      modifies this
      ensures View() == Close(old(View()), fault)
      ensures old(Valid()) ==> Valid()
      ensures old(Accounted()) ==> Accounted()
      decreases if closed then 0 else 1, 0
    {
      hide Inv, FailAll, EndedSub, Subscribes, Total, GoodSub, Once;
      if Accounted() {
        CloseKeepsOnce(View(), fault);
      }
      if closed {
        return;
      }
      CloseKeepsInv(View(), fault);
      Counters(View());
      closed := true;
      FailPending(fault);
      EndAll(fault);
    }

    /** The first half of closing: each pending request fails, and no failure closes a closed session again. */
    method FailPending(fault: Fault)
      requires closed && pendingSubs == |Subscribes(pending)|
      modifies this
      ensures View() == old(View()).(pending := map[], pendingSubs := 0,
                                     outcomes := FailAll(old(outcomes), old(pending).Keys, fault))
      decreases 0, 2
    {
      hide FailAll, EndedSub, Settled, Subscribes, Finish;
      ghost var s := View();
      FailNone(outcomes, fault);
      assert s.pending.Keys - pending.Keys == {};
      var rest := pending.Keys;
      while rest != {}
        invariant rest == pending.Keys <= s.pending.Keys
        invariant pendingSubs == |Subscribes(pending)|
        invariant View() == s.(pending := pending, pendingSubs := pendingSubs,
                               outcomes := FailAll(s.outcomes, s.pending.Keys - rest, fault))
        decreases rest
      {
        var id :| id in rest;
        FailOneMore(s.outcomes, s.pending.Keys - rest, id, fault);
        SubscribesRemove(pending, id);
        FailureWhenClosed(View(), id, fault);
        assert s.pending.Keys - (rest - {id}) == s.pending.Keys - rest + {id};
        Settle(id, Failed(fault));
        rest := rest - {id};
      }
      assert s.pending.Keys - {} == s.pending.Keys;
      NoSubscribes(pending);
    }

    /** The second half of closing: each subscription ends in error and gives its bytes back. */
    method EndAll(fault: Fault)
      requires queuedBytes == Total(subs) && forall id :: id in subs ==> GoodSub(limits, subs[id])
      modifies `subs, `queuedBytes
      ensures View() == old(View()).(subs := map id | id in old(subs) :: EndedSub(old(subs)[id], fault),
                                     queuedBytes := 0)
    {
      hide EndedSub, Total, GoodSub, QueueBytes;
      ghost var before := subs;
      var left := subs.Keys;
      while left != {}
        invariant left <= subs.Keys == before.Keys && queuedBytes == Total(subs)
        invariant forall id :: id in subs ==> subs[id] == if id in left then before[id] else EndedSub(before[id], fault)
        decreases left
      {
        var id :| id in left;
        EndKeepsTotal(View(), id, fault);
        End(id, fault);
        left := left - {id};
      }
      forall id | id in subs ensures subs[id].queue == [] {
        EndedHasNoQueue(limits, before[id], fault);
      }
      TotalOfEmptyQueues(subs);
    }

    method OnFrame(f: Frame)
      requires Valid()
      modifies this
      ensures Valid() && View() == OnMessage(old(View()), f)
      ensures old(Accounted()) ==> Accounted()
    {
      hide Inv, FailAll, EndedSub, IsSubId, Finish, Close, QueueBytes, Once;
      if Accounted() {
        OnMessageKeepsOnce(View(), f);
      }
      OnMessageKeepsInv(View(), f);
      if closed {
        return;
      }
      if f.size > limits.maxBytes {
        Shut(ResponseSize);
        return;
      }
      match f.body
      case Garbage => Shut(Invalid);
      case Notice(id) => OnNotice(id, f);
      case Reply(_, _, _) => OnReply(f);
    }

    method OnReply(f: Frame)
      requires Valid() && f.body.Reply?
      modifies this
      ensures View() == Answered(old(View()), f)
    {
      hide Inv, FailAll, EndedSub, IsSubId, Finish, Close;
      var id := f.body.id;
      if !(0 < id < nextId) {
        Shut(Invalid);
        return;
      }
      if id !in pending {
        return;
      }
      if pending[id].Subscribe? && !f.body.isError {
        if !f.body.result.Text? || !IsSubId(f.body.result.text) || f.body.result.text in subs {
          Shut(Invalid);
          return;
        }
        subs := subs[f.body.result.text := Sub([], false, None, None)];
        log := log[f.body.result.text := Log([], [])];
      }
      Settle(id, Answer(f));
    }

    method OnNotice(id: SubId, f: Frame)
      modifies `subs, `queuedBytes, `log
      ensures View() == Notify(old(View()), id, f)
    {
      hide EndedSub, QueueBytes;
      if id !in subs {
        return;
      }
      var sub := subs[id];
      log := log[id := LogOf(log, id).(received := LogOf(log, id).received + [f])];
      if sub.error.Some? {
        return;
      }
      if sub.waiter {
        subs := subs[id := sub.(waiter := false, delivery := Some(f))];
        return;
      }
      if |sub.queue| >= limits.maxQueue || f.size > limits.maxQueuedBytes - queuedBytes {
        End(id, Lagged);
        return;
      }
      subs := subs[id := sub.(queue := sub.queue + [f])];
      queuedBytes := queuedBytes + f.size;
    }

    method DrawId() returns (r: Result<nat, Fault>)
      requires Valid()
      modifies `nextId
      ensures Valid()
      ensures r.Ok? <==> HasId(old(View()))
      ensures r.Ok? ==> r.value == old(nextId) && View() == TakeId(old(View()))
      ensures r.Err? ==> View() == old(View()) && r.error == if closed then Closed else IdExhausted
      ensures old(Accounted()) ==> Accounted() && (r.Ok? ==> 0 < r.value < nextId && r.value !in requested)
    {
      hide Total, GoodSubs, Own;
      if closed {
        return Err(Closed);
      }
      if nextId > MAX_SAFE_INTEGER {
        return Err(IdExhausted);
      }
      nextId := nextId + 1;
      return Ok(nextId - 1);
    }

    /** `None` means the request is on its way and will settle later. */
    method Submit(id: nat, size: nat, kind: Kind, env: Env) returns (refused: Option<Fault>)
      requires Valid()
      modifies this
      ensures Valid() && View() == Request(old(View()), id, size, kind, env)
      ensures refused == Refusal(old(View()), id, size, kind, env)
      ensures old(Accounted()) && 0 < id < old(nextId) && id !in old(requested) ==> Accounted()
    {
      hide Inv, FailAll, EndedSub, Finish, Close, Settled, Refusal, Enter, Once;
      ghost var s := View();
      NewRequestIsAccounted(s, id, size, kind, env);
      RequestKeepsInv(s, id, size, kind, env);
      requested := requested + {id};
      SamePending(s, View());
      refused := Refuse(id, size, kind, env);
      SameRefusal(s, View(), id, size, kind, env);
      if refused.Some? {
        outcomes := Settled(outcomes, id, Failed(refused.value));
        SamePending(s, View());
        if kind.Cleanup? {
          Shut(Closed);
        }
        return;
      }
      EnterIsAllowed(View(), id, size, kind, env);
      AddPending(id, kind);
      if !env.sends {
        FinishKeepsInv(View(), id, Failed(Closed));
        Settle(id, Failed(Closed));
        Shut(Closed);
      }
    }

    method AddPending(id: nat, kind: Kind)
      modifies `pending, `pendingSubs
      ensures View() == Enter(old(View()), id, kind) && id in pending
    {
      pending := pending[id := kind];
      if kind.Subscribe? {
        pendingSubs := pendingSubs + 1;
      }
    }

    method Refuse(id: nat, size: nat, kind: Kind, env: Env) returns (refused: Option<Fault>)
      ensures refused == Refusal(View(), id, size, kind, env)
    {
      if closed {
        return Some(Closed);
      }
      if env.aborted {
        return Some(Cancelled);
      }
      if size > limits.maxRequest {
        return Some(RequestSize);
      }
      if size > limits.maxRequest * limits.maxFlight - env.buffered {
        return Some(Busy);
      }
      if |pending| >= limits.maxFlight || (kind.Subscribe? && |subs| + pendingSubs >= limits.maxSubs) {
        return Some(Busy);
      }
      if !(0 < id < nextId) || id in pending {
        return Some(Invalid);
      }
      return None;
    }

    method CallNext(id: SubId, aborted: bool) returns (r: NextResult)
      requires Valid()
      modifies `subs, `queuedBytes
      ensures Valid() && View() == Next(old(View()), id, aborted) && r == NextOf(old(View()), id, aborted)
      ensures r.Handed? ==> id in log && |log[id].acknowledged| < |log[id].received|
                            && r.frame == log[id].received[|log[id].acknowledged|]
      ensures old(Accounted()) ==> Accounted()
    {
      hide Inv, QueueBytes, Once;
      ghost var s := View();
      NextKeepsInv(s, id, aborted);
      if NextOf(s, id, aborted).Handed? {
        HandsOutTheNext(s, id, aborted);
      }
      if Accounted() {
        SameIsOnce(s, Next(s, id, aborted));
      }
      if closed {
        return Refused(Closed);
      }
      if id !in subs {
        return Refused(SubscriptionClosed);
      }
      var sub := subs[id];
      if sub.error.Some? {
        return Refused(sub.error.value);
      }
      if aborted {
        return Refused(Cancelled);
      }
      if sub.waiter || sub.delivery.Some? {
        return Refused(Busy);
      }
      if sub.queue != [] {
        var item := sub.queue[0];
        queuedBytes := queuedBytes - item.size;
        subs := subs[id := sub.(queue := sub.queue[1..], delivery := Some(item))];
        return Handed(item);
      }
      subs := subs[id := sub.(waiter := true)];
      return Waiting;
    }

    /** The caller of a waiting `CallNext` times out or goes away. */
    method StopWait(id: SubId)
      requires Valid()
      modifies `subs
      ensures Valid() && View() == StopWaiting(old(View()), id)
      ensures old(Accounted()) ==> Accounted()
    {
      hide Inv, Once;
      if Accounted() {
        SameIsOnce(View(), StopWaiting(View(), id));
      }
      StopWaitingKeepsInv(View(), id);
      if id in subs && subs[id].waiter {
        subs := subs[id := subs[id].(waiter := false)];
      }
    }

    /** The caller goes away between delivery and acknowledgement. */
    method Abandon(id: SubId)
      requires Valid()
      modifies `subs, `queuedBytes
      ensures Valid() && View() == AbandonDelivery(old(View()), id)
      ensures old(Accounted()) ==> Accounted()
    {
      hide Inv, EndedSub, QueueBytes, Once;
      if Accounted() {
        SameIsOnce(View(), AbandonDelivery(View(), id));
      }
      if id in subs && subs[id].delivery.Some? {
        EndSubKeepsInv(View(), id, Lagged);
        End(id, Lagged);
      }
    }

    method AcknowledgeNotification(id: SubId) returns (ok: bool)
      requires Valid()
      modifies `subs, `log
      ensures Valid() && View() == Acknowledge(old(View()), id)
      ensures ok <==> id in old(subs) && old(subs)[id].error.None? && old(subs)[id].delivery.Some?
      ensures ok ==> id in log && id in old(log) && log[id].received == old(log)[id].received
                     && |log[id].acknowledged| == |old(log)[id].acknowledged| + 1
                     && log[id].acknowledged <= log[id].received
      ensures old(Accounted()) ==> Accounted()
    {
      hide Inv, Once;
      ghost var s := View();
      AcknowledgeKeepsInv(s, id);
      if Accounted() {
        SameIsOnce(s, Acknowledge(s, id));
      }
      if id in subs && subs[id].error.None? && subs[id].delivery.Some? {
        AcknowledgesTheNext(s, id);
      }
      if id !in subs || subs[id].error.Some? || subs[id].delivery.None? {
        return false;
      }
      log := log[id := LogOf(log, id).(acknowledged := LogOf(log, id).acknowledged + [subs[id].delivery.value])];
      subs := subs[id := subs[id].(delivery := None)];
      return true;
    }

    method ForgetSubscription(id: SubId)
      requires Valid()
      modifies `subs, `queuedBytes, `log
      ensures Valid() && View() == Forget(old(View()), id)
      ensures old(Accounted()) ==> Accounted()
    {
      hide Inv, EndedSub, QueueBytes, Once;
      if Accounted() {
        SameIsOnce(View(), Forget(View(), id));
      }
      ForgetKeepsInv(View(), id);
      if id in subs {
        End(id, SubscriptionClosed);
        subs, log := subs - {id}, log - {id};
      }
    }

    method DropSubscription(id: SubId, size: nat, env: Env)
      requires Valid()
      modifies this
      ensures Valid() && View() == Discard(old(View()), id, size, env)
      ensures old(Accounted()) ==> Accounted()
    {
      hide Inv, Close, Request, Forget, Once;
      if Accounted() {
        DiscardKeepsOnce(View(), id, size, env);
      }
      ForgetSubscription(id);
      if closed {
        return;
      }
      if |pending| >= limits.maxFlight {
        Shut(Closed);
        return;
      }
      var drawn := DrawId();
      if drawn.Err? {
        Shut(Closed);
        return;
      }
      var _ := Submit(drawn.value, size, Cleanup, env);
    }
  }

  /** What `Next` hands out is the first notification that was received and not acknowledged. */
  lemma {:induction false} HandsOutTheNext(s: State, id: SubId, aborted: bool)
    requires Inv(s) && NextOf(s, id, aborted).Handed?
    ensures id in s.log && |s.log[id].acknowledged| < |s.log[id].received|
    ensures NextOf(s, id, aborted).frame == s.log[id].received[|s.log[id].acknowledged|]
  {
    hide Total;
  }

  /** An acknowledgement moves the acknowledged prefix on by one notification. */
  lemma {:induction false} AcknowledgesTheNext(s: State, id: SubId)
    requires Inv(s) && id in s.subs && s.subs[id].error.None? && s.subs[id].delivery.Some?
    ensures id in s.log && id in Acknowledge(s, id).log
    ensures var was, now := s.log[id], Acknowledge(s, id).log[id];
            now.received == was.received && |was.acknowledged| < |was.received|
            && now.acknowledged == was.received[..|was.acknowledged| + 1]
  {
    hide Total;
  }

  lemma {:induction false} FailureWhenClosed(s: State, id: nat, fault: Fault)
    requires s.closed && id in s.pending
    ensures Finish(s, id, Failed(fault)) == Record(Remove(s, id), id, Failed(fault))
  {
  }

  lemma {:induction false} Counters(s: State)
    requires Inv(s)
    ensures s.pendingSubs == |Subscribes(s.pending)| && s.queuedBytes == Total(s.subs)
    ensures forall id :: id in s.subs ==> GoodSub(s.limits, s.subs[id])
  {
  }

  lemma {:induction false} NoSubscribes(pending: map<nat, Kind>)
    requires pending.Keys == {}
    ensures pending == map[] && |Subscribes(pending)| == 0
  {
    assert Subscribes(pending) == {};
  }

  lemma {:induction false} EndedHasNoQueue(limits: Limits, sub: Sub, fault: Fault)
    requires GoodSub(limits, sub)
    ensures EndedSub(sub, fault).queue == []
  {
  }

  lemma {:induction false} NewRequestIsAccounted(s: State, id: nat, size: nat, kind: Kind, env: Env)
    ensures Once(s) && 0 < id < s.nextId && id !in s.requested ==> Once(Request(s, id, size, kind, env))
  {
    hide Once, Request;
    if Once(s) && 0 < id < s.nextId && id !in s.requested {
      RequestKeepsOnce(s, id, size, kind, env);
    }
  }

  lemma {:induction false} SameRefusal(s: State, t: State, id: nat, size: nat, kind: Kind, env: Env)
    requires t == s.(requested := t.requested)
    ensures Refusal(t, id, size, kind, env) == Refusal(s, id, size, kind, env)
  {
  }

  lemma {:induction false} EnterIsAllowed(s: State, id: nat, size: nat, kind: Kind, env: Env)
    requires Inv(s) && Refusal(s, id, size, kind, env).None?
    ensures Inv(Enter(s, id, kind))
  {
    EnterKeepsInv(s, id, kind);
  }
}
