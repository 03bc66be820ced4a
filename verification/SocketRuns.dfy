/** What holds over every run of the session: notifications in order and never lost silently,
    requests settled exactly once, and failure of a subscribe closing the session. */
module SocketRuns {
  import opened ByteStrings
  import opened SocketState
  import opened SocketProofs

  lemma {:induction false} RunInvariants(limits: Limits, events: seq<Event>, states: seq<State>, i: nat)
    requires Run(limits, events, states) && i <= |events|
    ensures Inv(states[i]) && Once(states[i])
  {
    hide Inv, Once, Step;
    if i == 0 {
      InitialInvariants(limits);
    } else {
      RunInvariants(limits, events, states, i - 1);
      StepKeepsInv(states[i - 1], events[i - 1]);
      StepKeepsOnce(states[i - 1], events[i - 1]);
    }
  }

  lemma {:induction false} InitialInvariants(limits: Limits)
    ensures Inv(Initial(limits)) && Once(Initial(limits))
  {
    assert Subscribes(map[]) == {};
  }

  // ---------------------------------------------------------------- notifications

  /** Everything a subscription has acknowledged, has in delivery, or still holds. */
  function Pipeline(s: State, id: SubId): seq<Frame>
    requires id in s.subs && id in s.log
  {
    s.log[id].acknowledged + InFlight(s.subs[id].delivery) + s.subs[id].queue
  }

  /** In every reachable state, what was acknowledged is a gap-free prefix of what was received, and
      without an error every received notification is acknowledged, in delivery or queued. */
  lemma {:induction false} NotificationsInOrder(limits: Limits, events: seq<Event>, states: seq<State>, i: nat,
          id: SubId)
    requires Run(limits, events, states) && i <= |events| && id in states[i].subs
    ensures id in states[i].log && states[i].log[id].acknowledged <= states[i].log[id].received
    ensures states[i].subs[id].error.None? ==> states[i].log[id].received == Pipeline(states[i], id)
  {
    hide Once, Total;
    RunInvariants(limits, events, states, i);
  }

  /** A subscription's history only grows, and its error, once there, is final. */
  predicate Continues(a: Sub, la: Log, b: Sub, lb: Log) {
    && la.received <= lb.received && la.acknowledged <= lb.acknowledged
    && (a.error.Some? ==> b.error == a.error && lb.acknowledged == la.acknowledged)
  }

  ghost predicate SubContinues(s: State, t: State, id: SubId) {
    id in s.subs && id in t.subs ==>
      id in s.log && id in t.log && Continues(s.subs[id], s.log[id], t.subs[id], t.log[id])
  }

  lemma {:induction false} CloseContinues(s: State, fault: Fault, id: SubId)
    requires s.log.Keys == s.subs.Keys
    ensures SubContinues(s, Close(s, fault), id)
  {
    hide FailAll;
  }

  lemma {:induction false} FinishContinues(s: State, request: nat, r: Outcome, id: SubId)
    requires s.log.Keys == s.subs.Keys && request in s.pending
    ensures SubContinues(s, Finish(s, request, r), id)
  {
    hide FailAll, Close, Confirms;
    var t := Remove(s, request);
    CloseContinues(t, if r.Failed? then r.fault else Closed, id);
    CloseContinues(Record(t, request, r), Closed, id);
  }

  lemma {:induction false} OnMessageContinues(s: State, f: Frame, id: SubId)
    requires s.log.Keys == s.subs.Keys
    ensures SubContinues(s, OnMessage(s, f), id)
  {
    hide Close, Finish, IsSubId, Notify, SubContinues;
    assert SubContinues(s, s, id) by { SameContinues(s, s, id); }
    CloseContinues(s, ResponseSize, id);
    CloseContinues(s, Invalid, id);
    match f.body
    case Garbage =>
    case Notice(sub) => NotifyContinues(s, sub, f, id);
    case Reply(request, _, result) =>
      if request in s.pending {
        FinishContinues(s, request, Answer(f), id);
        if result.Text? && result.text !in s.subs {
          var t := Register(s, result.text);
          FinishContinues(t, request, Answer(f), id);
          RegisterContinues(s, result.text, Finish(t, request, Answer(f)), id);
        }
      }
  }

  lemma {:induction false} NotifyContinues(s: State, sub: SubId, f: Frame, id: SubId)
    requires s.log.Keys == s.subs.Keys
    ensures SubContinues(s, Notify(s, sub, f), id)
  {
  }

  lemma {:induction false} SameContinues(s: State, t: State, id: SubId)
    requires s.log.Keys == s.subs.Keys && t.log == s.log && t.subs == s.subs
    ensures SubContinues(s, t, id)
  {
  }

  lemma {:induction false} RegisterContinues(s: State, sub: SubId, t: State, id: SubId)
    requires s.log.Keys == s.subs.Keys && sub !in s.subs && SubContinues(Register(s, sub), t, id)
    ensures SubContinues(s, t, id)
  {
  }

  lemma {:induction false} SendContinues(s: State, size: nat, kind: Kind, env: Env, id: SubId)
    requires s.log.Keys == s.subs.Keys
    ensures SubContinues(s, Send(s, size, kind, env), id)
  {
    hide Close, Finish, Refusal, Continues;
    SameContinues(s, s, id);
    if HasId(s) {
      var request := s.nextId;
      var t := TakeId(s).(requested := s.requested + {request});
      SameContinues(s, t, id);
      match Refusal(TakeId(s), request, size, kind, env)
      case Some(fault) =>
        CloseContinues(Record(t, request, Failed(fault)), Closed, id);
      case None =>
        var u := Enter(t, request, kind);
        SendFails(u, request, id);
    }
  }

  lemma {:induction false} SendFails(s: State, request: nat, id: SubId)
    requires s.log.Keys == s.subs.Keys && request in s.pending
    ensures SubContinues(s, Close(Finish(s, request, Failed(Closed)), Closed), id)
  {
    hide FailAll, Confirms, Settled;
  }

  lemma {:induction false} DiscardContinues(s: State, sub: SubId, size: nat, env: Env, id: SubId)
    requires s.log.Keys == s.subs.Keys
    ensures SubContinues(s, Discard(s, sub, size, env), id)
  {
    hide Close, Send, Continues, EndedSub;
    var t := Forget(s, sub);
    CloseContinues(t, Closed, id);
    SendContinues(t, size, Cleanup, env, id);
    if id in s.subs {
      SameContinues(s, s, id);
      SendKeepsSubs(t, size, env, id);
    }
  }

  lemma {:induction false} CloseKeepsSubs(s: State, fault: Fault, id: SubId)
    ensures id in Close(s, fault).subs <==> id in s.subs
  {
    hide FailAll, EndedSub;
  }

  lemma {:induction false} FinishKeepsSubs(s: State, request: nat, r: Outcome, id: SubId)
    requires request in s.pending
    ensures id in Finish(s, request, r).subs <==> id in s.subs
  {
    hide Close, Confirms, Settled;
    var rest := Remove(s, request);
    CloseKeepsSubs(rest, if r.Failed? then r.fault else Closed, id);
    CloseKeepsSubs(Record(rest, request, r), Closed, id);
  }

  lemma {:induction false} SendKeepsSubs(s: State, size: nat, env: Env, id: SubId)
    ensures id in Send(s, size, Cleanup, env).subs <==> id in s.subs
    ensures id in Close(s, Closed).subs <==> id in s.subs
  {
    hide Close, Finish, Settled, Refusal;
    CloseKeepsSubs(s, Closed, id);
    if HasId(s) {
      var request := s.nextId;
      var made := TakeId(s).(requested := s.requested + {request});
      var entered := Enter(made, request, Cleanup);
      match Refusal(TakeId(s), request, size, Cleanup, env)
      case Some(fault) => CloseKeepsSubs(Record(made, request, Failed(fault)), Closed, id);
      case None =>
        FinishKeepsSubs(entered, request, Failed(Closed), id);
        CloseKeepsSubs(Finish(entered, request, Failed(Closed)), Closed, id);
    }
  }

  lemma {:induction false} CallContinues(s: State, e: Event, id: SubId)
    requires s.log.Keys == s.subs.Keys && (e.NextCall? || e.WaitEnds? || e.Acknowledges? || e.WastesId?)
    ensures SubContinues(s, Step(s, e), id)
  {
    hide QueueBytes, OnMessage, Send, Finish, Discard, Close, EndedSub;
  }

  lemma {:induction false} EndContinues(s: State, e: Event, id: SubId)
    requires s.log.Keys == s.subs.Keys && (e.Abandons? || e.Forgets?)
    ensures SubContinues(s, Step(s, e), id)
  {
    hide QueueBytes, OnMessage, Send, Finish, Discard, Close, Next, Acknowledge;
  }

  lemma {:induction false} StepContinues(s: State, e: Event, id: SubId)
    requires s.log.Keys == s.subs.Keys
    ensures SubContinues(s, Step(s, e), id)
  {
    hide OnMessage, Send, Finish, Discard, Close, SubContinues, Forget, EndSub, Next, Acknowledge;
    match e
    case Incoming(f) => OnMessageContinues(s, f, id);
    case Sends(size, subscribe, env) => SendContinues(s, size, if subscribe then Subscribe else Plain, env, id);
    case RequestEnds(request, fault) =>
      SameContinues(s, s, id);
      if request in s.pending {
        FinishContinues(s, request, Failed(fault), id);
      }
    case Discards(sub, size, env) => DiscardContinues(s, sub, size, env, id);
    case Closes(fault) => CloseContinues(s, fault, id);
    case Abandons(_) => EndContinues(s, e, id);
    case Forgets(_) => EndContinues(s, e, id);
    case _ => CallContinues(s, e, id);
  }

  lemma {:induction false} LogMatches(s: State)
    requires Inv(s)
    ensures s.log.Keys == s.subs.Keys
  {
  }

  lemma {:induction false} ContinuesOn(s: State, t: State, u: State, id: SubId)
    requires id in s.subs && id in t.subs && id in u.subs && SubContinues(s, t, id) && SubContinues(t, u, id)
    ensures SubContinues(s, u, id)
  {
  }

  /** Over a whole run in which the subscription stays registered. */
  lemma {:induction false} SubscriptionContinues(limits: Limits, events: seq<Event>, states: seq<State>, i: nat,
          j: nat, id: SubId)
    requires Run(limits, events, states) && i <= j <= |events|
    requires forall k :: i <= k <= j ==> id in states[k].subs
    ensures id in states[i].log && id in states[j].log
    ensures Continues(states[i].subs[id], states[i].log[id], states[j].subs[id], states[j].log[id])
    decreases j
  {
    hide Step, Inv, Once, Continues;
    RunInvariants(limits, events, states, j);
    LogMatches(states[j]);
    if i == j {
      SameContinues(states[i], states[j], id);
    } else {
      SubscriptionContinues(limits, events, states, i, j - 1, id);
      RunInvariants(limits, events, states, j - 1);
      LogMatches(states[j - 1]);
      StepContinues(states[j - 1], events[j - 1], id);
      ContinuesOn(states[i], states[j - 1], states[j], id);
    }
  }

  /** While a subscription stays registered and error-free, nothing leaves its pipeline. */
  lemma {:induction false} NothingLostSilently(limits: Limits, events: seq<Event>, states: seq<State>, i: nat,
          j: nat, id: SubId)
    requires Run(limits, events, states) && i <= j <= |events|
    requires forall k :: i <= k <= j ==> id in states[k].subs
    ensures id in states[i].log && id in states[j].log
    ensures states[j].subs[id].error.Some? || Pipeline(states[i], id) <= Pipeline(states[j], id)
  {
    hide Step, Pipeline;
    SubscriptionContinues(limits, events, states, i, j, id);
    NotificationsInOrder(limits, events, states, i, id);
    NotificationsInOrder(limits, events, states, j, id);
  }

  /** The two ways a notification is lost: it does not fit its queue, or its caller leaves after delivery. */
  predicate Loses(s: State, e: Event, id: SubId)
    requires id in s.subs
  {
    match e
    case Incoming(f) =>
      && f.body == Notice(id) && f.size <= s.limits.maxBytes && !s.subs[id].waiter
      && (|s.subs[id].queue| == s.limits.maxQueue || s.queuedBytes + f.size > s.limits.maxQueuedBytes)
    case Abandons(sub) => sub == id && s.subs[id].delivery.Some?
    case _ => false
  }

  lemma {:induction false} LossEndsIt(s: State, e: Event, id: SubId)
    requires Inv(s) && id in s.subs && s.subs[id].error.None? && Loses(s, e, id)
    ensures var t := Step(s, e); id in t.subs && t.subs[id].error == Some(Lagged)
  {
    hide Total, QueueBytes;
  }

  /** From a loss on, for as long as the subscription stays registered, its error is `Lagged`, every call for
      the next notification is refused, and nothing more is acknowledged. */
  lemma {:induction false} LossIsReported(limits: Limits, events: seq<Event>, states: seq<State>, i: nat, j: nat,
          id: SubId, aborted: bool)
    requires Run(limits, events, states) && i < j <= |events|
    requires forall k :: i <= k <= j ==> id in states[k].subs
    requires states[i].subs[id].error.None? && Loses(states[i], events[i], id)
    ensures states[j].subs[id].error == Some(Lagged)
    ensures NextOf(states[j], id, aborted) == Refused(if states[j].closed then Closed else Lagged)
    ensures id in states[i + 1].log && id in states[j].log
            && states[j].log[id].acknowledged == states[i + 1].log[id].acknowledged
  {
    hide Step, Inv, Once, Loses;
    RunInvariants(limits, events, states, i);
    LossEndsIt(states[i], events[i], id);
    SubscriptionContinues(limits, events, states, i + 1, j, id);
  }

  // ---------------------------------------------------------------- requests

  /** Over every run a request that settled keeps its one outcome: an error or a frame with its id. */
  lemma {:induction false} SettlesOnce(limits: Limits, events: seq<Event>, states: seq<State>, i: nat, j: nat, id: nat)
    requires Run(limits, events, states) && i <= j <= |events| && id in states[i].outcomes
    ensures id in states[j].outcomes && states[j].outcomes[id] == states[i].outcomes[id]
    ensures |states[j].outcomes[id]| == 1 && Own(id, states[j].outcomes[id][0])
    decreases j
  {
    hide Step, Inv;
    RunInvariants(limits, events, states, j);
    if i == j {
    } else {
      SettlesOnce(limits, events, states, i, j - 1, id);
      RunInvariants(limits, events, states, j - 1);
      StepKeepsOnce(states[j - 1], events[j - 1]);
    }
  }

  lemma {:induction false} ClosedStays(s: State, e: Event)
    requires s.closed
    ensures Step(s, e).closed
  {
    hide Finish, EndedSub, QueueBytes, Refusal;
    match e
    case RequestEnds(request, fault) => if request in s.pending { FinishStaysClosed(s, request, Failed(fault)); }
    case _ =>
  }

  lemma {:induction false} FinishStaysClosed(s: State, request: nat, r: Outcome)
    requires s.closed && request in s.pending
    ensures Finish(s, request, r).closed
  {
  }

  /** Once closed, the session stays closed, and every request ever made has settled. */
  lemma {:induction false} ClosedSettlesAll(limits: Limits, events: seq<Event>, states: seq<State>, i: nat, j: nat)
    requires Run(limits, events, states) && i <= j <= |events| && states[i].closed
    ensures states[j].closed && states[j].outcomes.Keys == states[j].requested
    decreases j
  {
    hide Step, Total, GoodPending, GoodSubs, Own;
    RunInvariants(limits, events, states, j);
    if i == j {
    } else {
      ClosedSettlesAll(limits, events, states, i, j - 1);
      ClosedStays(states[j - 1], events[j - 1]);
    }
  }

  /** Over every run, a reply that comes after its request settled changes nothing. */
  lemma {:induction false} LateReplyIsIgnored(limits: Limits, events: seq<Event>, states: seq<State>, i: nat, j: nat,
          f: Frame)
    requires Run(limits, events, states) && i <= j <= |events|
    requires f.body.Reply? && f.body.id in states[i].outcomes && f.size <= states[j].limits.maxBytes
    ensures Step(states[j], Incoming(f)) == states[j]
  {
    hide Own, Run, Inv, Notify, Close, Finish;
    RunInvariants(limits, events, states, j);
    SettlesOnce(limits, events, states, i, j, f.body.id);
  }

  /** Outcomes after which the session must not be used further. */
  predicate Fatal(kind: Kind, r: Outcome) {
    (kind.Subscribe? && r.Failed?) || (kind.Cleanup? && !Confirms(r))
  }

  lemma {:induction false} FinishSettles(s: State, request: nat, r: Outcome, id: nat)
    requires Once(s) && request in s.pending && id in s.pending && Own(request, r)
    ensures id !in Finish(s, request, r).pending ==>
              Finish(s, request, r).closed || (id == request && !Fatal(s.pending[id], r)
                && Finish(s, request, r).outcomes[id] == [r])
  {
    hide FailAll, Confirms, Settled, Ledger, Own;
    FinishKeepsOnce(s, request, r);
  }

  lemma {:induction false} AnswerSettles(s: State, f: Frame, id: nat)
    requires Once(s) && id in s.pending && f.body.Reply?
    ensures id !in Answered(s, f).pending ==>
              Answered(s, f).closed || (id in Answered(s, f).outcomes
                && Answered(s, f).outcomes[id] == [Answer(f)] && !Fatal(s.pending[id], Answer(f)))
  {
    hide Finish, IsSubId, Fatal, FailAll, EndedSub;
    var request := f.body.id;
    if request in s.pending {
      FinishSettles(s, request, Answer(f), id);
      FinishKeepsOnce(s, request, Answer(f));
      if f.body.result.Text? {
        FinishSettles(Register(s, f.body.result.text), request, Answer(f), id);
        FinishKeepsOnce(Register(s, f.body.result.text), request, Answer(f));
      }
    }
  }

  lemma {:induction false} SendSettles(s: State, size: nat, kind: Kind, env: Env, id: nat)
    requires id in s.pending && id < s.nextId
    ensures id !in Send(s, size, kind, env).pending ==> Send(s, size, kind, env).closed
  {
    hide FailAll, Confirms, Settled, Refusal, EndedSub;
  }

  lemma {:induction false} FailureIsOwn(request: nat, fault: Fault)
    ensures Own(request, Failed(fault))
  {
  }

  /** What a request's end can look like, step by step. */
  lemma {:induction false} StepSettles(s: State, e: Event, id: nat)
    requires Once(s) && id in s.pending && id !in Step(s, e).pending
    ensures Step(s, e).closed || (id in Step(s, e).outcomes && |Step(s, e).outcomes[id]| == 1
            && !Fatal(s.pending[id], Step(s, e).outcomes[id][0]))
  {
    hide Answered, Send, Finish, Fatal, Close, QueueBytes, Notify, Next, EndedSub, Own;
    match e
    case Incoming(f) => if f.body.Reply? { AnswerSettles(s, f, id); }
    case Sends(size, subscribe, env) => SendSettles(s, size, if subscribe then Subscribe else Plain, env, id);
    case RequestEnds(request, fault) =>
      if request in s.pending {
        assert Own(request, Failed(fault)) by { FailureIsOwn(request, fault); }
        FinishSettles(s, request, Failed(fault), id);
        FinishKeepsOnce(s, request, Failed(fault));
      }
    case Discards(sub, size, env) => SendSettles(Forget(s, sub), size, Cleanup, env, id);
    case _ =>
  }

  lemma {:induction false} SettlingStep(s: State, e: Event, id: nat)
    requires Once(s) && id in s.pending && id !in Step(s, e).pending
    ensures id in Step(s, e).outcomes && |Step(s, e).outcomes[id]| == 1
    ensures Fatal(s.pending[id], Step(s, e).outcomes[id][0]) ==> Step(s, e).closed
  {
    hide Step, Fatal, Own;
    StepKeepsOnce(s, e);
    StepSettles(s, e, id);
  }

  lemma {:induction false} AnswerKeepsKinds(s: State, f: Frame, id: nat)
    requires f.body.Reply? && id in s.pending && id in Answered(s, f).pending
    ensures Answered(s, f).pending[id] == s.pending[id]
  {
    hide FailAll, EndedSub, Confirms, Settled, IsSubId;
  }

  lemma {:induction false} SendKeepsKinds(s: State, size: nat, kind: Kind, env: Env, id: nat)
    requires id in s.pending && id < s.nextId && id in Send(s, size, kind, env).pending
    ensures Send(s, size, kind, env).pending[id] == s.pending[id]
  {
    hide FailAll, EndedSub, Confirms, Settled, Refusal;
  }

  /** What a request is for does not change while it is pending. */
  lemma {:induction false} PendingKeepsKind(s: State, e: Event, id: nat)
    requires Once(s) && id in s.pending && id in Step(s, e).pending
    ensures Step(s, e).pending[id] == s.pending[id]
  {
    hide Answered, Send, Notify, Next, EndedSub, FailAll, Confirms, Settled, QueueBytes;
    match e
    case Incoming(f) => if f.body.Reply? && !s.closed && f.size <= s.limits.maxBytes { AnswerKeepsKinds(s, f, id); }
    case Sends(size, subscribe, env) => SendKeepsKinds(s, size, if subscribe then Subscribe else Plain, env, id);
    case Discards(sub, size, env) => DiscardKeepsKinds(s, sub, size, env, id);
    case _ =>
  }

  lemma {:induction false} DiscardKeepsKinds(s: State, sub: SubId, size: nat, env: Env, id: nat)
    requires id in s.pending && id < s.nextId && id in Discard(s, sub, size, env).pending
    ensures Discard(s, sub, size, env).pending[id] == s.pending[id]
  {
    hide Send, EndedSub, FailAll, QueueBytes;
    var t := Forget(s, sub);
    if id in Send(t, size, Cleanup, env).pending {
      SendKeepsKinds(t, size, Cleanup, env, id);
    }
  }

  /** Over every run, a request that was pending and no longer is has one outcome; when it was a subscribe that
      failed, or a clean-up that was not confirmed, the session is closed and stays closed. */
  lemma {:induction false} FailedSubscribeCloses(limits: Limits, events: seq<Event>, states: seq<State>, i: nat,
          j: nat, id: nat)
    requires Run(limits, events, states) && i <= j <= |events|
    requires id in states[i].pending && id !in states[j].pending
    ensures id in states[j].outcomes && |states[j].outcomes[id]| == 1
    ensures Fatal(states[i].pending[id], states[j].outcomes[id][0]) ==> states[j].closed
    decreases j - i
  {
    hide Step, Fatal, Own, Inv, Once;
    RunInvariants(limits, events, states, i);
    if id in states[i + 1].pending {
      PendingKeepsKind(states[i], events[i], id);
      FailedSubscribeCloses(limits, events, states, i + 1, j, id);
    } else {
      SettlingStep(states[i], events[i], id);
      SettlesOnce(limits, events, states, i + 1, j, id);
      if states[i + 1].closed {
        ClosedSettlesAll(limits, events, states, i + 1, j);
      }
    }
  }
}
