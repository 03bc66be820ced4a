/** The client side of the session (socket.rs): calls that hold a permit from before their request is sent
    until they return or are dropped, and the explicit unsubscribe. A call is split where it awaits. */
module SocketClient {
  import opened ByteStrings
  import opened SocketState
  import opened SocketProofs
  import opened SocketRuns

  datatype Purpose = Requesting | Subscribing | Unsubscribing(sub: SubId)

  /** How the client reads a reply frame. */
  datatype Reply = Accepted(value: Value) | Rejected | Malformed

  /** `active` counts permits; `calls` are the calls that await, by request id. */
  datatype Client = Client(session: State, active: int, calls: map<nat, Purpose>)

  function KindOf(purpose: Purpose): Kind {
    if purpose.Subscribing? then Subscribe else Plain
  }

  function Acquire(c: Client): Client {
    c.(active := c.active + 1)
  }

  function Release(c: Client): Client {
    c.(active := c.active - 1)
  }

  /** The reply registered a subscription that is provisional until the client acknowledges it. */
  predicate Registers(purpose: Purpose, r: Outcome) {
    purpose.Subscribing? && r.Answer? && r.frame.body.Reply? && !r.frame.body.isError && r.frame.body.result.Text?
  }

  // ---------------------------------------------------------------- calls

  /** A request goes out only with a permit, an id and an encoded body. */
  predicate Starts(c: Client, encodes: bool) {
    c.active < c.session.limits.maxFlight && HasId(c.session) && encodes
  }

  /** Up to the await; a failure on the way gives the permit back. */
  function Start(c: Client, purpose: Purpose, size: nat, env: Env, encodes: bool): Client {
    if c.active >= c.session.limits.maxFlight then c
    else
      var held := Acquire(c);
      if !HasId(c.session) then Release(held)
      else if !encodes then Release(held.(session := Step(c.session, WastesId)))
      else
        held.(session := Step(c.session, Sends(size, purpose.Subscribing?, env)),
              calls := c.calls[c.session.nextId := purpose])
  }

  /** An unsubscribe forgets first and closes the session when its request cannot be made. */
  function Call(c: Client, purpose: Purpose, size: nat, env: Env, encodes: bool): Client {
    if !purpose.Unsubscribing? then Start(c, purpose, size, env, encodes)
    else
      var forgot := c.(session := Step(c.session, Forgets(purpose.sub)));
      var started := Start(forgot, purpose, size, env, encodes);
      if Starts(forgot, encodes) then started else started.(session := Step(started.session, Closes(Closed)))
  }

  /** Whether the client closes the session when it reads this outcome. */
  predicate Closing(s: State, purpose: Purpose, r: Outcome, decode: Frame -> Reply) {
    match r
    case Failed(_) => purpose.Unsubscribing?
    case Answer(f) =>
      || decode(f).Malformed?
      || (purpose.Unsubscribing? && decode(f) != Accepted(True))
      || (Registers(purpose, r) && !(decode(f).Accepted? && decode(f).value.Text? && decode(f).value.text in s.subs))
  }

  /** After the await: the permit goes back, and the session may be closed. */
  function Resume(c: Client, id: nat, decode: Frame -> Reply): Client {
    if id !in c.calls || id !in c.session.outcomes || c.session.outcomes[id] == [] then c
    else
      var done := Release(c.(calls := c.calls - {id}));
      if Closing(c.session, c.calls[id], c.session.outcomes[id][0], decode)
        then done.(session := Step(c.session, Closes(Closed))) else done
  }

  /** The abort of a dropped call: cancels what is pending, and closes for an unacknowledged subscription. */
  function Abort(s: State, id: nat, purpose: Purpose): State {
    if id in s.pending then Step(s, RequestEnds(id, Cancelled))
    else if id in s.outcomes && s.outcomes[id] != [] && Registers(purpose, s.outcomes[id][0])
      then Step(s, Closes(Cancelled))
    else s
  }

  /** A call is dropped while it awaits; a dropped unsubscribe drops its subscription too. */
  function Drop(c: Client, id: nat, size: nat, env: Env): Client {
    if id !in c.calls then c
    else
      var done := Release(c.(session := Abort(c.session, id, c.calls[id]), calls := c.calls - {id}));
      match c.calls[id]
      case Unsubscribing(sub) => done.(session := Step(done.session, Discards(sub, size, env)))
      case _ => done
  }

  // ---------------------------------------------------------------- runs

  /** Requests and ids come from calls only; everything else happens in the browser or on the wire. */
  datatype ClientEvent =
    | Calls(purpose: Purpose, size: nat, env: Env, encodes: bool)
    | Resumes(id: nat)
    | Drops(id: nat, size: nat, env: Env)
    | Other(event: Event)

  predicate Sending(e: Event) {
    e.Sends? || e.WastesId?
  }

  function ClientStep(c: Client, e: ClientEvent, decode: Frame -> Reply): Client {
    match e
    case Calls(purpose, size, env, encodes) => Call(c, purpose, size, env, encodes)
    case Resumes(id) => Resume(c, id, decode)
    case Drops(id, size, env) => Drop(c, id, size, env)
    case Other(event) => if Sending(event) then c else c.(session := Step(c.session, event))
  }

  ghost predicate ClientRun(limits: Limits, decode: Frame -> Reply, events: seq<ClientEvent>, states: seq<Client>) {
    && |states| == |events| + 1 && states[0] == Client(Initial(limits), 0, map[])
    && forall i :: 0 <= i < |events| ==> states[i + 1] == ClientStep(states[i], events[i], decode)
  }

  // ---------------------------------------------------------------- permits

  /** A request that is not a clean-up belongs to a call. */
  ghost predicate Owned(s: State, calls: map<nat, Purpose>) {
    && calls.Keys <= s.requested
    && forall id :: id in s.pending && !s.pending[id].Cleanup? ==> id in calls && KindOf(calls[id]) == s.pending[id]
  }

  ghost predicate ClientInv(c: Client) {
    && Inv(c.session) && Once(c.session) && Owned(c.session, c.calls)
    && c.active == |c.calls| <= c.session.limits.maxFlight
  }

  lemma {:induction false} StepKeepsLimits(s: State, e: Event)
    ensures Step(s, e).limits == s.limits
  {
    hide EndedSub, QueueBytes, FailAll, Settled, Refusal, IsSubId, Confirms, OnMessage, Send, Finish, Discard;
    match e
    case Incoming(f) => MessageKeepsLimits(s, f);
    case Sends(size, subscribe, env) => SendKeepsLimits(s, size, if subscribe then Subscribe else Plain, env);
    case RequestEnds(id, fault) => if id in s.pending { FinishKeepsLimits(s, id, Failed(fault)); }
    case Discards(sub, size, env) => DiscardKeepsLimits(s, sub, size, env);
    case _ =>
  }

  lemma {:induction false} FinishKeepsLimits(s: State, id: nat, r: Outcome)
    requires id in s.pending
    ensures Finish(s, id, r).limits == s.limits
  {
    hide EndedSub, FailAll, Settled, Confirms;
  }

  lemma {:induction false} MessageKeepsLimits(s: State, f: Frame)
    ensures OnMessage(s, f).limits == s.limits
  {
    hide EndedSub, QueueBytes, FailAll, IsSubId, Finish;
    match f.body
    case Reply(id, _, result) =>
      if id in s.pending {
        FinishKeepsLimits(s, id, Answer(f));
        if result.Text? {
          FinishKeepsLimits(Register(s, result.text), id, Answer(f));
        }
      }
    case _ =>
  }

  lemma {:induction false} SendKeepsLimits(s: State, size: nat, kind: Kind, env: Env)
    ensures Send(s, size, kind, env).limits == s.limits
  {
    hide EndedSub, FailAll, Settled, Refusal, Finish;
    if HasId(s) {
      var made := TakeId(s).(requested := s.requested + {s.nextId});
      FinishKeepsLimits(Enter(made, s.nextId, kind), s.nextId, Failed(Closed));
    }
  }

  lemma {:induction false} DiscardKeepsLimits(s: State, sub: SubId, size: nat, env: Env)
    ensures Discard(s, sub, size, env).limits == s.limits
  {
    hide EndedSub, QueueBytes, FailAll, Send;
    SendKeepsLimits(Forget(s, sub), size, Cleanup, env);
  }

  /** Only a send makes a request pending. */
  lemma {:induction false} NewPending(s: State, e: Event, id: nat)
    requires id in Step(s, e).pending && id !in s.pending
    ensures (e.Sends? && id == s.nextId && Step(s, e).pending[id] == if e.subscribe then Subscribe else Plain)
            || (e.Discards? && Step(s, e).pending[id] == Cleanup)
  {
    hide OnMessage, Send, Finish, Discard;
    match e
    case Incoming(f) => MessageAddsNothing(s, f, id);
    case Sends(size, subscribe, env) => SendAddsOne(s, size, if subscribe then Subscribe else Plain, env, id);
    case RequestEnds(request, fault) => if request in s.pending { FinishAddsNothing(s, request, Failed(fault), id); }
    case Discards(sub, size, env) => DiscardAddsCleanup(s, sub, size, env, id);
    case _ => OthersAddNothing(s, e, id);
  }

  lemma {:induction false} OthersAddNothing(s: State, e: Event, id: nat)
    requires !e.Incoming? && !e.Sends? && !e.RequestEnds? && !e.Discards? && id in Step(s, e).pending
    ensures id in s.pending
  {
    hide EndedSub, QueueBytes, FailAll, OnMessage, Send, Finish, Discard;
  }

  lemma {:induction false} FinishAddsNothing(s: State, request: nat, r: Outcome, id: nat)
    requires request in s.pending && id in Finish(s, request, r).pending
    ensures id in s.pending
  {
    hide FailAll, EndedSub, Confirms, Settled;
  }

  lemma {:induction false} MessageAddsNothing(s: State, f: Frame, id: nat)
    requires id in OnMessage(s, f).pending
    ensures id in s.pending
  {
    hide Answered, FailAll, EndedSub;
    if f.body.Reply? && !s.closed && f.size <= s.limits.maxBytes {
      AnswerAddsNothing(s, f, id);
    }
  }

  lemma {:induction false} DiscardAddsCleanup(s: State, sub: SubId, size: nat, env: Env, id: nat)
    requires id in Discard(s, sub, size, env).pending && id !in s.pending
    ensures Discard(s, sub, size, env).pending[id] == Cleanup
  {
    hide Send, EndedSub, FailAll, QueueBytes;
    if id in Send(Forget(s, sub), size, Cleanup, env).pending {
      SendAddsOne(Forget(s, sub), size, Cleanup, env, id);
    }
  }

  lemma {:induction false} AnswerAddsNothing(s: State, f: Frame, id: nat)
    requires f.body.Reply? && id in Answered(s, f).pending
    ensures id in s.pending
  {
    hide FailAll, EndedSub, Confirms, Settled, IsSubId;
  }

  lemma {:induction false} SendAddsOne(s: State, size: nat, kind: Kind, env: Env, id: nat)
    requires id in Send(s, size, kind, env).pending && id !in s.pending
    ensures id == s.nextId && Send(s, size, kind, env).pending[id] == kind
  {
    hide FailAll, EndedSub, Confirms, Settled, Refusal;
  }

  /** A step of the session that is no send leaves every request with its call. */
  lemma {:induction false} QuietStep(c: Client, e: Event)
    requires ClientInv(c) && !Sending(e)
    ensures ClientInv(c.(session := Step(c.session, e)))
  {
    hide Step, Inv, Once;
    var s := c.session;
    StepKeepsInv(s, e);
    StepKeepsOnce(s, e);
    StepKeepsLimits(s, e);
    forall id | id in Step(s, e).pending && !Step(s, e).pending[id].Cleanup?
      ensures id in c.calls && KindOf(c.calls[id]) == Step(s, e).pending[id]
    {
      if id in s.pending {
        PendingKeepsKind(s, e, id);
      } else {
        NewPending(s, e, id);
      }
    }
  }

  lemma {:induction false} WastedId(c: Client)
    requires ClientInv(c)
    ensures ClientInv(c.(session := Step(c.session, WastesId)))
  {
    hide Inv, Once;
    var s := c.session;
    StepKeepsInv(s, WastesId);
    StepKeepsOnce(s, WastesId);
  }

  /** A call that ends gives its own permit back. */
  lemma {:induction false} CallEnds(c: Client, id: nat)
    requires ClientInv(c) && id in c.calls && id !in c.session.pending
    ensures ClientInv(Release(c.(calls := c.calls - {id})))
  {
    hide Inv, Once;
    assert (c.calls - {id}).Keys == c.calls.Keys - {id};
  }

  lemma {:induction false} StartKeepsInv(c: Client, purpose: Purpose, size: nat, env: Env, encodes: bool)
    requires ClientInv(c)
    ensures ClientInv(Start(c, purpose, size, env, encodes))
  {
    hide Step, Inv, Once, HasId;
    var s := c.session;
    if !Starts(c, encodes) {
      WastedId(c);
    } else {
      var e, id := Sends(size, purpose.Subscribing?, env), s.nextId;
      var t := Step(s, e);
      StepKeepsInv(s, e);
      StepKeepsOnce(s, e);
      StepKeepsLimits(s, e);
      SentIsRequested(s, size, purpose.Subscribing?, env);
      var calls := c.calls[id := purpose];
      assert calls.Keys == c.calls.Keys + {id};
      forall k | k in t.pending && !t.pending[k].Cleanup? ensures k in calls && KindOf(calls[k]) == t.pending[k] {
        if k in s.pending {
          PendingKeepsKind(s, e, k);
        } else {
          NewPending(s, e, k);
        }
      }
    }
  }

  /** A drawn id is new, and the request made with it is recorded. */
  lemma {:induction false} SentIsRequested(s: State, size: nat, subscribe: bool, env: Env)
    requires Once(s) && HasId(s)
    ensures s.nextId !in s.requested && s.nextId !in s.pending
    ensures s.requested + {s.nextId} <= Step(s, Sends(size, subscribe, env)).requested
  {
    hide FailAll, EndedSub, Confirms, Settled, Refusal;
  }

  lemma {:induction false} CallKeepsInv(c: Client, purpose: Purpose, size: nat, env: Env, encodes: bool)
    requires ClientInv(c)
    ensures ClientInv(Call(c, purpose, size, env, encodes))
  {
    hide Step, ClientInv, Start;
    if !purpose.Unsubscribing? {
      StartKeepsInv(c, purpose, size, env, encodes);
    } else {
      QuietStep(c, Forgets(purpose.sub));
      var forgot := c.(session := Step(c.session, Forgets(purpose.sub)));
      StartKeepsInv(forgot, purpose, size, env, encodes);
      QuietStep(Start(forgot, purpose, size, env, encodes), Closes(Closed));
    }
  }

  lemma {:induction false} PendingIsUnsettled(s: State, id: nat)
    requires Once(s)
    ensures id in s.pending ==> id !in s.outcomes
  {
    hide Own;
  }

  lemma {:induction false} SessionOnce(c: Client)
    requires ClientInv(c)
    ensures Once(c.session)
  {
  }

  lemma {:induction false} ResumeKeepsInv(c: Client, id: nat, decode: Frame -> Reply)
    requires ClientInv(c)
    ensures ClientInv(Resume(c, id, decode))
  {
    hide Step, ClientInv, Closing;
    if id in c.calls && id in c.session.outcomes {
      assert Once(c.session) by { SessionOnce(c); }
      PendingIsUnsettled(c.session, id);
      CallEnds(c, id);
      QuietStep(Release(c.(calls := c.calls - {id})), Closes(Closed));
    }
  }

  lemma {:induction false} AbortKeepsInv(c: Client, id: nat, purpose: Purpose)
    requires ClientInv(c)
    ensures ClientInv(c.(session := Abort(c.session, id, purpose)))
    ensures id !in Abort(c.session, id, purpose).pending
  {
    hide Step, ClientInv, Registers;
    QuietStep(c, RequestEnds(id, Cancelled));
    QuietStep(c, Closes(Cancelled));
    assert c.(session := c.session) == c;
    AbortEndsIt(c.session, id);
  }

  lemma {:induction false} AbortEndsIt(s: State, id: nat)
    ensures id !in Step(s, RequestEnds(id, Cancelled)).pending
    ensures id !in s.pending ==> id !in Step(s, Closes(Cancelled)).pending
  {
    hide FailAll, EndedSub, Confirms, Settled;
  }

  lemma {:induction false} DropKeepsInv(c: Client, id: nat, size: nat, env: Env)
    requires ClientInv(c)
    ensures ClientInv(Drop(c, id, size, env))
  {
    hide Step, ClientInv, Abort;
    if id in c.calls {
      var aborted := c.(session := Abort(c.session, id, c.calls[id]));
      AbortKeepsInv(c, id, c.calls[id]);
      CallEnds(aborted, id);
      var done := Release(aborted.(calls := c.calls - {id}));
      match c.calls[id]
      case Unsubscribing(sub) => QuietStep(done, Discards(sub, size, env));
      case _ =>
    }
  }

  lemma {:induction false} ClientStepKeepsInv(c: Client, e: ClientEvent, decode: Frame -> Reply)
    requires ClientInv(c)
    ensures ClientInv(ClientStep(c, e, decode))
  {
    hide Step, ClientInv, Call, Resume, Drop;
    match e
    case Calls(purpose, size, env, encodes) => CallKeepsInv(c, purpose, size, env, encodes);
    case Resumes(id) => ResumeKeepsInv(c, id, decode);
    case Drops(id, size, env) => DropKeepsInv(c, id, size, env);
    case Other(event) =>
      if !Sending(event) {
        QuietStep(c, event);
      }
  }

  lemma {:induction false} ClientRunInvariants(limits: Limits, decode: Frame -> Reply, events: seq<ClientEvent>,
          states: seq<Client>, i: nat)
    requires ClientRun(limits, decode, events, states) && i <= |events|
    ensures ClientInv(states[i])
  {
    hide ClientStep, Inv, Once;
    if i == 0 {
      InitialInvariants(limits);
    } else {
      ClientRunInvariants(limits, decode, events, states, i - 1);
      ClientStepKeepsInv(states[i - 1], events[i - 1], decode);
    }
  }

  function CleanUps(pending: map<nat, Kind>): set<nat> {
    set id | id in pending && pending[id].Cleanup?
  }

  /** In every reachable state the permits held are the calls in flight, each with its own request; what is
      pending beyond them are clean-ups. */
  lemma {:induction false} PermitsAreCalls(limits: Limits, decode: Frame -> Reply, events: seq<ClientEvent>,
          states: seq<Client>, i: nat)
    requires ClientRun(limits, decode, events, states) && i <= |events|
    ensures var c := states[i];
            && c.active == |c.calls| <= c.session.limits.maxFlight
            && c.calls.Keys <= c.session.pending.Keys + c.session.outcomes.Keys
            && c.session.pending.Keys <= c.calls.Keys + CleanUps(c.session.pending)
            && |c.session.pending| <= c.active + |CleanUps(c.session.pending)|
  {
    hide Inv, Own;
    ClientRunInvariants(limits, decode, events, states, i);
    var c := states[i];
    var all := c.calls.Keys + CleanUps(c.session.pending);
    assert c.session.pending.Keys <= all;
    Fewer(c.session.pending.Keys, all);
    assert |all| <= |c.calls.Keys| + |CleanUps(c.session.pending)|;
  }

  lemma {:induction false} Fewer(a: set<nat>, b: set<nat>)
    requires a <= b
    ensures |a| <= |b|
  {
    assert b == a + (b - a);
  }

  // ---------------------------------------------------------------- every client run is a session run

  function StartTrace(c: Client, purpose: Purpose, size: nat, env: Env, encodes: bool): seq<Event> {
    if c.active >= c.session.limits.maxFlight || !HasId(c.session) then []
    else if !encodes then [WastesId]
    else [Sends(size, purpose.Subscribing?, env)]
  }

  function CallTrace(c: Client, purpose: Purpose, size: nat, env: Env, encodes: bool): seq<Event> {
    if !purpose.Unsubscribing? then StartTrace(c, purpose, size, env, encodes)
    else
      var forgot := c.(session := Step(c.session, Forgets(purpose.sub)));
      [Forgets(purpose.sub)] + StartTrace(forgot, purpose, size, env, encodes)
      + (if Starts(forgot, encodes) then [] else [Closes(Closed)])
  }

  function ResumeTrace(c: Client, id: nat, decode: Frame -> Reply): seq<Event> {
    if id in c.calls && id in c.session.outcomes && c.session.outcomes[id] != []
       && Closing(c.session, c.calls[id], c.session.outcomes[id][0], decode) then [Closes(Closed)] else []
  }

  function AbortTrace(s: State, id: nat, purpose: Purpose): seq<Event> {
    if id in s.pending then [RequestEnds(id, Cancelled)]
    else if id in s.outcomes && s.outcomes[id] != [] && Registers(purpose, s.outcomes[id][0]) then [Closes(Cancelled)]
    else []
  }

  function DropTrace(c: Client, id: nat, size: nat, env: Env): seq<Event> {
    if id !in c.calls then []
    else
      AbortTrace(c.session, id, c.calls[id])
      + (if c.calls[id].Unsubscribing? then [Discards(c.calls[id].sub, size, env)] else [])
  }

  /** What a step of the client does to the session, event by event. */
  function Trace(c: Client, e: ClientEvent, decode: Frame -> Reply): seq<Event> {
    match e
    case Calls(purpose, size, env, encodes) => CallTrace(c, purpose, size, env, encodes)
    case Resumes(id) => ResumeTrace(c, id, decode)
    case Drops(id, size, env) => DropTrace(c, id, size, env)
    case Other(event) => if Sending(event) then [] else [event]
  }

  function Replay(s: State, es: seq<Event>): State
    decreases |es|
  {
    if es == [] then s else Replay(Step(s, es[0]), es[1..])
  }

  lemma {:induction false} ReplayConcat(s: State, a: seq<Event>, b: seq<Event>)
    ensures Replay(s, a + b) == Replay(Replay(s, a), b)
    decreases |a|
  {
    hide Step;
    if a == [] {
      assert a + b == b;
    } else {
      assert (a + b)[1..] == a[1..] + b;
      ReplayConcat(Step(s, a[0]), a[1..], b);
    }
  }

  lemma {:induction false} ReplayOne(s: State, e: Event)
    ensures Replay(s, [e]) == Step(s, e) && Replay(s, []) == s
  {
    hide Step;
    assert [e][1..] == [];
  }

  lemma {:induction false} StartTraced(c: Client, purpose: Purpose, size: nat, env: Env, encodes: bool)
    ensures Start(c, purpose, size, env, encodes).session
            == Replay(c.session, StartTrace(c, purpose, size, env, encodes))
  {
    hide Step, Replay, HasId;
    ReplayOne(c.session, WastesId);
    ReplayOne(c.session, Sends(size, purpose.Subscribing?, env));
  }

  lemma {:induction false} CallTraced(c: Client, purpose: Purpose, size: nat, env: Env, encodes: bool)
    ensures Call(c, purpose, size, env, encodes).session
            == Replay(c.session, CallTrace(c, purpose, size, env, encodes))
  {
    hide Step, Replay, Start, StartTrace, Starts;
    if !purpose.Unsubscribing? {
      StartTraced(c, purpose, size, env, encodes);
    } else {
      var forget := Forgets(purpose.sub);
      var forgot := c.(session := Step(c.session, forget));
      var middle := StartTrace(forgot, purpose, size, env, encodes);
      var last := if Starts(forgot, encodes) then [] else [Closes(Closed)];
      StartTraced(forgot, purpose, size, env, encodes);
      ReplayOne(c.session, forget);
      ReplayConcat(c.session, [forget], middle);
      ReplayConcat(c.session, [forget] + middle, last);
      ReplayOne(Start(forgot, purpose, size, env, encodes).session, Closes(Closed));
    }
  }

  lemma {:induction false} DropTraced(c: Client, id: nat, size: nat, env: Env)
    ensures Drop(c, id, size, env).session == Replay(c.session, DropTrace(c, id, size, env))
  {
    hide Step, Replay, Registers;
    ReplayOne(c.session, RequestEnds(id, Cancelled));
    ReplayOne(c.session, Closes(Cancelled));
    if id in c.calls {
      var first := AbortTrace(c.session, id, c.calls[id]);
      var aborted := Abort(c.session, id, c.calls[id]);
      assert Replay(c.session, first) == aborted;
      match c.calls[id]
      case Unsubscribing(sub) =>
        ReplayConcat(c.session, first, [Discards(sub, size, env)]);
        ReplayOne(aborted, Discards(sub, size, env));
      case _ => assert first + [] == first;
    }
  }

  lemma {:induction false} StepTraced(c: Client, e: ClientEvent, decode: Frame -> Reply)
    ensures ClientStep(c, e, decode).session == Replay(c.session, Trace(c, e, decode))
  {
    hide Step, Replay, Call, CallTrace, Drop, DropTrace, Closing;
    match e
    case Calls(purpose, size, env, encodes) => CallTraced(c, purpose, size, env, encodes);
    case Resumes(id) => ReplayOne(c.session, Closes(Closed));
    case Drops(id, size, env) => DropTraced(c, id, size, env);
    case Other(event) => ReplayOne(c.session, event);
  }

  /** The session events of the first `n` steps of a client run. */
  ghost function Whole(decode: Frame -> Reply, events: seq<ClientEvent>, states: seq<Client>, n: nat): seq<Event>
    requires n <= |events| && n <= |states|
  {
    if n == 0 then []
    else Whole(decode, events, states, n - 1) + Trace(states[n - 1], events[n - 1], decode)
  }

  lemma {:induction false} WholeGrows(decode: Frame -> Reply, events: seq<ClientEvent>, states: seq<Client>, m: nat,
          n: nat)
    requires m <= n <= |events| && n <= |states|
    ensures Whole(decode, events, states, m) <= Whole(decode, events, states, n)
    decreases n
  {
    hide Trace;
    if m == n {
    } else {
      WholeGrows(decode, events, states, m, n - 1);
    }
  }

  lemma {:induction false} WholeReplays(limits: Limits, decode: Frame -> Reply, events: seq<ClientEvent>,
          states: seq<Client>, n: nat)
    requires ClientRun(limits, decode, events, states) && n <= |events|
    ensures Replay(Initial(limits), Whole(decode, events, states, n)) == states[n].session
  {
    hide Trace, Replay, ClientStep, Initial;
    if n == 0 {
      ReplayOne(Initial(limits), WastesId);
    } else {
      WholeReplays(limits, decode, events, states, n - 1);
      var a, b := Whole(decode, events, states, n - 1), Trace(states[n - 1], events[n - 1], decode);
      ReplayConcat(Initial(limits), a, b);
      StepTraced(states[n - 1], events[n - 1], decode);
    }
  }

  /** The states a session passes through. */
  function Stages(s: State, es: seq<Event>): (ss: seq<State>)
    ensures |ss| == |es| + 1 && forall k :: 0 <= k <= |es| ==> ss[k] == Replay(s, es[..k])
  {
    seq(|es| + 1, k requires 0 <= k <= |es| => Replay(s, es[..k]))
  }

  lemma {:induction false} StagesRun(limits: Limits, es: seq<Event>)
    ensures Run(limits, es, Stages(Initial(limits), es))
  {
    hide Step, Initial, Replay;
    var s := Initial(limits);
    var ss := Stages(s, es);
    ReplayOne(s, WastesId);
    assert es[..0] == [];
    forall k | 0 <= k < |es| ensures ss[k + 1] == Step(ss[k], es[k]) {
      assert es[..k + 1] == es[..k] + [es[k]];
      ReplayConcat(s, es[..k], [es[k]]);
      ReplayOne(ss[k], es[k]);
    }
  }

  /** A client run is a session run at which every client state is a stage, in order: whatever holds over all
      session runs holds under every client. */
  lemma {:induction false} ClientRefinesSession(limits: Limits, decode: Frame -> Reply, events: seq<ClientEvent>,
          states: seq<Client>, i: nat, j: nat)
    returns (es: seq<Event>, ss: seq<State>, m: nat, n: nat)
    requires ClientRun(limits, decode, events, states) && i <= j <= |events|
    ensures Run(limits, es, ss) && m <= n <= |es| && ss[m] == states[i].session && ss[n] == states[j].session
  {
    hide Step, Initial, Replay, Trace, Whole, ClientStep, Run;
    es := Whole(decode, events, states, j);
    ss := Stages(Initial(limits), es);
    var part := Whole(decode, events, states, i);
    m, n := |part|, |es|;
    StagesRun(limits, es);
    WholeGrows(decode, events, states, i, j);
    assert es[..m] == part && es[..n] == es;
    WholeReplays(limits, decode, events, states, i);
    WholeReplays(limits, decode, events, states, j);
  }

  // ---------------------------------------------------------------- unsubscribing

  predicate Confirmed(s: State, id: nat, decode: Frame -> Reply) {
    id in s.outcomes && |s.outcomes[id]| == 1 && s.outcomes[id][0].Answer?
    && decode(s.outcomes[id][0].frame) == Accepted(True)
  }

  /** A clean-up request that is on its way or was confirmed. */
  predicate CleansUp(s: State, id: nat) {
    || (id in s.pending && s.pending[id].Cleanup?)
    || (id in s.outcomes && |s.outcomes[id]| == 1 && Confirms(s.outcomes[id][0]))
  }

  /** How an unsubscribe may end: closed, confirmed, or, when it was dropped, by the clean-up request `clean`. */
  predicate Over(s: State, id: nat, decode: Frame -> Reply, dropped: bool, clean: nat) {
    s.closed || Confirmed(s, id, decode) || (dropped && CleansUp(s, clean))
  }

  predicate DropsCall(e: ClientEvent, id: nat) {
    e.Drops? && e.id == id
  }

  lemma {:induction false} DiscardLeavesCleanup(s: State, sub: SubId, size: nat, env: Env)
    ensures var t := Discard(s, sub, size, env); t.closed || CleansUp(t, s.nextId)
  {
    hide FailAll, EndedSub, QueueBytes, Settled, Refusal, Finish;
  }

  lemma {:induction false} CloseCloses(s: State, fault: Fault)
    ensures Step(s, Closes(fault)).closed
  {
  }

  lemma {:induction false} NewIdHasNoCall(c: Client)
    requires ClientInv(c) && HasId(c.session)
    ensures c.session.nextId !in c.calls
  {
    hide Inv, Own;
  }

  lemma {:induction false} ForgettingKeepsId(s: State, sub: SubId)
    ensures Step(s, Forgets(sub)).nextId == s.nextId && (HasId(Step(s, Forgets(sub))) <==> HasId(s))
  {
    hide EndedSub, QueueBytes;
  }

  /** A call leaves the client only by returning or being dropped, and keeps its purpose till then. */
  lemma {:induction false} CallsStay(c: Client, e: ClientEvent, decode: Frame -> Reply, id: nat)
    requires ClientInv(c) && id in c.calls
    requires !(e.Resumes? && e.id == id) && !(e.Drops? && e.id == id)
    ensures id in ClientStep(c, e, decode).calls && ClientStep(c, e, decode).calls[id] == c.calls[id]
  {
    hide Step, ClientInv, HasId, Closing, Abort;
    if e.Calls? {
      if HasId(c.session) {
        NewIdHasNoCall(c);
      }
      if e.purpose.Unsubscribing? {
        ForgettingKeepsId(c.session, e.purpose.sub);
      }
    }
  }

  lemma {:induction false} SettledOnce(c: Client, id: nat)
    requires ClientInv(c) && id in c.session.outcomes
    ensures |c.session.outcomes[id]| == 1
  {
    hide Inv, Own, Owned;
  }

  lemma {:induction false} AbortKeepsId(s: State, id: nat, purpose: Purpose)
    ensures Abort(s, id, purpose).nextId == s.nextId
  {
    hide FailAll, EndedSub, Confirms, Settled;
  }

  /** The step in which an unsubscribe ends. */
  lemma {:induction false} UnsubscribeStep(c: Client, e: ClientEvent, decode: Frame -> Reply, id: nat)
    requires ClientInv(c) && id in c.calls && c.calls[id].Unsubscribing?
    requires id !in ClientStep(c, e, decode).calls
    ensures Over(ClientStep(c, e, decode).session, id, decode, DropsCall(e, id), c.session.nextId)
  {
    hide Step, ClientInv, Call, Abort, CleansUp;
    if !(e.Resumes? && e.id == id) && !DropsCall(e, id) {
      CallsStay(c, e, decode, id);
    } else if e.Resumes? {
      CloseCloses(c.session, Closed);
      SettledOnce(c, id);
    } else {
      var s, sub := Abort(c.session, id, c.calls[id]), c.calls[id].sub;
      DiscardIsStep(s, sub, e.size, e.env);
      DiscardLeavesCleanup(s, sub, e.size, e.env);
      AbortKeepsId(c.session, id, c.calls[id]);
    }
  }

  lemma {:induction false} DiscardIsStep(s: State, sub: SubId, size: nat, env: Env)
    ensures Step(s, Discards(sub, size, env)) == Discard(s, sub, size, env)
  {
  }

  /** A request that is pending twice was pending all the time, for the same purpose. */
  lemma {:induction false} PendingThroughout(limits: Limits, es: seq<Event>, ss: seq<State>, m: nat, n: nat, id: nat)
    requires Run(limits, es, ss) && m <= n <= |es| && id in ss[m].pending && id in ss[n].pending
    ensures ss[n].pending[id] == ss[m].pending[id]
    decreases n - m
  {
    hide Step, Inv;
    RunInvariants(limits, es, ss, m);
    RunInvariants(limits, es, ss, n);
    if m == n {
    } else if id in ss[m + 1].pending {
      PendingKeepsKind(ss[m], es[m], id);
      PendingThroughout(limits, es, ss, m + 1, n, id);
    } else {
      SettlingStep(ss[m], es[m], id);
      SettlesOnce(limits, es, ss, m + 1, n, id);
    }
  }

  lemma {:induction false} CleanupStays(limits: Limits, es: seq<Event>, ss: seq<State>, m: nat, n: nat, clean: nat)
    requires Run(limits, es, ss) && m <= n <= |es| && CleansUp(ss[m], clean)
    ensures ss[n].closed || CleansUp(ss[n], clean)
  {
    hide Step, Inv, Once, Own, Confirms;
    RunInvariants(limits, es, ss, m);
    PendingIsUnsettled(ss[m], clean);
    if clean !in ss[m].pending {
      SettlesOnce(limits, es, ss, m, n, clean);
    } else if clean in ss[n].pending {
      PendingThroughout(limits, es, ss, m, n, clean);
    } else {
      FailedSubscribeCloses(limits, es, ss, m, n, clean);
    }
  }

  /** What an unsubscribe ended with stays true, but for a clean-up that settles: it confirms or closes. */
  lemma {:induction false} OverStays(limits: Limits, es: seq<Event>, ss: seq<State>, m: nat, n: nat, id: nat,
          decode: Frame -> Reply, dropped: bool, clean: nat)
    requires Run(limits, es, ss) && m <= n <= |es| && Over(ss[m], id, decode, dropped, clean)
    ensures Over(ss[n], id, decode, dropped, clean)
  {
    hide Step, Inv, Once, Own, CleansUp;
    if ss[m].closed {
      ClosedSettlesAll(limits, es, ss, m, n);
    } else if Confirmed(ss[m], id, decode) {
      SettlesOnce(limits, es, ss, m, n, id);
    } else {
      CleanupStays(limits, es, ss, m, n, clean);
    }
  }

  /** Over every client run: once an explicit unsubscribe has returned or was dropped, the session is closed,
      the node confirmed it, or the drop left a clean-up request that is on its way or was confirmed. */
  lemma {:induction false} UnsubscribeCompletes(limits: Limits, decode: Frame -> Reply, events: seq<ClientEvent>,
          states: seq<Client>, i: nat, j: nat, id: nat)
    requires ClientRun(limits, decode, events, states) && i <= j <= |events|
    requires id in states[i].calls && states[i].calls[id].Unsubscribing? && id !in states[j].calls
    ensures exists k :: i <= k < j
                        && Over(states[j].session, id, decode, DropsCall(events[k], id), states[k].session.nextId)
    decreases j - i
  {
    hide ClientStep, ClientInv, Over;
    ClientRunInvariants(limits, decode, events, states, i);
    var e := events[i];
    if id !in states[i + 1].calls {
      UnsubscribeStep(states[i], e, decode, id);
      var es, ss, m, n := ClientRefinesSession(limits, decode, events, states, i + 1, j);
      OverStays(limits, es, ss, m, n, id, decode, DropsCall(e, id), states[i].session.nextId);
    } else {
      CallStays(states[i], e, decode, id);
      UnsubscribeCompletes(limits, decode, events, states, i + 1, j, id);
    }
  }

  lemma {:induction false} CallStays(c: Client, e: ClientEvent, decode: Frame -> Reply, id: nat)
    requires ClientInv(c) && id in c.calls && id in ClientStep(c, e, decode).calls
    ensures ClientStep(c, e, decode).calls[id] == c.calls[id]
  {
    hide Step, ClientInv, Call, Closing, Abort;
    if !(e.Resumes? && e.id == id) && !(e.Drops? && e.id == id) {
      CallsStay(c, e, decode, id);
    }
  }

  /** Making the call: the subscription is gone at once, and the call awaits its reply or the session is closed. */
  lemma {:induction false} UnsubscribeBegins(c: Client, sub: SubId, size: nat, env: Env, encodes: bool)
    requires ClientInv(c)
    ensures var d := Call(c, Unsubscribing(sub), size, env, encodes);
            && sub !in d.session.subs
            && (d.session.closed || (c.session.nextId in d.calls && d.calls[c.session.nextId] == Unsubscribing(sub)))
  {
    hide Step, ClientInv, HasId;
    ForgettingKeepsId(c.session, sub);
    var s := Step(c.session, Forgets(sub));
    ForgottenIsGone(c.session, sub);
    QuietKeepsGone(s, sub, size, env);
    CloseCloses(s, Closed);
    CloseCloses(Step(s, WastesId), Closed);
  }

  lemma {:induction false} ForgottenIsGone(s: State, sub: SubId)
    ensures sub !in Step(s, Forgets(sub)).subs
  {
    hide EndedSub, QueueBytes;
  }

  lemma {:induction false} QuietKeepsGone(s: State, sub: SubId, size: nat, env: Env)
    requires sub !in s.subs
    ensures sub !in Step(s, Closes(Closed)).subs && sub !in Step(s, WastesId).subs
    ensures sub !in Step(Step(s, WastesId), Closes(Closed)).subs
    ensures sub !in Step(s, Sends(size, false, env)).subs
  {
    hide FailAll, EndedSub, Settled, Refusal, Finish;
    if HasId(s) {
      var made := TakeId(s).(requested := s.requested + {s.nextId});
      FinishKeepsSubs(Enter(made, s.nextId, Plain), s.nextId, Failed(Closed), sub);
    }
  }
}
