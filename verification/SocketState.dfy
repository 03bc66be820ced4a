/** The browser WebSocket session as a state machine (socket.js): pending requests, subscriptions
    with bounded queues, waiters, unacknowledged deliveries, cancellation and close. Each function
    is the effect of one entry point or event; `log`, `requested` and `outcomes` are the history. */
module SocketState {
  import opened ByteStrings

  type SubId = string

  datatype Fault =
    | Closed | Cancelled | Timeout | Invalid | ResponseSize | RequestSize | Busy
    | SubscriptionClosed | Lagged | IdExhausted

  /** What a reply's `result` member holds, as far as the session looks at it. */
  datatype Value = Text(text: SubId) | True | Other

  /** A parsed frame; an `id` that is not a positive safe integer is represented by 0. */
  datatype Body = Garbage | Reply(id: nat, isError: bool, result: Value) | Notice(sub: SubId)
  datatype Frame = Frame(text: string, size: nat, body: Body)

  datatype Kind = Plain | Subscribe | Cleanup
  datatype Outcome = Failed(fault: Fault) | Answer(frame: Frame)

  datatype Sub = Sub(queue: seq<Frame>, waiter: bool, error: Option<Fault>, delivery: Option<Frame>)
  datatype Log = Log(received: seq<Frame>, acknowledged: seq<Frame>)

  datatype Limits = Limits(
    maxBytes: nat, maxRequest: nat, maxFlight: nat, maxSubs: nat, maxQueue: nat, maxQueuedBytes: nat)

  /** What the browser contributes to one request: buffered bytes, an aborted signal, a throwing send. */
  datatype Env = Env(buffered: nat, aborted: bool, sends: bool)

  datatype State = State(
    limits: Limits, closed: bool, nextId: nat,
    pending: map<nat, Kind>, pendingSubs: int,
    subs: map<SubId, Sub>, queuedBytes: int,
    log: map<SubId, Log>, requested: set<nat>, outcomes: map<nat, seq<Outcome>>)

  const MAX_SAFE_INTEGER: nat := 0x1F_FFFF_FFFF_FFFF

  // ---------------------------------------------------------------- measures

  function QueueBytes(q: seq<Frame>): nat {
    if q == [] then 0 else q[0].size + QueueBytes(q[1..])
  }

  ghost function Total(subs: map<SubId, Sub>): nat {
    if subs == map[] then 0
    else
      var k :| k in subs;
      QueueBytes(subs[k].queue) + Total(subs - {k})
  }

  function Subscribes(pending: map<nat, Kind>): set<nat> {
    set id | id in pending && pending[id].Subscribe?
  }

  function InFlight(d: Option<Frame>): seq<Frame> {
    if d.Some? then [d.value] else []
  }

  function OutcomesOf(outcomes: map<nat, seq<Outcome>>, id: nat): seq<Outcome> {
    if id in outcomes then outcomes[id] else []
  }

  function Settled(outcomes: map<nat, seq<Outcome>>, id: nat, r: Outcome): map<nat, seq<Outcome>> {
    outcomes[id := OutcomesOf(outcomes, id) + [r]]
  }

  predicate IsHexDigit(c: char) {
    '0' <= c <= '9' || 'a' <= c <= 'f' || 'A' <= c <= 'F'
  }

  predicate IsSubId(id: SubId) {
    3 <= |id| <= 130 && id[..2] == "0x" && forall i :: 2 <= i < |id| ==> IsHexDigit(id[i])
  }

  // ---------------------------------------------------------------- invariant

  predicate GoodSub(limits: Limits, sub: Sub) {
    && |sub.queue| <= limits.maxQueue
    && (sub.waiter ==> sub.queue == [] && sub.delivery.None?)
    && (sub.error.Some? ==> sub.queue == [] && !sub.waiter && sub.delivery.None?)
  }

  /** Acknowledged notifications are a prefix of the received ones, and nothing is missing without an error. */
  predicate Tracks(log: Log, sub: Sub) {
    && log.acknowledged <= log.received
    && (sub.error.None? ==> log.received == log.acknowledged + InFlight(sub.delivery) + sub.queue)
  }

  predicate GoodSubs(limits: Limits, subs: map<SubId, Sub>, log: map<SubId, Log>) {
    && log.Keys == subs.Keys
    && forall id :: id in subs ==> GoodSub(limits, subs[id]) && Tracks(log[id], subs[id])
  }

  predicate GoodPending(limits: Limits, nextId: nat, pending: map<nat, Kind>, pendingSubs: int) {
    && pendingSubs == |Subscribes(pending)|
    && |pending| <= limits.maxFlight
    && (forall id :: id in pending ==> 0 < id < nextId)
  }

  predicate Ended(subs: map<SubId, Sub>) {
    forall id :: id in subs ==> subs[id].error.Some?
  }

  ghost predicate Inv(s: State) {
    && GoodPending(s.limits, s.nextId, s.pending, s.pendingSubs)
    && GoodSubs(s.limits, s.subs, s.log)
    && s.queuedBytes == Total(s.subs) && s.queuedBytes <= s.limits.maxQueuedBytes
    && |s.subs| + s.pendingSubs <= s.limits.maxSubs
    && (s.closed ==> s.pending == map[] && Ended(s.subs))
  }

  /** Every request made is either pending or settled, once, with an error or a frame carrying its own id. */
  ghost predicate Ledger(nextId: nat, pending: set<nat>, requested: set<nat>, outcomes: map<nat, seq<Outcome>>) {
    && pending <= requested
    && outcomes.Keys == requested - pending
    && (forall id :: id in requested ==> 0 < id < nextId)
    && (forall id :: id in outcomes ==> |outcomes[id]| == 1 && Own(id, outcomes[id][0]))
  }

  ghost predicate Once(s: State) {
    0 < s.nextId && Ledger(s.nextId, s.pending.Keys, s.requested, s.outcomes)
  }

  predicate Own(id: nat, r: Outcome) {
    r.Failed? || (r.frame.body.Reply? && r.frame.body.id == id)
  }

  // ---------------------------------------------------------------- transitions

  function EndedSub(sub: Sub, fault: Fault): Sub {
    if sub.error.Some? then sub.(delivery := None) else Sub([], false, Some(fault), None)
  }

  function EndSub(s: State, id: SubId, fault: Fault): State
    requires id in s.subs
  {
    var sub := s.subs[id];
    s.(subs := s.subs[id := EndedSub(sub, fault)],
       queuedBytes := s.queuedBytes - (if sub.error.Some? then 0 else QueueBytes(sub.queue)))
  }

  /** Closing settles every pending request with the error and ends every subscription with it. */
  function Close(s: State, fault: Fault): (t: State)
    ensures t.requested == s.requested && t.closed
  {
    if s.closed then s
    else s.(closed := true, pending := map[], pendingSubs := 0, queuedBytes := 0,
            subs := map id | id in s.subs :: EndedSub(s.subs[id], fault),
            outcomes := FailAll(s.outcomes, s.pending.Keys, fault))
  }

  function FailAll(outcomes: map<nat, seq<Outcome>>, ids: set<nat>, fault: Fault): map<nat, seq<Outcome>> {
    map id | id in outcomes.Keys + ids :: OutcomesOf(outcomes, id) + (if id in ids then [Failed(fault)] else [])
  }

  function Remove(s: State, id: nat): State
    requires id in s.pending
  {
    s.(pending := s.pending - {id}, pendingSubs := s.pendingSubs - (if s.pending[id].Subscribe? then 1 else 0))
  }

  function Record(s: State, id: nat, r: Outcome): State {
    s.(outcomes := Settled(s.outcomes, id, r))
  }

  /** Only the `result` member of the reply is looked at. */
  predicate Confirms(r: Outcome) {
    r.Answer? && r.frame.body.Reply? && r.frame.body.result.True?
  }

  /** A request is answered, cancelled, timed out or fails: it settles, and a failed subscribe or an
      unconfirmed clean-up takes the session down. */
  function Finish(s: State, id: nat, r: Outcome): (t: State)
    requires id in s.pending
    ensures t.requested == s.requested
  {
    var kind := s.pending[id];
    var rest := Remove(s, id);
    if kind.Subscribe? && r.Failed? then Record(Close(rest, r.fault), id, r)
    else if kind.Cleanup? && !Confirms(r) then Close(Record(rest, id, r), Closed)
    else Record(rest, id, r)
  }

  function Register(s: State, id: SubId): State {
    s.(subs := s.subs[id := Sub([], false, None, None)], log := s.log[id := Log([], [])])
  }

  function LogOf(log: map<SubId, Log>, id: SubId): Log {
    if id in log then log[id] else Log([], [])
  }

  function Receive(s: State, id: SubId, f: Frame): State {
    s.(log := s.log[id := LogOf(s.log, id).(received := LogOf(s.log, id).received + [f])])
  }

  function Notify(s: State, id: SubId, f: Frame): (t: State)
    ensures t.requested == s.requested && t.pending == s.pending
  {
    if id !in s.subs then s
    else
      var heard := Receive(s, id, f);
      var sub := s.subs[id];
      if sub.error.Some? then heard
      else if sub.waiter then heard.(subs := s.subs[id := sub.(waiter := false, delivery := Some(f))])
      else if |sub.queue| >= s.limits.maxQueue || f.size > s.limits.maxQueuedBytes - s.queuedBytes
        then EndSub(heard, id, Lagged)
      else heard.(subs := s.subs[id := sub.(queue := sub.queue + [f])], queuedBytes := s.queuedBytes + f.size)
  }

  function Answered(s: State, f: Frame): (t: State)
    requires f.body.Reply?
    ensures t.requested == s.requested
  {
    var id := f.body.id;
    if !(0 < id < s.nextId) then Close(s, Invalid)
    else if id !in s.pending then s
    else if s.pending[id].Subscribe? && !f.body.isError then
      if !f.body.result.Text? || !IsSubId(f.body.result.text) || f.body.result.text in s.subs then Close(s, Invalid)
      else Finish(Register(s, f.body.result.text), id, Answer(f))
    else Finish(s, id, Answer(f))
  }

  function OnMessage(s: State, f: Frame): (t: State)
    ensures t.requested == s.requested
  {
    if s.closed then s
    else if f.size > s.limits.maxBytes then Close(s, ResponseSize)
    else
      match f.body
      case Garbage => Close(s, Invalid)
      case Reply(_, _, _) => Answered(s, f)
      case Notice(id) => Notify(s, id, f)
  }

  /** The error a request is refused with before anything is sent. */
  function Refusal(s: State, id: nat, size: nat, kind: Kind, env: Env): Option<Fault> {
    if s.closed then Some(Closed)
    else if env.aborted then Some(Cancelled)
    else if size > s.limits.maxRequest then Some(RequestSize)
    else if size > s.limits.maxRequest * s.limits.maxFlight - env.buffered then Some(Busy)
    else if |s.pending| >= s.limits.maxFlight || (kind.Subscribe?
      && |s.subs| + s.pendingSubs >= s.limits.maxSubs) then Some(Busy)
    else if !(0 < id < s.nextId) || id in s.pending then Some(Invalid)
    else None
  }

  function Enter(s: State, id: nat, kind: Kind): State {
    s.(pending := s.pending[id := kind], pendingSubs := s.pendingSubs + (if kind.Subscribe? then 1 else 0))
  }

  function Request(s: State, id: nat, size: nat, kind: Kind, env: Env): (t: State)
    ensures s.requested <= t.requested
  {
    var made := s.(requested := s.requested + {id});
    match Refusal(s, id, size, kind, env)
    case Some(fault) =>
      var failed := Record(made, id, Failed(fault));
      if kind.Cleanup? then Close(failed, Closed) else failed
    case None =>
      if env.sends then Enter(made, id, kind) else Close(Finish(Enter(made, id, kind), id, Failed(Closed)), Closed)
  }

  predicate HasId(s: State) {
    !s.closed && s.nextId <= MAX_SAFE_INTEGER
  }

  function TakeId(s: State): State {
    s.(nextId := s.nextId + 1)
  }

  /** The client draws an id and uses it for one request at once (socket.rs). */
  function Send(s: State, size: nat, kind: Kind, env: Env): (t: State)
    ensures s.requested <= t.requested
  {
    if HasId(s) then Request(TakeId(s), s.nextId, size, kind, env) else s
  }

  datatype NextResult = Refused(fault: Fault) | Handed(frame: Frame) | Waiting

  function NextOf(s: State, id: SubId, aborted: bool): NextResult {
    if s.closed then Refused(Closed)
    else if id !in s.subs then Refused(SubscriptionClosed)
    else if s.subs[id].error.Some? then Refused(s.subs[id].error.value)
    else if aborted then Refused(Cancelled)
    else if s.subs[id].waiter || s.subs[id].delivery.Some? then Refused(Busy)
    else if s.subs[id].queue != [] then Handed(s.subs[id].queue[0])
    else Waiting
  }

  function Next(s: State, id: SubId, aborted: bool): (t: State)
    ensures t.requested == s.requested && t.pending == s.pending
  {
    match NextOf(s, id, aborted)
    case Refused(_) => s
    case Handed(f) =>
      var sub := s.subs[id];
      s.(subs := s.subs[id := sub.(queue := sub.queue[1..], delivery := Some(f))],
         queuedBytes := s.queuedBytes - f.size)
    case Waiting => s.(subs := s.subs[id := s.subs[id].(waiter := true)])
  }

  /** A waiting call times out or is cancelled before anything was delivered. */
  function StopWaiting(s: State, id: SubId): State {
    if id in s.subs && s.subs[id].waiter then s.(subs := s.subs[id := s.subs[id].(waiter := false)]) else s
  }

  /** The caller goes away after delivery and before acknowledgement. */
  function AbandonDelivery(s: State, id: SubId): State {
    if id in s.subs && s.subs[id].delivery.Some? then EndSub(s, id, Lagged) else s
  }

  function Acknowledge(s: State, id: SubId): State {
    if id !in s.subs || s.subs[id].error.Some? || s.subs[id].delivery.None? then s
    else
      var log := LogOf(s.log, id);
      s.(subs := s.subs[id := s.subs[id].(delivery := None)],
         log := s.log[id := log.(acknowledged := log.acknowledged + [s.subs[id].delivery.value])])
  }

  function Forget(s: State, id: SubId): State {
    if id !in s.subs then s
    else
      var t := EndSub(s, id, SubscriptionClosed);
      t.(subs := t.subs - {id}, log := t.log - {id})
  }

  /** Dropping a subscription unsubscribes remotely, or closes the session when that cannot be queued. */
  function Discard(s: State, id: SubId, size: nat, env: Env): (t: State)
    ensures s.requested <= t.requested
  {
    var rest := Forget(s, id);
    if rest.closed then rest
    else if |rest.pending| >= rest.limits.maxFlight || !HasId(rest) then Close(rest, Closed)
    else Send(rest, size, Cleanup, env)
  }

  // ---------------------------------------------------------------- runs

  datatype Event =
    | Incoming(frame: Frame)
    | Sends(size: nat, subscribe: bool, env: Env)
    | WastesId
    | RequestEnds(request: nat, fault: Fault)
    | NextCall(sub: SubId, aborted: bool)
    | WaitEnds(sub: SubId)
    | Abandons(sub: SubId)
    | Acknowledges(sub: SubId)
    | Forgets(sub: SubId)
    | Discards(sub: SubId, size: nat, env: Env)
    | Closes(fault: Fault)

  function Step(s: State, e: Event): (t: State)
    ensures s.requested <= t.requested
  {
    match e
    case Incoming(f) => OnMessage(s, f)
    case Sends(size, subscribe, env) => Send(s, size, if subscribe then Subscribe else Plain, env)
    case WastesId => if HasId(s) then TakeId(s) else s
    case RequestEnds(id, fault) => if id in s.pending then Finish(s, id, Failed(fault)) else s
    case NextCall(id, aborted) => Next(s, id, aborted)
    case WaitEnds(id) => StopWaiting(s, id)
    case Abandons(id) => AbandonDelivery(s, id)
    case Acknowledges(id) => Acknowledge(s, id)
    case Forgets(id) => Forget(s, id)
    case Discards(id, size, env) => Discard(s, id, size, env)
    case Closes(fault) => Close(s, fault)
  }

  function Initial(limits: Limits): State {
    State(limits, false, 1, map[], 0, map[], 0, map[], {}, map[])
  }

  /** `states` is a run of the session over `events`. */
  ghost predicate Run(limits: Limits, events: seq<Event>, states: seq<State>) {
    && |states| == |events| + 1 && states[0] == Initial(limits)
    && forall i :: 0 <= i < |events| ==> states[i + 1] == Step(states[i], events[i])
  }
}
