/** Payment channels (channel.rs): a bounded, resumable search for matching addresses, and the cursors
    per direction and zone that make sure no index is handed out twice. */
module PaymentChannel {
  import opened ByteStrings

  const HARDENED_INDEX: nat := 0x8000_0000
  const MAX_SEARCH_ATTEMPTS: nat := 100_000

  datatype Direction = Sending | Receiving

  datatype PaymentKey = PaymentKey(point: seq<byte>, address: seq<byte>)

  /** The private payment code: its identity and the child keys shared with the peer, where derivation
      succeeds. */
  datatype Owner = Owner(account: nat, code: seq<byte>, derive: (Direction, nat) -> Option<PaymentKey>)

  datatype Found = Found(key: PaymentKey, index: nat, attempts: nat, next: Option<nat>)

  datatype PaymentError =
    | InvalidIndex | Limit | Derivation | OwnerMismatch
    | Cancelled(attempts: nat, next: Option<nat>)
    | Exhausted(attempts: nat, next: Option<nat>)

  // ---------------------------------------------------------------- zones

  type Zone = b: byte | b / 16 < 3 && b % 16 < 3 witness 0

  function ZoneIndex(z: Zone): (i: nat)
    ensures i < 9
  {
    var region: nat, zone: nat := z / 16, z % 16;
    region * 3 + zone
  }

  /** Different zones have different cursors. */
  lemma {:induction false} ZoneIndexInjective(a: Zone, b: Zone)
    requires ZoneIndex(a) == ZoneIndex(b)
    ensures a == b
  {
    assert a == 16 * (a / 16) + a % 16 && b == 16 * (b / 16) + b % 16;
  }

  // ---------------------------------------------------------------- search

  /** A Qi address of the zone. */
  predicate InZone(key: PaymentKey, z: Zone) {
    |key.address| == 20 && key.address[1] >= 0x80 && key.address[0] == z
  }

  predicate Match(o: Owner, d: Direction, z: Zone, i: nat) {
    o.derive(d, i).Some? && InZone(o.derive(d, i).value, z)
  }

  /** Examined and found not to match. */
  predicate Miss(o: Owner, d: Direction, z: Zone, i: nat) {
    o.derive(d, i).Some? && !InZone(o.derive(d, i).value, z)
  }

  function NextIndex(i: nat): Option<nat> {
    if i + 1 < HARDENED_INDEX then Some(i + 1) else None
  }

  /** `cancelAt` is the number of polls after which the caller asks to stop. */
  function SearchFrom(o: Owner, d: Direction, z: Zone, index: nat, attempts: nat, max: nat,
          cancelAt: Option<nat>): Result<Found, PaymentError>
    decreases max - attempts
  {
    if attempts >= max then Err(Exhausted(max, Some(index)))
    else if cancelAt == Some(attempts) then Err(Cancelled(attempts, Some(index)))
    else
      match o.derive(d, index)
      case None => Err(Derivation)
      case Some(key) =>
        if InZone(key, z) then Ok(Found(key, index, attempts + 1, NextIndex(index)))
        else if NextIndex(index).None? then Err(Exhausted(attempts + 1, None))
        else SearchFrom(o, d, z, index + 1, attempts + 1, max, cancelAt)
  }

  function SearchResult(o: Owner, d: Direction, z: Zone, start: nat, max: nat, cancelAt: Option<nat>): Result<Found,
          PaymentError> {
    if start >= HARDENED_INDEX then Err(InvalidIndex)
    else if max == 0 || max > MAX_SEARCH_ATTEMPTS then Err(Limit)
    else SearchFrom(o, d, z, start, 0, max, cancelAt)
  }

  /** The end of the index space stands for "none left". */
  function Bound(next: Option<nat>): nat {
    if next.Some? then next.value else HARDENED_INDEX
  }

  ghost predicate AllMiss(o: Owner, d: Direction, z: Zone, from: nat, to: nat) {
    forall i: nat :: from <= i < to ==> Miss(o, d, z, i)
  }

  /** What a search that began at `start` may report. */
  ghost predicate Reports(o: Owner, d: Direction, z: Zone, start: nat, max: nat, cancelAt: Option<nat>,
          r: Result<Found, PaymentError>) {
    match r
    case Ok(f) =>
      && start <= f.index < HARDENED_INDEX && f.attempts == f.index - start + 1 <= max
      && Match(o, d, z, f.index) && o.derive(d, f.index) == Some(f.key) && AllMiss(o, d, z, start, f.index)
      && f.next == NextIndex(f.index)
    case Err(Cancelled(a, next)) =>
      next == Some(start + a) && start + a < HARDENED_INDEX && cancelAt == Some(a) && AllMiss(o, d, z, start, start + a)
    case Err(Exhausted(a, next)) =>
      && Bound(next) == start + a <= HARDENED_INDEX && AllMiss(o, d, z, start, start + a)
      && (next.Some? ==> a == max && next.value < HARDENED_INDEX)
    case Err(Derivation) =>
      exists i: nat ::
        start <= i < HARDENED_INDEX && i - start < max && o.derive(d, i).None? && AllMiss(o, d, z, start, i)
    case Err(_) => false
  }

  lemma {:induction false} SearchReports(o: Owner, d: Direction, z: Zone, start: nat, index: nat, max: nat,
          cancelAt: Option<nat>)
    requires start <= index < HARDENED_INDEX && index - start <= max && AllMiss(o, d, z, start, index)
    ensures Reports(o, d, z, start, max, cancelAt, SearchFrom(o, d, z, index, index - start, max, cancelAt))
    decreases max - (index - start)
  {
    hide InZone;
    if index - start < max && cancelAt != Some(index - start) && Miss(o, d, z, index) && NextIndex(index).Some? {
      SearchReports(o, d, z, start, index + 1, max, cancelAt);
    }
  }

  /** A successful search returns the least match from where it began. */
  lemma {:induction false} LeastMatch(o: Owner, d: Direction, z: Zone, start: nat, max: nat, cancelAt: Option<nat>)
    requires SearchResult(o, d, z, start, max, cancelAt).Ok?
    ensures var f := SearchResult(o, d, z, start, max, cancelAt).value;
            Match(o, d, z, f.index) && start <= f.index && forall i: nat :: start <= i < f.index ==> !Match(o, d, z, i)
  {
    hide SearchFrom, InZone;
    SearchReports(o, d, z, start, start, max, cancelAt);
    var f := SearchResult(o, d, z, start, max, cancelAt).value;
    forall i: nat | start <= i < f.index ensures !Match(o, d, z, i) {
      assert Miss(o, d, z, i);
    }
  }

  /** The same report with `done` more attempts made before it. */
  function Later(r: Result<Found, PaymentError>, done: nat): Result<Found, PaymentError> {
    match r
    case Ok(f) => Ok(f.(attempts := f.attempts + done))
    case Err(Cancelled(a, next)) => Err(Cancelled(a + done, next))
    case Err(Exhausted(a, next)) => Err(Exhausted(a + done, next))
    case Err(e) => Err(e)
  }

  function Delayed(cancelAt: Option<nat>, done: nat): Option<nat> {
    if cancelAt.Some? then Some(cancelAt.value + done) else None
  }

  lemma {:induction false} SearchShifts(o: Owner, d: Direction, z: Zone, index: nat, attempts: nat, max: nat,
          cancelAt: Option<nat>, done: nat)
    ensures SearchFrom(o, d, z, index, attempts + done, max + done, Delayed(cancelAt, done))
            == Later(SearchFrom(o, d, z, index, attempts, max, cancelAt), done)
    decreases max - attempts
  {
    hide InZone;
    if attempts >= max || cancelAt == Some(attempts) || !Miss(o, d, z, index) || NextIndex(index).None? {
    } else {
      SearchShifts(o, d, z, index + 1, attempts + 1, max, cancelAt, done);
    }
  }

  /** The search stopped early and says where to go on. */
  predicate Interrupted(r: Result<Found, PaymentError>) {
    r.Err? && (r.error.Cancelled? || r.error.Exhausted?) && r.error.next.Some?
  }

  /** A search whose interruption comes later passes through the point where this one stopped. */
  lemma {:induction false} PassesThrough(o: Owner, d: Direction, z: Zone, start: nat, attempts: nat, max: nat,
          cancelAt: Option<nat>, longer: nat, later: Option<nat>)
    requires attempts <= max && Interrupted(SearchFrom(o, d, z, start, attempts, max, cancelAt))
    requires var done := SearchFrom(o, d, z, start, attempts, max, cancelAt).error.attempts;
            done <= longer && (later.Some? ==> done <= later.value)
    ensures var stop := SearchFrom(o, d, z, start, attempts, max, cancelAt).error;
            && attempts <= stop.attempts <= max
            && SearchFrom(o, d, z, start, attempts, longer, later)
               == SearchFrom(o, d, z, stop.next.value, stop.attempts, longer, later)
    decreases max - attempts
  {
    hide InZone;
    if attempts == max || cancelAt == Some(attempts) {
    } else {
      PassesThrough(o, d, z, start + 1, attempts + 1, max, cancelAt, longer, later);
    }
  }

  /** Calling again where an interrupted search stopped gives what one longer search would have given, its
      attempts counted from there; this holds however the second call ends. */
  lemma {:induction false} Resumes(o: Owner, d: Direction, z: Zone, start: nat, max: nat, cancelAt: Option<nat>,
          more: nat, cancelAgain: Option<nat>)
    requires Interrupted(SearchResult(o, d, z, start, max, cancelAt))
    requires 0 < more && SearchResult(o, d, z, start, max, cancelAt).error.attempts + more <= MAX_SEARCH_ATTEMPTS
    ensures var stop := SearchResult(o, d, z, start, max, cancelAt).error;
            && stop.next.value == start + stop.attempts
            && SearchResult(o, d, z, start, stop.attempts + more, Delayed(cancelAgain, stop.attempts))
               == Later(SearchResult(o, d, z, stop.next.value, more, cancelAgain), stop.attempts)
  {
    hide SearchFrom, InZone;
    var stop := SearchResult(o, d, z, start, max, cancelAt).error;
    SearchReports(o, d, z, start, start, max, cancelAt);
    PassesThrough(o, d, z, start, 0, max, cancelAt, stop.attempts + more, Delayed(cancelAgain, stop.attempts));
    SearchShifts(o, d, z, stop.next.value, 0, more, cancelAgain, stop.attempts);
  }

  method Search(o: Owner, d: Direction, z: Zone, start: nat, max: nat, cancelAt: Option<nat>)
    returns (r: Result<Found, PaymentError>)
    ensures r == SearchResult(o, d, z, start, max, cancelAt)
    ensures start < HARDENED_INDEX && 0 < max <= MAX_SEARCH_ATTEMPTS ==> Reports(o, d, z, start, max, cancelAt, r)
  {
    hide InZone, Reports;
    if start >= HARDENED_INDEX {
      return Err(InvalidIndex);
    }
    if max == 0 || max > MAX_SEARCH_ATTEMPTS {
      return Err(Limit);
    }
    SearchReports(o, d, z, start, start, max, cancelAt);
    var index, attempts := start, 0;
    while attempts < max
      invariant attempts <= max && index == start + attempts < HARDENED_INDEX
      invariant SearchFrom(o, d, z, index, attempts, max, cancelAt) == SearchFrom(o, d, z, start, 0, max, cancelAt)
    {
      if cancelAt == Some(attempts) {
        return Err(Cancelled(attempts, Some(index)));
      }
      var derived := o.derive(d, index);
      if derived.None? {
        return Err(Derivation);
      }
      var next := NextIndex(index);
      if InZone(derived.value, z) {
        return Ok(Found(derived.value, index, attempts + 1, next));
      }
      if next.None? {
        return Err(Exhausted(attempts + 1, None));
      }
      index, attempts := next.value, attempts + 1;
    }
    return Err(Exhausted(max, Some(index)));
  }

  // ---------------------------------------------------------------- cursors

  datatype Cursors = Cursors(send: seq<Option<nat>>, receive: seq<Option<nat>>)

  predicate GoodCursors(c: Cursors) {
    && |c.send| == 9 && |c.receive| == 9
    && (forall i :: 0 <= i < 9 ==> Bounded(c.send[i]) && Bounded(c.receive[i]))
  }

  predicate Bounded(next: Option<nat>) {
    next.Some? ==> next.value < HARDENED_INDEX
  }

  function Cursor(c: Cursors, d: Direction, z: Zone): Option<nat>
    requires GoodCursors(c)
  {
    match d
    case Sending => c.send[ZoneIndex(z)]
    case Receiving => c.receive[ZoneIndex(z)]
  }

  function Moved(c: Cursors, d: Direction, z: Zone, next: Option<nat>): (r: Cursors)
    requires GoodCursors(c) && Bounded(next)
    ensures GoodCursors(r)
  {
    match d
    case Sending => c.(send := c.send[ZoneIndex(z) := next])
    case Receiving => c.(receive := c.receive[ZoneIndex(z) := next])
  }

  lemma {:induction false} MovedMeaning(c: Cursors, d: Direction, z: Zone, next: Option<nat>, d': Direction, z': Zone)
    requires GoodCursors(c) && Bounded(next)
    ensures Cursor(Moved(c, d, z, next), d', z') == if d == d' && z == z' then next else Cursor(c, d', z')
  {
    if ZoneIndex(z) == ZoneIndex(z') {
      ZoneIndexInjective(z, z');
    }
  }

  /** Cursors are ordered by what is still left; "none left" comes last. */
  predicate NotBack(a: Option<nat>, b: Option<nat>) {
    b.None? || (a.Some? && a.value <= b.value)
  }

  function ReserveResult(c: Cursors, o: Owner, rightful: bool, d: Direction, z: Zone, max: nat,
          cancelAt: Option<nat>): Result<Found, PaymentError>
    requires GoodCursors(c)
  {
    if !rightful then Err(OwnerMismatch)
    else if Cursor(c, d, z).None? then Err(Exhausted(0, None))
    else SearchResult(o, d, z, Cursor(c, d, z).value, max, cancelAt)
  }

  /** Where the cursor goes after a search, if it moves at all. */
  function Progress(r: Result<Found, PaymentError>): Option<Option<nat>> {
    match r
    case Ok(f) => Some(f.next)
    case Err(Cancelled(_, next)) => Some(next)
    case Err(Exhausted(_, next)) => Some(next)
    case Err(_) => None
  }

  lemma {:induction false} ProgressIsForward(c: Cursors, o: Owner, rightful: bool, d: Direction, z: Zone, max: nat,
          cancelAt: Option<nat>)
    requires GoodCursors(c)
    ensures var p := Progress(ReserveResult(c, o, rightful, d, z, max, cancelAt)); p.Some? ==>
            Bounded(p.value) && NotBack(Cursor(c, d, z), p.value)
  {
    hide SearchFrom, InZone;
    var start := Cursor(c, d, z);
    if rightful && start.Some? && 0 < max <= MAX_SEARCH_ATTEMPTS {
      SearchReports(o, d, z, start.value, start.value, max, cancelAt);
    }
  }

  function AfterReserve(c: Cursors, o: Owner, rightful: bool, d: Direction, z: Zone, max: nat,
          cancelAt: Option<nat>): (r: Cursors)
    requires GoodCursors(c)
    ensures GoodCursors(r)
  {
    ProgressIsForward(c, o, rightful, d, z, max, cancelAt);
    match Progress(ReserveResult(c, o, rightful, d, z, max, cancelAt))
    case None => c
    case Some(next) => if rightful then Moved(c, d, z, next) else c
  }

  function AdvanceError(c: Cursors, rightful: bool, d: Direction, z: Zone, next: Option<nat>): Option<PaymentError>
    requires GoodCursors(c)
  {
    if !rightful then Some(OwnerMismatch)
    else if !Bounded(next) || !NotBack(Cursor(c, d, z), next) then Some(InvalidIndex)
    else None
  }

  function AfterAdvance(c: Cursors, rightful: bool, d: Direction, z: Zone, next: Option<nat>): (r: Cursors)
    requires GoodCursors(c)
    ensures GoodCursors(r)
  {
    if AdvanceError(c, rightful, d, z, next).None? then Moved(c, d, z, next) else c
  }

  class Channel {
    const account: nat
    const code: seq<byte>
    const sendNext: array<Option<nat>>
    const receiveNext: array<Option<nat>>

    ghost predicate Valid()
      reads sendNext, receiveNext
    {
      sendNext != receiveNext && GoodCursors(View())
    }

    ghost function View(): Cursors
      reads sendNext, receiveNext
    {
      Cursors(sendNext[..], receiveNext[..])
    }

    predicate Owns(o: Owner) {
      account == o.account && code == o.code
    }

    constructor (o: Owner)
      ensures Valid() && Owns(o) && fresh(sendNext) && fresh(receiveNext)
      ensures forall d, z :: Cursor(View(), d, z) == Some(0)
    {
      account, code := o.account, o.code;
      sendNext := new Option<nat>[9](_ => Some(0));
      receiveNext := new Option<nat>[9](_ => Some(0));
    }

    method NextFor(d: Direction, z: Zone) returns (next: Option<nat>)
      requires Valid()
      ensures next == Cursor(View(), d, z)
    {
      match d
      case Sending => return sendNext[ZoneIndex(z)];
      case Receiving => return receiveNext[ZoneIndex(z)];
    }

    method Set(d: Direction, z: Zone, next: Option<nat>)
      requires Valid() && Bounded(next)
      modifies sendNext, receiveNext
      ensures Valid() && View() == Moved(old(View()), d, z, next)
    {
      match d
      case Sending => sendNext[ZoneIndex(z)] := next;
      case Receiving => receiveNext[ZoneIndex(z)] := next;
    }

    method AdvanceCursor(o: Owner, d: Direction, z: Zone, next: Option<nat>) returns (r: Result<(), PaymentError>)
      requires Valid()
      modifies sendNext, receiveNext
      ensures Valid() && View() == AfterAdvance(old(View()), Owns(o), d, z, next)
      ensures r == match AdvanceError(old(View()), Owns(o), d, z, next) case None => Ok(()) case Some(e) => Err(e)
    {
      if !Owns(o) {
        return Err(OwnerMismatch);
      }
      if next.Some? && next.value >= HARDENED_INDEX {
        return Err(InvalidIndex);
      }
      var previous := NextFor(d, z);
      if (previous.None? && next.Some?) || (previous.Some? && next.Some? && next.value < previous.value) {
        return Err(InvalidIndex);
      }
      Set(d, z, next);
      return Ok(());
    }

    method ReserveNext(o: Owner, d: Direction, z: Zone, max: nat, cancelAt: Option<nat>)
      returns (r: Result<Found, PaymentError>)
      requires Valid()
      modifies sendNext, receiveNext
      ensures Valid() && View() == AfterReserve(old(View()), o, Owns(o), d, z, max, cancelAt)
      ensures r == ReserveResult(old(View()), o, Owns(o), d, z, max, cancelAt)
    {
      hide SearchResult, Reports;
      ProgressIsForward(View(), o, Owns(o), d, z, max, cancelAt);
      if !Owns(o) {
        return Err(OwnerMismatch);
      }
      var start := NextFor(d, z);
      if start.None? {
        assert Moved(View(), d, z, None) == View();
        return Err(Exhausted(0, None));
      }
      r := Search(o, d, z, start.value, max, cancelAt);
      match r
      case Ok(f) => Set(d, z, f.next);
      case Err(Cancelled(_, next)) => Set(d, z, next);
      case Err(Exhausted(_, next)) => Set(d, z, next);
      case Err(_) =>
    }
  }

  // ---------------------------------------------------------------- any sequence of calls

  datatype Call =
    | Reserve(rightful: bool, direction: Direction, zone: Zone, max: nat, cancelAt: Option<nat>)
    | Advance(rightful: bool, direction: Direction, zone: Zone, next: Option<nat>)

  function After(c: Cursors, o: Owner, call: Call): (r: Cursors)
    requires GoodCursors(c)
    ensures GoodCursors(r)
  {
    match call
    case Reserve(rightful, d, z, max, cancelAt) => AfterReserve(c, o, rightful, d, z, max, cancelAt)
    case Advance(rightful, d, z, next) => AfterAdvance(c, rightful, d, z, next)
  }

  /** The index this call hands out for a direction and zone, if it does. */
  function Reserved(c: Cursors, o: Owner, call: Call, d: Direction, z: Zone): Option<nat>
    requires GoodCursors(c)
  {
    if call.Reserve? && call.direction == d && call.zone == z
       && ReserveResult(c, o, call.rightful, d, z, call.max, call.cancelAt).Ok?
    then Some(ReserveResult(c, o, call.rightful, d, z, call.max, call.cancelAt).value.index)
    else None
  }

  ghost predicate History(o: Owner, calls: seq<Call>, states: seq<Cursors>) {
    && |states| == |calls| + 1
    && (forall i :: 0 <= i < |states| ==> GoodCursors(states[i]))
    && (forall i :: 0 <= i < |calls| ==> states[i + 1] == After(states[i], o, calls[i]))
  }

  /** One call: the cursor does not move back, and a handed-out index lies in the stretch it passes. */
  lemma {:induction false} CallMovesForward(c: Cursors, o: Owner, call: Call, d: Direction, z: Zone)
    requires GoodCursors(c)
    ensures NotBack(Cursor(c, d, z), Cursor(After(c, o, call), d, z))
    ensures var i := Reserved(c, o, call, d, z);
            i.Some? ==> Cursor(c, d, z).Some? && Cursor(c, d, z).value <= i.value
                        && i.value + 1 == Bound(Cursor(After(c, o, call), d, z))
  {
    hide SearchFrom, InZone, GoodCursors;
    match call
    case Reserve(rightful, d', z', max, cancelAt) =>
      ProgressIsForward(c, o, rightful, d', z', max, cancelAt);
      var p := Progress(ReserveResult(c, o, rightful, d', z', max, cancelAt));
      if p.Some? {
        MovedMeaning(c, d', z', p.value, d, z);
      }
      if Cursor(c, d', z').Some? && 0 < max <= MAX_SEARCH_ATTEMPTS {
        StartsInRange(c, d', z');
        SearchReports(o, d', z', Cursor(c, d', z').value, Cursor(c, d', z').value, max, cancelAt);
      }
    case Advance(rightful, d', z', next) =>
      if Bounded(next) {
        MovedMeaning(c, d', z', next, d, z);
      }
  }

  lemma {:induction false} StartsInRange(c: Cursors, d: Direction, z: Zone)
    requires GoodCursors(c) && Cursor(c, d, z).Some?
    ensures Cursor(c, d, z).value < HARDENED_INDEX
  {
  }

  /** Over any sequence of calls a cursor never moves back, and an exhausted one stays exhausted. */
  lemma {:induction false} NeverBack(o: Owner, calls: seq<Call>, states: seq<Cursors>, i: nat, j: nat, d: Direction,
          z: Zone)
    requires History(o, calls, states) && i <= j <= |calls|
    ensures NotBack(Cursor(states[i], d, z), Cursor(states[j], d, z))
    decreases j
  {
    hide GoodCursors, After;
    if i == j {
    } else {
      NeverBack(o, calls, states, i, j - 1, d, z);
      CallMovesForward(states[j - 1], o, calls[j - 1], d, z);
    }
  }

  /** No index is handed out twice: reserved indices strictly increase. */
  lemma {:induction false} ReservedIncrease(o: Owner, calls: seq<Call>, states: seq<Cursors>, i: nat, j: nat,
          d: Direction, z: Zone)
    requires History(o, calls, states) && i < j < |calls|
    requires Reserved(states[i], o, calls[i], d, z).Some? && Reserved(states[j], o, calls[j], d, z).Some?
    ensures Reserved(states[i], o, calls[i], d, z).value < Reserved(states[j], o, calls[j], d, z).value
  {
    hide GoodCursors, After, Reserved;
    CallMovesForward(states[i], o, calls[i], d, z);
    CallMovesForward(states[j], o, calls[j], d, z);
    NeverBack(o, calls, states, i + 1, j, d, z);
  }

  predicate IsAdvance(call: Call, d: Direction, z: Zone) {
    call.Advance? && call.direction == d && call.zone == z
  }

  /** A reservation passes over nothing it has not examined. */
  lemma {:induction false} ReserveSkipsMisses(c: Cursors, o: Owner, call: Call, d: Direction, z: Zone, m: nat)
    requires GoodCursors(c) && !IsAdvance(call, d, z)
    requires Bound(Cursor(c, d, z)) <= m < Bound(Cursor(After(c, o, call), d, z))
    ensures Miss(o, d, z, m) || Reserved(c, o, call, d, z) == Some(m)
  {
    hide SearchFrom, InZone, GoodCursors;
    match call
    case Reserve(rightful, d', z', max, cancelAt) =>
      ProgressIsForward(c, o, rightful, d', z', max, cancelAt);
      var p := Progress(ReserveResult(c, o, rightful, d', z', max, cancelAt));
      if p.Some? {
        MovedMeaning(c, d', z', p.value, d, z);
      }
      if Cursor(c, d', z').Some? && 0 < max <= MAX_SEARCH_ATTEMPTS {
        StartsInRange(c, d', z');
        SearchReports(o, d', z', Cursor(c, d', z').value, Cursor(c, d', z').value, max, cancelAt);
      }
    case Advance(rightful, d', z', next) =>
      if Bounded(next) {
        MovedMeaning(c, d', z', next, d, z);
      }
  }

  ghost predicate HandedOut(o: Owner, calls: seq<Call>, states: seq<Cursors>, i: nat, j: nat, d: Direction, z: Zone,
          m: nat)
    requires History(o, calls, states) && i <= j <= |calls|
  {
    exists k :: i <= k < j && Reserved(states[k], o, calls[k], d, z) == Some(m)
  }

  /** Without outside advances, every index the cursor passed was handed out or examined without a match,
      however budgets and cancellations cut the searches. */
  lemma {:induction false} SkippedWereExamined(o: Owner, calls: seq<Call>, states: seq<Cursors>, i: nat, j: nat,
          d: Direction, z: Zone, m: nat)
    requires History(o, calls, states) && i <= j <= |calls|
    requires forall k :: i <= k < j ==> !IsAdvance(calls[k], d, z)
    requires Bound(Cursor(states[i], d, z)) <= m < Bound(Cursor(states[j], d, z))
    ensures Miss(o, d, z, m) || HandedOut(o, calls, states, i, j, d, z, m)
    decreases j
  {
    hide GoodCursors, After, Reserved, Miss, Cursor;
    if m < Bound(Cursor(states[j - 1], d, z)) {
      SkippedWereExamined(o, calls, states, i, j - 1, d, z, m);
      if HandedOut(o, calls, states, i, j - 1, d, z, m) {
        var k :| i <= k < j - 1 && Reserved(states[k], o, calls[k], d, z) == Some(m);
      }
    } else {
      ReserveSkipsMisses(states[j - 1], o, calls[j - 1], d, z, m);
    }
  }
}
