/** The shared snapshot database (storage.js): multi-key compare-and-exchange with revisions and
    tombstones, as one atomic transaction per batch. */
module SnapshotStore {
  import opened ByteStrings

  type Scope = string
  const MAX_REVISION: nat := 0x1F_FFFF_FFFF_FFFF
  const MAX_KEYS: nat := 2048
  const MAX_HANDLES: nat := 128
  const MAX_TOTAL: nat := 0x100_0000

  datatype StorageError = InvalidBatch | Storage | Conflict

  /** A stored value; `None` is a tombstone that keeps its revision. */
  datatype Record = Record(revision: nat, bytes: Option<seq<byte>>)
  type Records = map<Scope, Record>

  datatype Handle = Handle(database: string, scope: Scope, maxBytes: nat, closed: bool)

  /** One call; `gaveUpAt` is the number of keys the browser had read when it failed, if it did. A transaction
      that cannot be opened fails before any key, one that cannot be completed after all of them. */
  datatype Batch = Batch(
    handles: seq<Handle>, expected: seq<int>, values: seq<Option<seq<byte>>>, gaveUpAt: Option<nat>)

  // ---------------------------------------------------------------- what may be committed

  predicate Fits(bytes: Option<seq<byte>>, h: Handle) {
    bytes.Some? ==> |bytes.value| <= h.maxBytes
  }

  function Size(bytes: Option<seq<byte>>): nat {
    if bytes.Some? then |bytes.value| else 0
  }

  function TotalSize(values: seq<Option<seq<byte>>>): nat {
    if values == [] then 0 else TotalSize(values[..|values| - 1]) + Size(values[|values| - 1])
  }

  predicate Shaped(b: Batch) {
    1 <= |b.handles| <= MAX_HANDLES && |b.expected| == |b.handles| == |b.values|
  }

  predicate GoodEntry(b: Batch, i: nat)
    requires Shaped(b) && i < |b.handles|
  {
    && !b.handles[i].closed && b.handles[i].database == b.handles[0].database
    && (b.expected[i] == -1 || 1 <= b.expected[i] <= MAX_REVISION)
    && Fits(b.values[i], b.handles[i])
    && (forall j :: 0 <= j < i ==> b.handles[j].scope != b.handles[i].scope)
  }

  predicate WellFormedBatch(b: Batch) {
    && Shaped(b)
    && (forall i :: 0 <= i < |b.handles| ==> GoodEntry(b, i))
    && TotalSize(b.values) <= MAX_TOTAL
  }

  /** The revision a caller must name: -1 for a key that was never written. */
  function Revision(records: Records, scope: Scope): int {
    if scope in records then records[scope].revision else -1
  }

  predicate Readable(r: Record, h: Handle) {
    1 <= r.revision <= MAX_REVISION && Fits(r.bytes, h)
  }

  predicate Matches(records: Records, b: Batch, i: nat)
    requires Shaped(b) && i < |b.handles|
  {
    var h := b.handles[i];
    && Revision(records, h.scope) == b.expected[i]
    && (h.scope in records ==> Readable(records[h.scope], h) && records[h.scope].revision != MAX_REVISION)
  }

  function ScopesUpTo(b: Batch, n: nat): set<Scope>
    requires n <= |b.handles|
  {
    if n == 0 then {} else ScopesUpTo(b, n - 1) + {b.handles[n - 1].scope}
  }

  function Scopes(b: Batch): set<Scope> {
    ScopesUpTo(b, |b.handles|)
  }

  predicate HasRoom(records: Records, b: Batch) {
    Scopes(b) <= records.Keys || |records.Keys + Scopes(b)| <= MAX_KEYS
  }

  predicate Committable(records: Records, b: Batch) {
    && WellFormedBatch(b) && b.gaveUpAt.None?
    && (forall i :: 0 <= i < |b.handles| ==> Matches(records, b, i))
    && HasRoom(records, b)
  }

  /** The browser carries the transaction through the first `n` keys. */
  predicate Lasts(b: Batch, n: nat) {
    b.gaveUpAt.Some? ==> b.gaveUpAt.value >= n
  }

  // ---------------------------------------------------------------- which error is reported

  /** What is wrong with entry `i` of the arguments, given that nothing is wrong before it. */
  function EntryFault(b: Batch, i: nat): Option<StorageError>
    requires Shaped(b) && i < |b.handles|
  {
    if b.handles[i].closed then Some(Storage)
    else if !GoodEntry(b, i) || TotalSize(b.values[..i + 1]) > MAX_TOTAL then Some(InvalidBatch)
    else None
  }

  /** What the browser or the database holds against entry `i`. */
  function KeyFault(records: Records, b: Batch, i: nat): Option<StorageError>
    requires Shaped(b) && i < |b.handles|
  {
    var h := b.handles[i];
    if b.gaveUpAt == Some(i) then Some(Storage)
    else if h.scope in records && !Readable(records[h.scope], h) then Some(Storage)
    else if Revision(records, h.scope) != b.expected[i] then Some(Conflict)
    else if !Matches(records, b, i) then Some(Storage)
    else if h.scope !in records && |records.Keys + ScopesUpTo(b, i + 1)| > MAX_KEYS then Some(Storage)
    else None
  }

  function EntryFaults(b: Batch): seq<Option<StorageError>>
    requires Shaped(b)
  {
    seq(|b.handles|, i requires 0 <= i < |b.handles| => EntryFault(b, i))
  }

  function KeyFaults(records: Records, b: Batch): seq<Option<StorageError>>
    requires Shaped(b)
  {
    seq(|b.handles|, i requires 0 <= i < |b.handles| => KeyFault(records, b, i))
  }

  /** The error of the arguments: that of the first entry at fault. */
  function ArgumentFault(b: Batch): Option<StorageError> {
    if Shaped(b) then FirstFault(EntryFaults(b)) else Some(InvalidBatch)
  }

  /** The one error a batch reports: of its arguments, else of the first key at fault or not
      reached, else of a transaction that does not complete. */
  function Failure(records: Records, b: Batch): Option<StorageError> {
    if ArgumentFault(b).Some? then ArgumentFault(b)
    else if FirstFault(KeyFaults(records, b)).Some? then FirstFault(KeyFaults(records, b))
    else if b.gaveUpAt.Some? then Some(Storage)
    else None
  }

  // ---------------------------------------------------------------- what a commit does

  function NextRevision(records: Records, scope: Scope): nat {
    if scope in records then records[scope].revision + 1 else 1
  }

  /** Every key of the batch moves to its next revision; nothing else changes. */
  ghost predicate Commits(records: Records, b: Batch, after: Records)
    requires Shaped(b)
  {
    && after.Keys == records.Keys + Scopes(b)
    && (forall i :: 0 <= i < |b.handles| ==>
          b.handles[i].scope in after
          && after[b.handles[i].scope] == Record(NextRevision(records, b.handles[i].scope), b.values[i]))
    && (forall k :: k in records && k !in Scopes(b) ==> k in after && after[k] == records[k])
  }

  function Put(records: Records, b: Batch, n: nat): Records
    requires Shaped(b) && n <= |b.handles|
  {
    if n == 0 then records
    else
      var scope := b.handles[n - 1].scope;
      Put(records, b, n - 1)[scope := Record(NextRevision(records, scope), b.values[n - 1])]
  }

  predicate Distinct(b: Batch) {
    forall i, j :: 0 <= i < j < |b.handles| ==> b.handles[i].scope != b.handles[j].scope
  }

  lemma {:induction false} ScopeAt(b: Batch, n: nat, k: Scope)
    requires n <= |b.handles|
    ensures k in ScopesUpTo(b, n) <==> exists i :: 0 <= i < n && b.handles[i].scope == k
  {
    if n == 0 {
    } else {
      ScopeAt(b, n - 1, k);
    }
  }

  lemma {:induction false} ScopesGrow(b: Batch, m: nat, n: nat)
    requires m <= n <= |b.handles|
    ensures ScopesUpTo(b, m) <= ScopesUpTo(b, n)
    decreases n
  {
    if m == n {
    } else {
      ScopesGrow(b, m, n - 1);
    }
  }

  lemma {:induction false} PutElsewhere(records: Records, b: Batch, n: nat, k: Scope)
    requires Shaped(b) && n <= |b.handles| && k !in ScopesUpTo(b, n)
    ensures (k in Put(records, b, n) <==> k in records) && (k in records ==> Put(records, b, n)[k] == records[k])
  {
    if n == 0 {
    } else {
      PutElsewhere(records, b, n - 1, k);
    }
  }

  lemma {:induction false} PutAt(records: Records, b: Batch, n: nat, i: nat)
    requires Shaped(b) && i < n <= |b.handles| && Distinct(b)
    ensures var scope := b.handles[i].scope;
            && scope in Put(records, b, n)
            && Put(records, b, n)[scope] == Record(NextRevision(records, scope), b.values[i])
  {
    if i == n - 1 {
    } else {
      PutAt(records, b, n - 1, i);
    }
  }

  lemma {:induction false} PutKeys(records: Records, b: Batch, n: nat)
    requires Shaped(b) && n <= |b.handles|
    ensures Put(records, b, n).Keys == records.Keys + ScopesUpTo(b, n)
  {
    if n == 0 {
    } else {
      PutKeys(records, b, n - 1);
    }
  }

  function After(records: Records, b: Batch): Records {
    if Committable(records, b) then Put(records, b, |b.handles|) else records
  }

  lemma {:induction false} AfterMeaning(records: Records, b: Batch)
    ensures Committable(records, b) ==> Commits(records, b, After(records, b))
    ensures !Committable(records, b) ==> After(records, b) == records
  {
    hide NextRevision, HasRoom, Matches, Put;
    if Committable(records, b) {
      assert Distinct(b) by {
        forall i, j | 0 <= i < j < |b.handles| ensures b.handles[i].scope != b.handles[j].scope {
          assert GoodEntry(b, j);
        }
      }
      PutKeys(records, b, |b.handles|);
      forall i | 0 <= i < |b.handles|
        ensures b.handles[i].scope in After(records, b)
                && After(records, b)[b.handles[i].scope]
                  == Record(NextRevision(records, b.handles[i].scope), b.values[i])
      {
        PutAt(records, b, |b.handles|, i);
      }
      forall k | k in records && k !in Scopes(b) ensures k in After(records, b) && After(records, b)[k] == records[k] {
        PutElsewhere(records, b, |b.handles|, k);
      }
    }
  }

  // ---------------------------------------------------------------- the operation

  lemma {:induction false} TotalSizeGrows(values: seq<Option<seq<byte>>>, n: nat)
    requires n <= |values|
    ensures TotalSize(values[..n]) <= TotalSize(values)
    decreases |values|
  {
    if n < |values| {
      var front := values[..|values| - 1];
      TotalSizeGrows(front, n);
      assert front[..n] == values[..n];
    } else {
      assert values[..n] == values;
    }
  }

  lemma {:induction false} Opened(b: Batch)
    requires WellFormedBatch(b)
    ensures Shaped(b) && Distinct(b)
  {
    forall i, j | 0 <= i < j < |b.handles| ensures b.handles[i].scope != b.handles[j].scope {
      assert GoodEntry(b, j);
    }
  }

  lemma {:induction false} NothingPut(records: Records, b: Batch)
    requires Shaped(b)
    ensures Put(records, b, 0) == records && ScopesUpTo(b, 0) == {}
  {
  }

  /** Inside the transaction a key still reads as it did before the batch. */
  lemma {:induction false} NewKey(records: Records, b: Batch, i: nat)
    requires Shaped(b) && Distinct(b) && i < |b.handles|
    ensures var scope := b.handles[i].scope;
            && (scope in Put(records, b, i) <==> scope in records)
            && (scope in records ==> Put(records, b, i)[scope] == records[scope])
            && Revision(Put(records, b, i), scope) == Revision(records, scope)
    ensures Matches(records, b, i) <==>
              var h := b.handles[i];
              && Revision(records, h.scope) == b.expected[i]
              && (h.scope in records ==> Readable(records[h.scope], h) && records[h.scope].revision != MAX_REVISION)
  {
    hide Put, Readable, NextRevision;
    ScopeAt(b, i, b.handles[i].scope);
    PutElsewhere(records, b, i, b.handles[i].scope);
  }

  lemma {:induction false} NextPut(records: Records, b: Batch, i: nat)
    requires Shaped(b) && i < |b.handles|
    ensures Put(records, b, i + 1)
            == Put(records, b, i)[b.handles[i].scope := Record(NextRevision(records, b.handles[i].scope), b.values[i])]
    ensures ScopesUpTo(b, i + 1) == ScopesUpTo(b, i) + {b.handles[i].scope}
  {
  }

  lemma {:induction false} NoRoom(records: Records, b: Batch, i: nat)
    requires Shaped(b) && i < |b.handles| && b.handles[i].scope !in records.Keys + ScopesUpTo(b, i)
    requires |records.Keys + ScopesUpTo(b, i)| + 1 > MAX_KEYS
    ensures !HasRoom(records, b)
  {
    hide ScopesUpTo;
    var scope, now, all := b.handles[i].scope, records.Keys + ScopesUpTo(b, i), records.Keys + Scopes(b);
    assert now <= all && scope in Scopes(b) by {
      ScopesGrow(b, i, |b.handles|);
      ScopeAt(b, |b.handles|, scope);
    }
    OneMore(now, scope, all);
  }

  lemma {:induction false} OneMore(a: set<Scope>, x: Scope, b: set<Scope>)
    requires a <= b && x in b && x !in a
    ensures |a| + 1 <= |b|
  {
    var c := a + {x};
    assert b == c + (b - c);
    assert |b| == |c| + |b - c|;
  }

  /** The fault of a key, read off the keys staged so far. */
  lemma {:induction false} StagedFault(records: Records, b: Batch, i: nat, staged: Records)
    requires Shaped(b) && Distinct(b) && i < |b.handles|
    requires staged == Put(records, b, i) && staged.Keys == records.Keys + ScopesUpTo(b, i)
    ensures var h := b.handles[i];
            && (h.scope in staged <==> h.scope in records)
            && (h.scope in staged ==> staged[h.scope] == records[h.scope])
            && KeyFault(records, b, i) ==
               if b.gaveUpAt == Some(i) then Some(Storage)
               else if h.scope in staged && !Readable(staged[h.scope], h) then Some(Storage)
               else if Revision(staged, h.scope) != b.expected[i] then Some(Conflict)
               else if h.scope in staged && staged[h.scope].revision == MAX_REVISION then Some(Storage)
               else if h.scope !in staged && |staged| + 1 > MAX_KEYS then Some(Storage)
               else None
    ensures KeyFault(records, b, i).None? ==> Matches(records, b, i)
    ensures KeyFault(records, b, i).Some? ==>
              b.gaveUpAt == Some(i) || !Matches(records, b, i) || !HasRoom(records, b)
  {
    hide Put, ScopesUpTo, HasRoom, Readable, Distinct;
    NewKey(records, b, i);
    if b.handles[i].scope !in staged {
      StagedCount(records, b, i, staged);
    }
  }

  lemma {:induction false} StagedCount(records: Records, b: Batch, i: nat, staged: Records)
    requires Shaped(b) && i < |b.handles| && staged.Keys == records.Keys + ScopesUpTo(b, i)
    requires b.handles[i].scope !in staged
    ensures |records.Keys + ScopesUpTo(b, i + 1)| == |staged| + 1
    ensures |staged| + 1 > MAX_KEYS ==> !HasRoom(records, b)
  {
    hide ScopesUpTo, HasRoom;
    assert ScopesUpTo(b, i + 1) == ScopesUpTo(b, i) + {b.handles[i].scope} by { NextPut(records, b, i); }
    OneScopeMore(records.Keys, ScopesUpTo(b, i), b.handles[i].scope);
    assert |staged| == |staged.Keys|;
    if |staged| + 1 > MAX_KEYS {
      NoRoom(records, b, i);
    }
  }

  lemma {:induction false} OneScopeMore(keys: set<Scope>, scopes: set<Scope>, x: Scope)
    requires x !in keys + scopes
    ensures |keys + (scopes + {x})| == |keys + scopes| + 1
  {
    assert keys + (scopes + {x}) == (keys + scopes) + {x};
  }

  lemma {:induction false} Room(records: Records, b: Batch)
    requires |records.Keys + ScopesUpTo(b, |b.handles|)| <= MAX_KEYS || ScopesUpTo(b, |b.handles|) <= records.Keys
    ensures HasRoom(records, b)
  {
  }

  class Database {
    var records: Records

    constructor ()
      ensures records == map[]
    {
      records := map[];
    }

    /** Checks the arguments in order; nothing is touched yet. */
    method Check(b: Batch) returns (refused: Option<StorageError>)
      ensures refused.None? <==> WellFormedBatch(b)
      ensures refused == ArgumentFault(b)
    {
      hide FirstFault;
      if |b.handles| < 1 || |b.handles| > MAX_HANDLES || |b.expected| != |b.handles| || |b.values| != |b.handles| {
        return Some(InvalidBatch);
      }
      var keys, total: nat, i := {}, 0, 0;
      while i < |b.handles|
        invariant 0 <= i <= |b.handles| && keys == ScopesUpTo(b, i)
        invariant forall j :: 0 <= j < i ==> GoodEntry(b, j) && EntryFault(b, j).None?
        invariant total == TotalSize(b.values[..i]) <= MAX_TOTAL
      {
        var h, value, e := b.handles[i], b.values[i], b.expected[i];
        if h.closed {
          assert !GoodEntry(b, i);
          FirstAt(EntryFaults(b), i);
          return Some(Storage);
        }
        ScopeAt(b, i, h.scope);
        if h.database != b.handles[0].database || h.scope in keys || !(e == -1 || 1 <= e <= MAX_REVISION)
          || !Fits(value, h) {
          assert !GoodEntry(b, i);
          FirstAt(EntryFaults(b), i);
          return Some(InvalidBatch);
        }
        assert b.values[..i + 1][..i] == b.values[..i];
        keys, total := keys + {h.scope}, total + Size(value);
        if total > MAX_TOTAL {
          TotalSizeGrows(b.values, i + 1);
          FirstAt(EntryFaults(b), i);
          return Some(InvalidBatch);
        }
        i := i + 1;
      }
      assert b.values[..i] == b.values;
      NoFault(EntryFaults(b));
      return None;
    }

    /** The transaction body: stages every put, or gives up at the first key that does not pass. */
    method Stage(b: Batch) returns (r: Result<(Records, seq<nat>), StorageError>)
      requires WellFormedBatch(b)
      ensures r.Ok? <==> && (forall i :: 0 <= i < |b.handles| ==> Matches(records, b, i)) && HasRoom(records, b)
                         && Lasts(b, |b.handles|)
      ensures r.Ok? ==> r.value.0 == Put(records, b, |b.handles|) && |r.value.1| == |b.handles|
      ensures r.Ok? ==> forall i :: 0 <= i < |b.handles| ==> r.value.1[i] == NextRevision(records, b.handles[i].scope)
      ensures FirstFault(KeyFaults(records, b)) == if r.Ok? then None else Some(r.error)
    {
      hide WellFormedBatch, HasRoom, Put, Matches, Readable, Distinct, ScopesUpTo, KeyFault, Revision;
      var staged, revisions: seq<nat>, slots, i := records, [], |records|, 0;
      Opened(b);
      NothingPut(records, b);
      while i < |b.handles|
        invariant 0 <= i <= |b.handles| && staged == Put(records, b, i) && slots == |staged|
        invariant staged.Keys == records.Keys + ScopesUpTo(b, i)
        invariant forall j :: 0 <= j < i ==> Matches(records, b, j) && KeyFault(records, b, j).None?
        invariant Lasts(b, i) && (slots <= MAX_KEYS || ScopesUpTo(b, i) <= records.Keys)
        invariant |revisions| == i && forall j :: 0 <= j < i ==>
          revisions[j] == NextRevision(records, b.handles[j].scope)
      {
        var h := b.handles[i];
        StagedFault(records, b, i, staged);
        if KeyFault(records, b, i).Some? {
          FirstAt(KeyFaults(records, b), i);
        }
        if b.gaveUpAt == Some(i) {
          return Err(Storage);
        }
        if h.scope in staged && !Readable(staged[h.scope], h) {
          return Err(Storage);
        }
        if Revision(staged, h.scope) != b.expected[i] {
          return Err(Conflict);
        }
        if h.scope in staged && staged[h.scope].revision == MAX_REVISION {
          return Err(Storage);
        }
        if h.scope !in staged {
          slots := slots + 1;
          if slots > MAX_KEYS {
            return Err(Storage);
          }
        }
        NextPut(records, b, i);
        var revision: nat := if h.scope in staged then staged[h.scope].revision + 1 else 1;
        staged := staged[h.scope := Record(revision, b.values[i])];
        revisions := revisions + [revision];
        i := i + 1;
      }
      Room(records, b);
      NoFault(KeyFaults(records, b));
      return Ok((staged, revisions));
    }

    /** All keys move to their next revision together, or nothing changes. */
    method CompareExchange(b: Batch) returns (r: Result<seq<nat>, StorageError>)
      modifies this
      ensures records == After(old(records), b)
      ensures r.Ok? <==> Committable(old(records), b)
      ensures r.Ok? ==> |r.value| == |b.handles| && forall i :: 0 <= i < |b.handles| ==>
                          b.handles[i].scope in records && records[b.handles[i].scope].revision == r.value[i]
      ensures Failure(old(records), b) == if r.Ok? then None else Some(r.error)
    {
      hide WellFormedBatch, HasRoom, Put, Matches, NextRevision, ArgumentFault, KeyFaults;
      var refused := Check(b);
      if refused.Some? {
        return Err(refused.value);
      }
      Opened(b);
      var staged :- Stage(b);
      if b.gaveUpAt.Some? {
        return Err(Storage);
      }
      forall j | 0 <= j < |b.handles|
        ensures b.handles[j].scope in staged.0 && staged.0[b.handles[j].scope].revision == staged.1[j]
      {
        PutAt(records, b, |b.handles|, j);
      }
      records := staged.0;
      return Ok(staged.1);
    }
  }

  // ---------------------------------------------------------------- any interleaving of batches

  predicate Good(records: Records) {
    |records| <= MAX_KEYS && forall k :: k in records ==> 1 <= records[k].revision <= MAX_REVISION
  }

  /** The states of a database through which batches from any tabs pass one after another. */
  ghost predicate History(batches: seq<Batch>, states: seq<Records>) {
    && |states| == |batches| + 1 && Good(states[0])
    && forall i :: 0 <= i < |batches| ==> states[i + 1] == After(states[i], batches[i])
  }

  lemma {:induction false} AfterKeepsGood(records: Records, b: Batch)
    requires Good(records)
    ensures Good(After(records, b))
  {
    hide Put, ScopesUpTo;
    AfterMeaning(records, b);
    if Committable(records, b) {
      var after := After(records, b);
      assert |after.Keys| <= MAX_KEYS by {
        if Scopes(b) <= records.Keys {
          assert records.Keys + Scopes(b) == records.Keys;
        }
      }
      forall k | k in after ensures 1 <= after[k].revision <= MAX_REVISION {
        ScopeAt(b, |b.handles|, k);
        if k in Scopes(b) {
          var i :| 0 <= i < |b.handles| && b.handles[i].scope == k;
          assert Matches(records, b, i);
        }
      }
    }
  }

  lemma {:induction false} AlwaysGood(batches: seq<Batch>, states: seq<Records>, i: nat)
    requires History(batches, states) && i <= |batches|
    ensures Good(states[i])
  {
    hide Good;
    if i == 0 {
    } else {
      AlwaysGood(batches, states, i - 1);
      AfterKeepsGood(states[i - 1], batches[i - 1]);
    }
  }

  /** A key's revision stays, with its value, or rises by exactly one. */
  lemma {:induction false} KeyMoves(records: Records, b: Batch, k: Scope)
    requires k in records
    ensures k in After(records, b)
    ensures After(records, b)[k] == records[k] || After(records, b)[k].revision == records[k].revision + 1
  {
    hide Put, ScopesUpTo;
    AfterMeaning(records, b);
    ScopeAt(b, |b.handles|, k);
  }

  lemma {:induction false} NeverBack(batches: seq<Batch>, states: seq<Records>, i: nat, j: nat, k: Scope)
    requires History(batches, states) && i <= j <= |batches| && k in states[i]
    ensures k in states[j] && states[i][k].revision <= states[j][k].revision
    ensures states[i][k].revision == states[j][k].revision ==> states[i][k] == states[j][k]
    decreases j
  {
    hide After, Good;
    if i == j {
    } else {
      NeverBack(batches, states, i, j - 1, k);
      KeyMoves(states[j - 1], batches[j - 1], k);
    }
  }

  /** A key and a revision name one value for the whole life of the database, tombstones included. */
  lemma {:induction false} RevisionNamesOneValue(batches: seq<Batch>, states: seq<Records>, i: nat, j: nat, k: Scope)
    requires History(batches, states) && i <= |batches| && j <= |batches|
    requires k in states[i] && k in states[j] && states[i][k].revision == states[j][k].revision
    ensures states[i][k] == states[j][k]
  {
    hide After, Good;
    if i <= j {
      NeverBack(batches, states, i, j, k);
    } else {
      NeverBack(batches, states, j, i, k);
    }
  }

  /** Of two batches that expect the same revision of a key, at most one commits. */
  lemma {:induction false} NoDoubleCommit(batches: seq<Batch>, states: seq<Records>, i: nat, j: nat, p: nat, q: nat)
    requires History(batches, states) && i < j < |batches|
    requires Committable(states[i], batches[i]) && Committable(states[j], batches[j])
    requires p < |batches[i].handles| && q < |batches[j].handles|
            && batches[i].handles[p].scope == batches[j].handles[q].scope
    ensures batches[i].expected[p] != batches[j].expected[q]
  {
    hide After, Good, WellFormedBatch, HasRoom, ScopesUpTo;
    Opened(batches[i]);
    Opened(batches[j]);
    var k := batches[i].handles[p].scope;
    AfterMeaning(states[i], batches[i]);
    assert Matches(states[i], batches[i], p) && Matches(states[j], batches[j], q);
    NeverBack(batches, states, i + 1, j, k);
  }
}
