/** Dependency graphs of EIP-712 struct types: paths, reachability, cycles and longest paths. */
module SchemaGraph {
  import opened ByteStrings
  import AbiTypes

  /** The UTF-8 bytes of a type's name. */
  type Name = seq<byte>
  type Graph = map<Name, set<Name>>

  const MAX_DEPTH := AbiTypes.MAX_DEPTH

  /** Every referenced type is declared. */
  predicate Closed(deps: Graph) {
    forall n, c :: n in deps && c in deps[n] ==> c in deps
  }

  ghost predicate Path(deps: Graph, p: seq<Name>) {
    && p != []
    && (forall i :: 0 <= i < |p| ==> p[i] in deps)
    && (forall i {:trigger p[i]} :: 0 < i < |p| ==> p[i] in deps[p[i - 1]])
  }

  ghost predicate PathFrom(deps: Graph, a: Name, p: seq<Name>) {
    Path(deps, p) && p[0] == a
  }

  ghost predicate Connects(deps: Graph, a: Name, b: Name, p: seq<Name>) {
    PathFrom(deps, a, p) && |p| >= 2 && p[|p| - 1] == b
  }

  /** `b` is a direct or transitive dependency of `a`. */
  ghost predicate Reaches(deps: Graph, a: Name, b: Name) {
    exists p :: Connects(deps, a, b, p)
  }

  ghost predicate HasCycle(deps: Graph) {
    exists a :: Reaches(deps, a, a)
  }

  /** No path has more than `MAX_DEPTH` edges. */
  ghost predicate Bounded(deps: Graph) {
    forall p :: Path(deps, p) ==> |p| <= MAX_DEPTH + 1
  }

  ghost predicate Distinct(p: seq<Name>) {
    forall i, j :: 0 <= i < j < |p| ==> p[i] != p[j]
  }

  /** A path that is longer than the limit and repeats no type before its end. */
  ghost predicate LongTrail(deps: Graph, p: seq<Name>) {
    Path(deps, p) && |p| > MAX_DEPTH + 1 && Distinct(p[..|p| - 1])
  }

  ghost predicate HasLongTrail(deps: Graph) {
    exists p :: LongTrail(deps, p)
  }

  // ---------------------------------------------------------------- paths

  lemma {:induction false} Prepend(deps: Graph, a: Name, p: seq<Name>)
    requires Path(deps, p) && a in deps && p[0] in deps[a]
    ensures Path(deps, [a] + p)
  {
    var q := [a] + p;
    forall i | 0 < i < |q| ensures q[i] in deps[q[i - 1]] {
      if i > 1 {
        assert q[i] == p[i - 1] && q[i - 1] == p[i - 2];
      }
    }
  }

  lemma {:induction false} Extend(deps: Graph, p: seq<Name>, b: Name)
    requires Path(deps, p) && b in deps && b in deps[p[|p| - 1]]
    ensures Path(deps, p + [b])
  {
    var q := p + [b];
    forall i | 0 < i < |q| ensures q[i] in deps[q[i - 1]] {
      if i < |p| {
        assert q[i] == p[i] && q[i - 1] == p[i - 1];
      }
    }
  }

  lemma {:induction false} Suffix(deps: Graph, p: seq<Name>, k: nat)
    requires Path(deps, p) && k < |p|
    ensures Path(deps, p[k..])
  {
    var q := p[k..];
    forall i | 0 < i < |q| ensures q[i] in deps[q[i - 1]] {
      assert q[i] == p[k + i] && q[i - 1] == p[k + i - 1];
    }
  }

  /** Going round a cycle gives paths of any length. */
  lemma {:induction false} CycleGivesLongPaths(deps: Graph, a: Name, cycle: seq<Name>, n: nat) returns (p: seq<Name>)
    requires Connects(deps, a, a, cycle)
    ensures PathFrom(deps, a, p) && |p| > n
  {
    if n == 0 {
      p := cycle;
    } else {
      var q := CycleGivesLongPaths(deps, a, cycle, n - 1);
      p := Join(deps, cycle, q);
    }
  }

  lemma {:induction false} Join(deps: Graph, p: seq<Name>, q: seq<Name>) returns (r: seq<Name>)
    requires Path(deps, p) && Path(deps, q) && p[|p| - 1] == q[0]
    ensures Path(deps, r) && r[0] == p[0] && |r| == |p| + |q| - 1 && r[|r| - 1] == q[|q| - 1]
    decreases |p|
  {
    if |p| == 1 {
      r := q;
    } else {
      Suffix(deps, p, 1);
      var rest := Join(deps, p[1..], q);
      Prepend(deps, p[0], rest);
      r := [p[0]] + rest;
    }
  }

  lemma {:induction false} Prefix(deps: Graph, p: seq<Name>, k: nat)
    requires Path(deps, p) && 0 < k <= |p|
    ensures Path(deps, p[..k])
  {
    var q := p[..k];
    forall i | 0 < i < |q| ensures q[i] in deps[q[i - 1]] {
      assert q[i] == p[i] && q[i - 1] == p[i - 1];
    }
  }

  /** Where the paths from a type are bounded in length, they repeat nothing. */
  lemma {:induction false} BoundedRepeatsNothing(deps: Graph, a: Name, limit: nat, p: seq<Name>)
    requires (forall q :: PathFrom(deps, a, q) ==> |q| <= limit) && PathFrom(deps, a, p)
    ensures Distinct(p)
  {
    if !Distinct(p) {
      var i, j :| 0 <= i < j < |p| && p[i] == p[j];
      Prefix(deps, p, j + 1);
      Suffix(deps, p[..j + 1], i);
      var long := CycleGivesLongPaths(deps, p[i], p[..j + 1][i..], limit);
      Prefix(deps, p, i + 1);
      var q := Join(deps, p[..i + 1], long);
      assert PathFrom(deps, a, q);
    }
  }

  /** A path is too long exactly because of a cycle or of a trail. */
  lemma {:induction false} UnboundedExactly(deps: Graph)
    ensures !Bounded(deps) <==> HasCycle(deps) || HasLongTrail(deps)
  {
    if !Bounded(deps) {
      var p :| Path(deps, p) && |p| > MAX_DEPTH + 1;
      if !Distinct(p[..|p| - 1]) {
        RepeatIsReach(deps, p);
      } else {
        assert LongTrail(deps, p);
      }
    } else if HasCycle(deps) {
      BoundedIsAcyclic(deps);
    }
  }

  lemma {:induction false} RepeatIsReach(deps: Graph, p: seq<Name>)
    requires Path(deps, p) && !Distinct(p[..|p| - 1])
    ensures HasCycle(deps)
  {
    var i, j :| 0 <= i < j < |p| - 1 && p[..|p| - 1][i] == p[..|p| - 1][j];
    Prefix(deps, p, j + 1);
    Suffix(deps, p[..j + 1], i);
    assert Connects(deps, p[i], p[i], p[..j + 1][i..]);
    assert Reaches(deps, p[i], p[i]);
  }

  /** A bound on path length already excludes cycles. */
  lemma {:induction false} BoundedIsAcyclic(deps: Graph)
    requires Bounded(deps)
    ensures !HasCycle(deps)
  {
    if HasCycle(deps) {
      var a :| Reaches(deps, a, a);
      var cycle :| Connects(deps, a, a, cycle);
      var p := CycleGivesLongPaths(deps, a, cycle, MAX_DEPTH + 1);
      assert false;
    }
  }

  /** Reaching is reaching a child, or being a child. */
  lemma {:induction false} ReachesByChild(deps: Graph, a: Name, b: Name)
    requires Closed(deps) && a in deps
    ensures Reaches(deps, a, b) <==> b in deps[a] || exists c :: c in deps[a] && Reaches(deps, c, b)
  {
    if Reaches(deps, a, b) {
      var p :| Connects(deps, a, b, p);
      assert p[1] in deps[a];
      Suffix(deps, p, 1);
      if |p| > 2 {
        assert Connects(deps, p[1], b, p[1..]);
      }
    }
    if b in deps[a] {
      Prepend(deps, a, [b]);
      assert Connects(deps, a, b, [a] + [b]);
    }
    if c :| c in deps[a] && Reaches(deps, c, b) {
      var p :| Connects(deps, c, b, p);
      Prepend(deps, a, p);
      assert Connects(deps, a, b, [a] + p);
    }
  }

  // ---------------------------------------------------------------- the unique root

  ghost predicate IsReferenced(deps: Graph, n: Name) {
    exists m :: m in deps && n in deps[m]
  }

  lemma {:induction false} Referrer(deps: Graph, n: Name) returns (m: Name)
    requires IsReferenced(deps, n)
    ensures m in deps && n in deps[m]
  {
    m :| m in deps && n in deps[m];
  }

  /** Walking back from any type along references must stop, and can only stop at the root. */
  lemma {:induction false} RootReachesPath(deps: Graph, root: Name, p: seq<Name>)
    requires Closed(deps) && Bounded(deps) && Path(deps, p)
    requires forall n :: n in deps && n != root ==> IsReferenced(deps, n)
    ensures p[|p| - 1] == root || Reaches(deps, root, p[|p| - 1])
    decreases MAX_DEPTH + 2 - |p|
  {
    hide Closed, IsReferenced;
    assert |p| <= MAX_DEPTH + 1;
    if p[0] == root {
      if |p| > 1 {
        assert Connects(deps, root, p[|p| - 1], p);
      }
    } else {
      var m := Referrer(deps, p[0]);
      Prepend(deps, m, p);
      RootReachesPath(deps, root, [m] + p);
    }
  }

  /** With one unreferenced type, the reachable types are exactly all the others. */
  lemma {:induction false} RootReachesAll(deps: Graph, root: Name, reached: set<Name>)
    requires Closed(deps) && Bounded(deps) && root in deps
    requires forall n :: n in deps && n != root ==> IsReferenced(deps, n)
    requires forall b :: b in reached <==> Reaches(deps, root, b)
    ensures reached == deps.Keys - {root} && |reached| + 1 == |deps|
  {
    forall n | n in deps && n != root ensures n in reached {
      RootReachesPath(deps, root, [n]);
    }
    forall b | b in reached ensures b in deps && b != root {
      var p :| Connects(deps, root, b, p);
      BoundedIsAcyclic(deps);
    }
  }
}
