/** The memoised depth-first search over struct dependencies (schema.rs). */
module SchemaSearch {
  import opened ByteStrings
  import opened SchemaGraph
  import opened SchemaOrder
  import opened SchemaText

  /** A cached closure: transitive dependencies and the length of the longest path below. */
  datatype Closure = Closure(reached: set<Name>, height: nat)

  ghost predicate Correct(deps: Graph, n: Name, c: Closure) {
    && (forall b :: b in c.reached <==> Reaches(deps, n, b))
    && (forall p :: PathFrom(deps, n, p) ==> |p| <= c.height + 1)
    && (exists p :: PathFrom(deps, n, p) && |p| == c.height + 1)
    && c.height <= MAX_DEPTH
  }

  ghost predicate CacheCorrect(deps: Graph, cache: map<Name, Closure>) {
    forall n :: n in cache ==> n in deps && Correct(deps, n, cache[n])
  }

  ghost predicate Grows(a: map<Name, Closure>, b: map<Name, Closure>) {
    forall n :: n in a ==> n in b && b[n] == a[n]
  }

  /** What the loop over the children of `n` has gathered once it has seen `done`. */
  ghost predicate Gathered(deps: Graph, n: Name, done: set<Name>, reached: set<Name>, height: nat) {
    && (forall b :: b in reached <==> b in done || exists c :: c in done && Reaches(deps, c, b))
    && (forall p, c :: c in done && PathFrom(deps, c, p) ==> |p| <= height)
    && (exists p :: PathFrom(deps, n, p) && |p| == height + 1)
  }

  lemma {:induction false} GatherMore(deps: Graph, n: Name, done: set<Name>, reached: set<Name>, height: nat,
          c: Name, below: Closure)
    requires n in deps && c in deps[n] && c in deps && Gathered(deps, n, done, reached, height)
            && Correct(deps, c, below)
    ensures Gathered(deps, n, done + {c}, reached + {c} + below.reached, Max(height, below.height + 1))
  {
    var p :| PathFrom(deps, c, p) && |p| == below.height + 1;
    Prepend(deps, n, p);
    assert PathFrom(deps, n, [n] + p);
  }

  lemma {:induction false} GatheredAll(deps: Graph, n: Name, reached: set<Name>, height: nat)
    requires Closed(deps) && n in deps && Gathered(deps, n, deps[n], reached, height) && height <= MAX_DEPTH
    ensures Correct(deps, n, Closure(reached, height))
  {
    forall b ensures b in reached <==> Reaches(deps, n, b) {
      ReachesByChild(deps, n, b);
    }
    forall p | PathFrom(deps, n, p) ensures |p| <= height + 1 {
      if |p| > 1 {
        Suffix(deps, p, 1);
        assert p[1] in deps[n] && PathFrom(deps, p[1], p[1..]);
      }
    }
  }

  lemma {:induction false} StartGathering(deps: Graph, n: Name)
    requires n in deps
    ensures Gathered(deps, n, {}, {}, 0)
  {
    assert PathFrom(deps, n, [n]);
  }

  /** Where the paths from a child are bounded, its parent is not on them. */
  lemma {:induction false} ParentNotBelow(deps: Graph, n: Name, c: Name, limit: nat, p: seq<Name>)
    requires n in deps && c in deps[n] && c in deps && PathFrom(deps, c, p)
    requires forall q :: PathFrom(deps, c, q) ==> |q| <= limit
    ensures n !in p
  {
    if n in p {
      var i :| 0 <= i < |p| && p[i] == n;
      var q := p[..i + 1] + [c];
      assert q[0] == c && q[i + 1] == c;
      Prefix(deps, p, i + 1);
      Extend(deps, p[..i + 1], c);
      BoundedRepeatsNothing(deps, c, limit, q);
      assert false;
    }
  }

  /** A child at the limit of height gives a trail beyond it. */
  lemma {:induction false} TooHigh(deps: Graph, n: Name, c: Name, below: Closure)
    requires n in deps && c in deps[n] && c in deps && Correct(deps, c, below) && below.height + 1 > MAX_DEPTH
    ensures HasLongTrail(deps)
  {
    var p :| PathFrom(deps, c, p) && |p| == below.height + 1;
    hide Path;
    BoundedRepeatsNothing(deps, c, below.height + 1, p);
    ParentNotBelow(deps, n, c, below.height + 1, p);
    Prepend(deps, n, p);
    var q := [n] + p;
    assert Distinct(q[..|q| - 1]);
    assert LongTrail(deps, q);
  }

  lemma {:induction false} TooDeep(deps: Graph, trail: seq<Name>, name: Name)
    requires Path(deps, trail + [name]) && Distinct(trail) && |trail| > MAX_DEPTH
    ensures HasLongTrail(deps)
  {
    var p := trail + [name];
    assert p[..|p| - 1] == trail;
    assert LongTrail(deps, p);
  }

  lemma {:induction false} RepeatIsCycle(deps: Graph, trail: seq<Name>, name: Name)
    requires Path(deps, trail + [name]) && name in trail
    ensures HasCycle(deps) && !Bounded(deps)
  {
    var k :| 0 <= k < |trail| && trail[k] == name;
    var p := trail + [name];
    Suffix(deps, p, k);
    assert Connects(deps, name, name, p[k..]);
    assert Reaches(deps, name, name);
    if Bounded(deps) {
      BoundedIsAcyclic(deps);
    }
  }

  lemma {:induction false} ChildPath(deps: Graph, trail: seq<Name>, name: Name, child: Name)
    requires Path(deps, trail + [name]) && Closed(deps) && name in deps && child in deps[name]
    ensures child in deps && Path(deps, trail + [name] + [child])
  {
    Extend(deps, trail + [name], child);
  }

  lemma {:induction false} EndsDeclared(deps: Graph, trail: seq<Name>, name: Name)
    requires Path(deps, trail + [name])
    ensures name in deps
  {
    assert (trail + [name])[|trail|] == name;
  }

  // ---------------------------------------------------------------- which error is reported

  /** The search from `name`, below the types of `trail`, with what was found before. */
  ghost function Explore(deps: Graph, cache: map<Name, Closure>, trail: seq<Name>, name: Name)
    : (r: Result<map<Name, Closure>, SchemaError>)
    requires Closed(deps) && name in deps
    ensures r.Ok? ==> name in r.value
    decreases MAX_DEPTH + 1 - |trail|, 0, 0
  {
    if |trail| > MAX_DEPTH then Err(LimitExceeded)
    else if name in cache then Ok(cache)
    else if name in trail then Err(Cycle)
    else
      var below :- ExploreAll(deps, cache, trail + [name], Ascending(deps[name]), Closure({}, 0));
      Ok(below.0[name := below.1])
  }

  /** The search from several types in turn, adding up what they reach. */
  ghost function ExploreAll(deps: Graph, cache: map<Name, Closure>, trail: seq<Name>, names: seq<Name>, so: Closure)
    : Result<(map<Name, Closure>, Closure), SchemaError>
    requires Closed(deps) && forall n :: n in names ==> n in deps
    decreases MAX_DEPTH + 1 - |trail|, 1, |names|
  {
    if names == [] then Ok((cache, so))
    else
      var after :- Explore(deps, cache, trail, names[0]);
      var next := Joined(so, names[0], after[names[0]]);
      if next.height > MAX_DEPTH then Err(LimitExceeded) else ExploreAll(deps, after, trail, names[1..], next)
  }

  function Joined(so: Closure, child: Name, below: Closure): Closure {
    Closure(so.reached + {child} + below.reached, Max(so.height, below.height + 1))
  }

  /** The search from every type in turn; nothing is added up here. */
  ghost function ExploreTypes(deps: Graph, cache: map<Name, Closure>, names: seq<Name>)
    : Result<map<Name, Closure>, SchemaError>
    requires Closed(deps) && forall n :: n in names ==> n in deps
    decreases |names|
  {
    if names == [] then Ok(cache)
    else
      var after :- Explore(deps, cache, [], names[0]);
      ExploreTypes(deps, after, names[1..])
  }

  /** The error of the search over all types in ascending order. */
  ghost function SearchFault(deps: Graph): Option<SchemaError>
    requires Closed(deps)
  {
    match ExploreTypes(deps, map[], Ascending(deps.Keys))
    case Ok(_) => None
    case Err(e) => Some(e)
  }

  lemma {:induction false} ExploreNext(deps: Graph, cache: map<Name, Closure>, trail: seq<Name>, names: seq<Name>,
          i: nat, so: Closure)
    requires Closed(deps) && i < |names| && forall n :: n in names ==> n in deps
    ensures names[i] in names
    ensures ExploreAll(deps, cache, trail, names[i..], so) ==
            match Explore(deps, cache, trail, names[i])
            case Err(e) => Err(e)
            case Ok(after) =>
              var next := Joined(so, names[i], after[names[i]]);
              if next.height > MAX_DEPTH then Err(LimitExceeded)
              else ExploreAll(deps, after, trail, names[i + 1..], next)
  {
    hide Explore, Joined;
    assert names[i..][0] == names[i] && names[i..][1..] == names[i + 1..];
  }

  class Search {
    const deps: Graph
    var cache: map<Name, Closure>
    var active: set<Name>

    constructor (deps: Graph)
      ensures this.deps == deps && cache == map[] && active == {}
    {
      this.deps := deps;
      cache, active := map[], {};
    }

    /** `trail` is the path of active types that led here. */
    ghost predicate Valid(trail: seq<Name>)
      reads this
    {
      && Closed(deps) && CacheCorrect(deps, cache)
      && active == (set n | n in trail) && Distinct(trail)
    }

    /** Finds what is below `name`, or the first obstacle in ascending order of the children: a cycle, or a
        trail beyond the limit. */
    method Visit(name: Name, depth: nat, ghost trail: seq<Name>) returns (r: Result<(), SchemaError>)
      requires Valid(trail) && |trail| == depth && Path(deps, trail + [name])
      modifies this
      ensures name in deps
      ensures Explore(deps, old(cache), trail, name) == if r.Ok? then Ok(cache) else Err(r.error)
      ensures r.Ok? ==> Valid(trail) && name in cache && Grows(old(cache), cache)
      ensures r.Err? ==> Obstacle(deps, r.error)
      decreases MAX_DEPTH + 1 - depth, 2
    {
      hide Path, Closed, Correct, HasCycle, Gathered, Distinct, HasLongTrail, Obstacle, ExploreAll, Lists;
      EndsDeclared(deps, trail, name);
      if depth > MAX_DEPTH {
        TooDeep(deps, trail, name);
        IsObstacle(deps);
        return Err(LimitExceeded);
      }
      if name in cache {
        return Ok(());
      }
      if name in active {
        RepeatIsCycle(deps, trail, name);
        IsObstacle(deps);
        return Err(Cycle);
      }
      active := active + {name};
      assert Distinct(trail + [name]) by { DistinctMore(trail, name); }
      var closure :- VisitChildren(name, depth, trail);
      GatheredAll(deps, name, closure.reached, closure.height);
      active := active - {name};
      cache := cache[name := closure];
      return Ok(());
    }

    /** One child more; `done` are the children before it. */
    method VisitChild(name: Name, child: Name, depth: nat, so: Closure, ghost trail: seq<Name>, ghost done: set<Name>)
      returns (r: Result<Closure, SchemaError>)
      requires Valid(trail + [name]) && |trail| == depth <= MAX_DEPTH && Path(deps, trail + [name])
      requires name in deps && child in deps[name] && child in deps
      requires Gathered(deps, name, done, so.reached, so.height) && so.height <= MAX_DEPTH
      modifies this
      ensures r.Ok? ==> Explore(deps, old(cache), trail + [name], child) == Ok(cache) && child in cache
                        && r.value == Joined(so, child, cache[child]) && r.value.height <= MAX_DEPTH
      ensures r.Ok? ==> Valid(trail + [name]) && Grows(old(cache), cache)
                        && Gathered(deps, name, done + {child}, r.value.reached, r.value.height)
      ensures r.Err? ==> Obstacle(deps, r.error)
      ensures r.Err? ==> match Explore(deps, old(cache), trail + [name], child)
                         case Err(e) => r.error == e
                         case Ok(after) =>
                           r.error == LimitExceeded && Joined(so, child, after[child]).height > MAX_DEPTH
      decreases MAX_DEPTH + 1 - depth, 0
    {
      hide Path, Closed, Correct, HasCycle, Gathered, Distinct, HasLongTrail, Obstacle, Explore, Bounded;
      ChildPath(deps, trail, name, child);
      var below := Visit(child, depth + 1, trail + [name]);
      if below.Err? {
        return Err(below.error);
      }
      GatherMore(deps, name, done, so.reached, so.height, child, cache[child]);
      r := Ok(Joined(so, child, cache[child]));
      if r.value.height > MAX_DEPTH {
        TooHigh(deps, name, child, cache[child]);
        IsObstacle(deps);
        r := Err(LimitExceeded);
      }
    }

    method VisitChildren(name: Name, depth: nat, ghost trail: seq<Name>) returns (r: Result<Closure, SchemaError>)
      requires Valid(trail + [name]) && |trail| == depth <= MAX_DEPTH && Path(deps, trail + [name])
      modifies this
      ensures name in deps && forall n :: n in Ascending(deps[name]) ==> n in deps
      ensures ExploreAll(deps, old(cache), trail + [name], Ascending(deps[name]), Closure({}, 0))
              == if r.Ok? then Ok((cache, r.value)) else Err(r.error)
      ensures r.Ok? ==> Valid(trail + [name]) && Grows(old(cache), cache) && r.value.height <= MAX_DEPTH
      ensures r.Ok? ==> Gathered(deps, name, deps[name], r.value.reached, r.value.height)
      ensures r.Err? ==> Obstacle(deps, r.error)
      decreases MAX_DEPTH + 1 - depth, 1
    {
      hide Path, Closed, Correct, Gathered, Distinct, Obstacle, Explore, ExploreAll, Lists, Joined, Members;
      EndsDeclared(deps, trail, name);
      var children := InOrder(deps[name]);
      ChildrenDeclared(deps, name, children);
      MembersListed(children, deps[name]);
      StartGathering(deps, name);
      assert children[0..] == children;
      var so, i := Closure({}, 0), 0;
      while i < |children|
        invariant 0 <= i <= |children| && Valid(trail + [name]) && Grows(old(cache), cache)
        invariant Gathered(deps, name, Members(children[..i]), so.reached, so.height) && so.height <= MAX_DEPTH
        invariant ExploreAll(deps, old(cache), trail + [name], children, Closure({}, 0))
                  == ExploreAll(deps, cache, trail + [name], children[i..], so)
      {
        ExploreNext(deps, cache, trail + [name], children, i, so);
        MembersNext(children, i);
        so :- VisitChild(name, children[i], depth, so, trail, Members(children[..i]));
        i := i + 1;
      }
      NothingLeft(deps, cache, trail + [name], so);
      return Ok(so);
    }
  }

  /** What an error of the search says about the graph. */
  ghost predicate Obstacle(deps: Graph, e: SchemaError) {
    !Bounded(deps) && ((e == Cycle && HasCycle(deps)) || (e == LimitExceeded && HasLongTrail(deps)))
  }

  lemma {:induction false} IsObstacle(deps: Graph)
    ensures HasCycle(deps) ==> Obstacle(deps, Cycle)
    ensures HasLongTrail(deps) ==> Obstacle(deps, LimitExceeded)
  {
    hide HasCycle, HasLongTrail, Bounded;
    UnboundedExactly(deps);
  }

  lemma {:induction false} DistinctMore(trail: seq<Name>, name: Name)
    requires Distinct(trail) && name !in trail
    ensures Distinct(trail + [name])
  {
  }

  lemma {:induction false} ChildrenDeclared(deps: Graph, name: Name, children: seq<Name>)
    requires Closed(deps) && name in deps && Lists(children, deps[name])
    ensures forall n :: n in children ==> n in deps && n in deps[name]
  {
  }

  lemma {:induction false} NothingLeft(deps: Graph, cache: map<Name, Closure>, trail: seq<Name>, so: Closure)
    requires Closed(deps)
    ensures ExploreAll(deps, cache, trail, [], so) == Ok((cache, so))
  {
  }

  // ---------------------------------------------------------------- all types

  lemma {:induction false} AllCachedIsBounded(deps: Graph, cache: map<Name, Closure>)
    requires CacheCorrect(deps, cache) && deps.Keys <= cache.Keys
    ensures Bounded(deps)
  {
    forall p | Path(deps, p) ensures |p| <= MAX_DEPTH + 1 {
      assert p[0] in cache && PathFrom(deps, p[0], p);
    }
  }

  /** The search succeeds on every type exactly when no path is longer than the limit, and then each
      cached set is exactly what the type reaches. Otherwise the error is that of the ascending search: a cycle
      where no trail is too long, the limit where there is no cycle. */
  method Closures(deps: Graph) returns (r: Result<map<Name, Closure>, SchemaError>)
    requires Closed(deps)
    ensures r.Ok? <==> Bounded(deps)
    ensures r.Ok? ==> r.value.Keys == deps.Keys && CacheCorrect(deps, r.value)
    ensures SearchFault(deps) == if r.Ok? then None else Some(r.error)
    ensures r.Err? ==> Obstacle(deps, r.error)
  {
    hide Bounded, Correct, HasCycle, HasLongTrail, Explore, ExploreTypes, Lists, Path, Closed;
    var search := new Search(deps);
    var names := InOrder(deps.Keys);
    AllNames(deps, names);
    var i := 0;
    assert names[0..] == names;
    while i < |names|
      invariant 0 <= i <= |names| && search.deps == deps && search.Valid([]) && fresh(search)
      invariant forall j :: 0 <= j < i ==> names[j] in search.cache
      invariant ExploreTypes(deps, map[], names) == ExploreTypes(deps, search.cache, names[i..])
    {
      NextType(deps, search.cache, names, i);
      var visited := search.Visit(names[i], 0, []);
      if visited.Err? {
        return Err(visited.error);
      }
      i := i + 1;
    }
    EveryType(deps, search.cache, names);
    AllCachedIsBounded(deps, search.cache);
    return Ok(search.cache);
  }

  lemma {:induction false} NextType(deps: Graph, cache: map<Name, Closure>, names: seq<Name>, i: nat)
    requires Closed(deps) && i < |names| && forall n :: n in names ==> n in deps
    ensures names[i] in deps && Path(deps, [] + [names[i]])
    ensures ExploreTypes(deps, cache, names[i..]) ==
            match Explore(deps, cache, [], names[i])
            case Err(e) => Err(e)
            case Ok(after) => ExploreTypes(deps, after, names[i + 1..])
  {
    hide Explore;
    assert names[i] in names && names[i..][0] == names[i] && names[i..][1..] == names[i + 1..];
  }

  lemma {:induction false} EveryType(deps: Graph, cache: map<Name, Closure>, names: seq<Name>)
    requires Closed(deps) && (forall n :: n in deps ==> n in names) && CacheCorrect(deps, cache)
    requires forall j :: 0 <= j < |names| ==> names[j] in cache
    ensures deps.Keys == cache.Keys && ExploreTypes(deps, cache, names[|names|..]) == Ok(cache)
  {
    hide Correct;
    assert names[|names|..] == [];
    forall n | n in deps ensures n in cache {
      var j :| 0 <= j < |names| && names[j] == n;
    }
  }

  lemma {:induction false} AllNames(deps: Graph, names: seq<Name>)
    requires Lists(names, deps.Keys)
    ensures forall n :: n in names <==> n in deps
  {
  }
}
