/** Names in byte order, and sets of names listed in it. */
module SchemaOrder {
  import opened ByteStrings
  import opened SchemaGraph

  /** Byte order of names. */
  predicate Less(a: Name, b: Name) {
    if b == [] then false
    else if a == [] then true
    else if a[0] != b[0] then a[0] < b[0]
    else Less(a[1..], b[1..])
  }

  lemma {:induction false} LessTotal(a: Name, b: Name)
    ensures a == b || Less(a, b) || Less(b, a)
    ensures !(Less(a, b) && Less(b, a)) && (a == b ==> !Less(a, b))
  {
    if a != [] && b != [] {
      assert a == [a[0]] + a[1..] && b == [b[0]] + b[1..];
      LessTotal(a[1..], b[1..]);
    }
  }

  lemma {:induction false} LessTransitive(a: Name, b: Name, c: Name)
    requires Less(a, b) && Less(b, c)
    ensures Less(a, c)
  {
    if a != [] && a[0] == b[0] && b[0] == c[0] {
      LessTransitive(a[1..], b[1..], c[1..]);
    }
  }

  predicate IsLeast(m: Name, s: set<Name>) {
    m in s && forall x :: x in s && x != m ==> Less(m, x)
  }

  lemma {:induction false} LeastExists(s: set<Name>) returns (m: Name)
    requires s != {}
    ensures IsLeast(m, s)
    decreases s
  {
    var x :| x in s;
    if s == {x} {
      m := x;
    } else {
      assert s - {x} != {};
      var y := LeastExists(s - {x});
      LessTotal(x, y);
      m := if Less(x, y) then x else y;
      forall z | z in s && z != m ensures Less(m, z) {
        if m == x && z != y {
          LessTransitive(x, y, z);
        }
      }
    }
  }

  /** `q` names the members of `s` in ascending order, each once. */
  ghost predicate Lists(q: seq<Name>, s: set<Name>) {
    && (forall i, j :: 0 <= i < j < |q| ==> Less(q[i], q[j]))
    && (forall x :: x in q <==> x in s)
  }

  lemma {:induction false} ListsOnce(q: seq<Name>, s: set<Name>)
    requires Lists(q, s)
    ensures |q| == |s|
    decreases |q|
  {
    if q == [] {
      assert s == {};
    } else {
      ListsTail(q, s);
      ListsOnce(q[1..], s - {q[0]});
    }
  }

  lemma {:induction false} ListsTail(q: seq<Name>, s: set<Name>)
    requires Lists(q, s) && q != []
    ensures Lists(q[1..], s - {q[0]}) && q[0] in s
  {
    hide Less;
    assert q[0] in q;
    forall x ensures x in q[1..] <==> x in s - {q[0]} {
      if x in q[1..] {
        var i :| 0 <= i < |q[1..]| && q[1..][i] == x;
        assert q[i + 1] == x && Less(q[0], q[i + 1]);
        LessTotal(x, x);
      }
      if x in s && x != q[0] {
        var i :| 0 <= i < |q| && q[i] == x;
        assert q[1..][i - 1] == x;
      }
    }
  }

  /** The ascending listing of a set is unique. */
  lemma {:induction false} ListsUnique(a: seq<Name>, b: seq<Name>, s: set<Name>)
    requires Lists(a, s) && Lists(b, s)
    ensures a == b
    decreases |a|
  {
    hide Less;
    ListsOnce(a, s);
    ListsOnce(b, s);
    if a == [] {
    } else {
      assert a[0] in s && b[0] in s;
      var i :| 0 <= i < |b| && b[i] == a[0];
      var j :| 0 <= j < |a| && a[j] == b[0];
      LessTotal(a[0], b[0]);
      assert a[0] == b[0];
      ListsTail(a, s);
      ListsTail(b, s);
      ListsUnique(a[1..], b[1..], s - {a[0]});
      assert a == [a[0]] + a[1..] && b == [b[0]] + b[1..];
    }
  }

  function Members(q: seq<Name>): set<Name> {
    set n | n in q
  }

  lemma {:induction false} MembersNext(q: seq<Name>, i: nat)
    requires i < |q|
    ensures Members(q[..i + 1]) == Members(q[..i]) + {q[i]}
  {
    assert q[..i + 1] == q[..i] + [q[i]];
  }

  lemma {:induction false} MembersListed(q: seq<Name>, s: set<Name>)
    requires Lists(q, s)
    ensures Members(q[..0]) == {} && Members(q[..|q|]) == s
  {
    assert q[..|q|] == q;
  }

  lemma {:induction false} SomeLeast(s: set<Name>)
    requires s != {}
    ensures exists m :: IsLeast(m, s)
  {
    var m := LeastExists(s);
  }

  lemma {:induction false} ListsCons(m: Name, q: seq<Name>, s: set<Name>)
    requires IsLeast(m, s) && Lists(q, s - {m})
    ensures Lists([m] + q, s)
  {
    hide Less;
    var all := [m] + q;
    forall i, j | 0 <= i < j < |all| ensures Less(all[i], all[j]) {
      assert all[j] == q[j - 1] && q[j - 1] in q;
    }
    forall x ensures x in all <==> x in s {
      assert x in all <==> x == m || x in q;
      assert x in q <==> x in s - {m};
    }
  }

  /** The members of a set in ascending order. */
  ghost function Ascending(s: set<Name>): (q: seq<Name>)
    ensures Lists(q, s)
  {
    if s == {} then []
    else
      SomeLeast(s);
      var m :| IsLeast(m, s);
      ListsCons(m, Ascending(s - {m}), s);
      [m] + Ascending(s - {m})
  }

  /** Ascending iteration over a set. */
  method InOrder(s: set<Name>) returns (q: seq<Name>)
    ensures Lists(q, s) && q == Ascending(s)
  {
    hide Less, Ascending;
    q := [];
    var rest := s;
    while rest != {}
      invariant rest <= s && Lists(q, s - rest)
      invariant forall i, x :: 0 <= i < |q| && x in rest ==> Less(q[i], x)
      decreases rest
    {
      ghost var least := LeastExists(rest);
      var m :| m in rest && forall x :: x in rest && x != m ==> Less(m, x);
      q := q + [m];
      rest := rest - {m};
    }
    ListsUnique(q, Ascending(s), s);
  }
}
