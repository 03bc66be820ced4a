/** Byte strings, big-endian naturals, and the result type shared by every component. */
module ByteStrings {

  type byte = b: int | 0 <= b < 256

  datatype Option<+T> = None | Some(value: T)

  datatype Result<+T, +E> = Ok(value: T) | Err(error: E) {
    predicate IsFailure() {
      Err?
    }

    function PropagateFailure<U>(): Result<U, E>
      requires Err?
    {
      Err(error)
    }

    function Extract(): T
      requires Ok?
    {
      value
    }
  }

  function Min(a: int, b: int): int {
    if a <= b then a else b
  }

  function Max(a: int, b: int): int {
    if a >= b then a else b
  }

  // ---------------------------------------------------------------- first of several faults

  function FirstFault<T>(faults: seq<Option<T>>): Option<T> {
    if faults == [] then None else if faults[0].Some? then faults[0] else FirstFault(faults[1..])
  }

  lemma {:induction false} NoFault<T>(faults: seq<Option<T>>)
    ensures FirstFault(faults).None? <==> forall k :: 0 <= k < |faults| ==> faults[k].None?
  {
    if faults == [] {
    } else {
      NoFault(faults[1..]);
      assert faults == [faults[0]] + faults[1..];
    }
  }

  lemma {:induction false} FirstAt<T>(faults: seq<Option<T>>, k: nat)
    requires k < |faults| && faults[k].Some? && forall j :: 0 <= j < k ==> faults[j].None?
    ensures FirstFault(faults) == faults[k]
  {
    if k == 0 {
    } else {
      FirstAt(faults[1..], k - 1);
    }
  }

  // ---------------------------------------------------------------- collecting results

  /** What was collected so far, in front of what is still to come. */
  function Onto<T, E>(front: seq<T>, rest: Result<seq<T>, E>): Result<seq<T>, E> {
    match rest
    case Ok(more) => Ok(front + more)
    case Err(e) => Err(e)
  }

  lemma {:induction false} OntoLaws<T, E>(front: seq<T>, x: T, rest: Result<seq<T>, E>)
    ensures Onto(front + [x], rest) == Onto(front, Onto([x], rest))
  {
    if rest.Ok? {
      assert front + [x] + rest.value == front + ([x] + rest.value);
    }
  }

  lemma {:induction false} OntoNothing<T, E>(rest: Result<seq<T>, E>)
    ensures Onto([], rest) == rest
  {
    if rest.Ok? {
      assert [] + rest.value == rest.value;
    }
  }

  // ---------------------------------------------------------------- powers

  function Pow(b: nat, n: nat): nat {
    if n == 0 then 1 else b * Pow(b, n - 1)
  }

  lemma {:induction false} PowPositive(b: nat, n: nat)
    requires b >= 1
    ensures Pow(b, n) >= 1
  {
    if n == 0 {
    } else {
      PowPositive(b, n - 1);
    }
  }

  lemma {:induction false} PowAdd(b: nat, m: nat, n: nat)
    ensures Pow(b, m + n) == Pow(b, m) * Pow(b, n)
  {
    if m == 0 {
    } else {
      PowAdd(b, m - 1, n);
      assert Pow(b, m + n) == b * Pow(b, m - 1 + n) && Pow(b, m) == b * Pow(b, m - 1);
      hide Pow;
      MulAssociative(b, Pow(b, m - 1), Pow(b, n));
    }
  }

  lemma {:induction false} MulAssociative(a: nat, b: nat, c: nat)
    ensures a * (b * c) == (a * b) * c
  {
  }

  lemma {:induction false} PowMonotone(b: nat, m: nat, n: nat)
    requires b >= 1 && m <= n
    ensures Pow(b, m) <= Pow(b, n)
  {
    PowPositive(b, n - m);
    PowAdd(b, m, n - m);
    MulGrows(Pow(b, m), Pow(b, n - m));
  }

  lemma {:induction false} MulGrows(x: nat, k: nat)
    requires k >= 1
    ensures x <= x * k
  {
    assert x * k == x + x * (k - 1);
  }

  lemma {:induction false} MulMonotone(x: nat, y: nat, k: nat)
    requires x <= y
    ensures x * k <= y * k
  {
  }

  // ---------------------------------------------------------------- big-endian naturals

  /** The natural number that `s` spells, most significant byte first. */
  function BeNat(s: seq<byte>): nat {
    if |s| == 0 then 0 else 256 * BeNat(s[..|s| - 1]) + s[|s| - 1]
  }

  /** The low `len` bytes of `n`, most significant byte first. */
  function ToBe(n: nat, len: nat): (s: seq<byte>)
    ensures |s| == len
  {
    if len == 0 then [] else ToBe(n / 256, len - 1) + [n % 256]
  }

  lemma {:induction false} BeNatBound(s: seq<byte>)
    ensures BeNat(s) < Pow(256, |s|)
  {
    if |s| == 0 {
    } else {
      BeNatBound(s[..|s| - 1]);
    }
  }

  lemma {:induction false} ToBeOfBeNat(s: seq<byte>)
    ensures ToBe(BeNat(s), |s|) == s
  {
    if |s| == 0 {
    } else {
      ToBeOfBeNat(s[..|s| - 1]);
      assert s == s[..|s| - 1] + [s[|s| - 1]];
    }
  }

  lemma {:induction false} BeNatOfToBe(n: nat, len: nat)
    requires n < Pow(256, len)
    ensures BeNat(ToBe(n, len)) == n
  {
    if len == 0 {
    } else {
      BeNatOfToBe(n / 256, len - 1);
      assert ToBe(n, len)[..len - 1] == ToBe(n / 256, len - 1);
    }
  }

  lemma {:induction false} ShiftIn(x: nat, p: nat, y: nat, d: nat)
    ensures 256 * (x * p + y) + d == x * (256 * p) + (256 * y + d)
  {
    assert x * (256 * p) == 256 * (x * p);
  }

  lemma {:induction false} BeNatSnoc(s: seq<byte>, b: byte)
    ensures BeNat(s + [b]) == 256 * BeNat(s) + b
  {
    assert (s + [b])[..|s|] == s;
  }

  lemma {:induction false} BeNatConcat(a: seq<byte>, b: seq<byte>)
    ensures BeNat(a + b) == BeNat(a) * Pow(256, |b|) + BeNat(b)
  {
    if |b| == 0 {
      assert a + b == a;
    } else {
      var front, last := b[..|b| - 1], b[|b| - 1];
      assert Pow(256, |b|) == 256 * Pow(256, |front|);
      hide BeNat, Pow;
      BeNatConcat(a, front);
      assert b == front + [last] && a + b == (a + front) + [last];
      BeNatSnoc(a + front, last);
      BeNatSnoc(front, last);
      ShiftIn(BeNat(a), Pow(256, |front|), BeNat(front), last);
    }
  }

  predicate All(s: seq<byte>, b: byte) {
    forall i :: 0 <= i < |s| ==> s[i] == b
  }

  function Zeros(n: nat): (s: seq<byte>)
    ensures |s| == n && All(s, 0)
  {
    seq(n, _ => 0)
  }

  lemma {:induction false} BeNatZero(s: seq<byte>)
    ensures BeNat(s) == 0 <==> All(s, 0)
  {
    if |s| == 0 {
    } else {
      var s' := s[..|s| - 1];
      BeNatZero(s');
      if All(s', 0) && s[|s| - 1] == 0 {
        assert All(s, 0);
      }
      if All(s, 0) {
        assert forall i :: 0 <= i < |s'| ==> s'[i] == s[i];
      }
    }
  }

  lemma {:induction false} BeNatAllOnes(s: seq<byte>)
    ensures BeNat(s) == Pow(256, |s|) - 1 <==> All(s, 255)
  {
    if |s| == 0 {
    } else {
      var s' := s[..|s| - 1];
      BeNatAllOnes(s');
      BeNatBound(s');
      if All(s', 255) && s[|s| - 1] == 255 {
        assert All(s, 255);
      }
      if All(s, 255) {
        assert forall i :: 0 <= i < |s'| ==> s'[i] == s[i];
      }
    }
  }

  lemma {:induction false} SplitZero(hi: nat, lo: nat, unit: nat)
    requires lo < unit
    ensures hi == 0 <==> hi * unit + lo < unit
  {
    if hi >= 1 {
      MulMonotone(1, hi, unit);
    }
  }

  lemma {:induction false} SplitOnes(n: nat, hi: nat, lo: nat, top: nat, unit: nat, total: nat)
    requires lo < unit && hi < top
    requires n == hi * unit + lo && total == top * unit
    ensures hi == top - 1 <==> n >= total - unit
    ensures hi == top - 1 ==> n == total - unit + lo
  {
    assert (top - 1) * unit == top * unit - unit;
    if hi <= top - 2 {
      MulMonotone(hi, top - 2, unit);
      assert (top - 2) * unit == top * unit - 2 * unit;
    }
  }

  lemma {:induction false} BeNatSplit(s: seq<byte>, k: nat)
    requires k <= |s|
    ensures BeNat(s) == BeNat(s[..k]) * Pow(256, |s| - k) + BeNat(s[k..])
  {
    assert s == s[..k] + s[k..];
    BeNatConcat(s[..k], s[k..]);
  }

  lemma {:induction false} BeNatSplitParts(s: seq<byte>, k: nat)
    requires k <= |s|
    ensures BeNat(s) == BeNat(s[..k]) * Pow(256, |s| - k) + BeNat(s[k..])
    ensures Pow(256, |s|) == Pow(256, k) * Pow(256, |s| - k)
    ensures BeNat(s[..k]) < Pow(256, k) && BeNat(s[k..]) < Pow(256, |s| - k)
  {
    BeNatSplit(s, k);
    BeNatBound(s[..k]);
    BeNatBound(s[k..]);
    PowAdd(256, k, |s| - k);
  }

  /** A prefix of zeros is exactly a bound on the value. */
  lemma {:induction false} BeNatPrefixZero(s: seq<byte>, k: nat)
    requires k <= |s|
    ensures All(s[..k], 0) <==> BeNat(s) < Pow(256, |s| - k)
    ensures All(s[..k], 0) ==> BeNat(s) == BeNat(s[k..])
  {
    var lo := s[k..];
    BeNatSplit(s, k);
    BeNatBound(lo);
    BeNatZero(s[..k]);
    SplitZero(BeNat(s[..k]), BeNat(lo), Pow(256, |lo|));
  }

  /** A prefix of 0xff bytes is exactly a lower bound on the value. */
  lemma {:induction false} BeNatPrefixOnes(s: seq<byte>, k: nat)
    requires k <= |s|
    ensures All(s[..k], 255) <==> BeNat(s) >= Pow(256, |s|) - Pow(256, |s| - k)
    ensures All(s[..k], 255) ==> BeNat(s) == Pow(256, |s|) - Pow(256, |s| - k) + BeNat(s[k..])
  {
    var hi, lo := s[..k], s[k..];
    assert BeNat(hi) == Pow(256, |hi|) - 1 <==> All(hi, 255) by {
      BeNatAllOnes(hi);
    }
    BeNatSplitParts(s, k);
    SplitOnes(BeNat(s), BeNat(hi), BeNat(lo), Pow(256, k), Pow(256, |s| - k), Pow(256, |s|));
  }
}
