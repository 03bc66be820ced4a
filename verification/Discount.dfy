/** The batch discount of conversions in basis points (conversion.rs): a cubic in the ratio of batch
    total to flow amount, in checked 256-bit arithmetic. */
module Discount {
  import opened ByteStrings

  const WORD: nat := 0x1_0000_0000_0000_0000_0000_0000_0000_0000_0000_0000_0000_0000_0000_0000_0000_0000

  function CheckedMul(a: nat, b: nat): Option<nat> {
    if a * b < WORD then Some(a * b) else None
  }

  function CheckedAdd(a: nat, b: nat): Option<nat> {
    if a + b < WORD then Some(a + b) else None
  }

  /** `u16::try_from`. */
  function Narrow(n: nat): Option<nat> {
    if n < 0x1_0000 then Some(n) else None
  }

  function CheckedCube(a: nat): Option<nat> {
    match CheckedMul(a, a)
    case None => None
    case Some(square) => CheckedMul(square, a)
  }

  function CeilDiv(n: nat, d: nat): nat
    requires d > 0
  {
    if n % d == 0 then n / d else n / d + 1
  }

  function Bps(total: nat, flow: nat): Option<nat> {
    if flow == 0 then None
    else if total <= flow then Some(20)
    else
      match CheckedMul(flow, 10)
      case None => None
      case Some(tenfold) => if total > tenfold then Some(9000) else Cubic(total, flow)
  }

  function Cubic(total: nat, flow: nat): Option<nat>
    requires flow > 0
  {
    match CheckedCube(total)
    case None => None
    case Some(cube) =>
      match CheckedMul(cube, 10)
      case None => None
      case Some(numerator) =>
        match CheckedCube(flow)
        case None => None
        case Some(denominator) =>
          CubeNotZero(flow);
          match CheckedAdd(CeilDiv(numerator, denominator), 10)
          case None => None
          case Some(bps) => Narrow(Min(bps, 9000))
  }

  function Cube(a: nat): nat {
    a * a * a
  }

  lemma {:induction false} CubeNotZero(a: nat)
    requires a > 0
    ensures Cube(a) > 0
  {
    MulPositive(a, a);
    MulPositive(a * a, a);
  }

  lemma {:induction false} ProductMonotone(a: nat, b: nat, c: nat, d: nat)
    requires a <= b && c <= d
    ensures a * c <= b * d
  {
    MulMonotone(a, b, c);
    MulMonotone(c, d, b);
  }

  lemma {:induction false} MulPositive(a: nat, b: nat)
    requires a > 0 && b > 0
    ensures a * b > 0
  {
  }

  lemma {:induction false} CubeMonotone(a: nat, b: nat)
    requires a <= b
    ensures Cube(a) <= Cube(b)
  {
    ProductMonotone(a, b, a, b);
    ProductMonotone(a * a, b * b, a, b);
  }

  lemma {:induction false} CubeStrict(a: nat, b: nat)
    requires a < b
    ensures Cube(a) < Cube(b)
  {
    ProductMonotone(a, b, a, b);
    ProductMonotone(a * a, b * b, a, a);
    assert b * b * b == b * b * a + b * b * (b - a);
    MulPositive(b, b);
    MulPositive(b * b, b - a);
  }

  /** The ceiling is the least multiplier that covers the numerator. */
  lemma {:induction false} CeilIsLeast(n: nat, d: nat, k: nat)
    requires d > 0
    ensures n <= CeilDiv(n, d) * d
    ensures n <= k * d ==> CeilDiv(n, d) <= k
  {
    assert n == n / d * d + n % d;
    if n <= k * d && CeilDiv(n, d) > k {
      ProductMonotone(k, CeilDiv(n, d) - 1, d, d);
    }
  }

  /** In the middle range the ceiling is at most 10000, so adding 10 cannot overflow and the capped value
      fits 16 bits: the last two checks of the source never fail. */
  lemma {:induction false} CeilingIsSmall(total: nat, flow: nat)
    requires 0 < flow && total <= flow * 10
    ensures Cube(flow) > 0 && CeilDiv(Cube(total) * 10, Cube(flow)) <= 10000
  {
    hide CeilDiv;
    CubeNotZero(flow);
    CubeMonotone(total, flow * 10);
    assert Cube(flow * 10) == 1000 * Cube(flow);
    CeilIsLeast(Cube(total) * 10, Cube(flow), 10000);
  }

  /** The square never overflows unless the cube does. */
  lemma {:induction false} CubeFits(a: nat)
    requires a > 0
    ensures CheckedCube(a) == if Cube(a) < WORD then Some(Cube(a)) else None
  {
    SquareBelowCube(a);
  }

  lemma {:induction false} SquareBelowCube(a: nat)
    requires a > 0
    ensures a * a <= Cube(a)
  {
    ProductMonotone(1, a, a * a, a * a);
    assert Cube(a) == a * (a * a);
  }

  /** In the middle range the discount is the exact ceiling formula, capped, and is defined exactly when the
      scaled amounts fit a word. */
  lemma {:induction false} MiddleIsCeiling(total: nat, flow: nat)
    requires 0 < flow < total <= flow * 10
    ensures Cube(flow) > 0 && CeilDiv(Cube(total) * 10, Cube(flow)) > 10
    ensures Bps(total, flow) ==
            if flow * 10 < WORD && Cube(total) * 10 < WORD
            then Some(Min(CeilDiv(Cube(total) * 10, Cube(flow)) + 10, 9000)) else None
  {
    hide CheckedCube, Cube, CeilDiv;
    CubeFits(total);
    CubeFits(flow);
    CubeNotZero(flow);
    CeilingIsSmall(total, flow);
    CubeStrict(flow, total);
    MoreThanTen(Cube(total), Cube(flow));
  }

  lemma {:induction false} MoreThanTen(n: nat, d: nat)
    requires 0 < d < n
    ensures CeilDiv(n * 10, d) > 10
  {
    hide CeilDiv;
    var c := CeilDiv(n * 10, d);
    CeilIsLeast(n * 10, d, 10);
    if c <= 10 {
      ProductMonotone(c, 10, d, d);
    }
  }

  /** Exactly where the discount is undefined. */
  lemma {:induction false} DefinedExactly(total: nat, flow: nat)
    ensures Bps(total, flow).None? <==>
              flow == 0 || (total > flow && (flow * 10 >= WORD || (total <= flow * 10 && Cube(total) * 10 >= WORD)))
  {
    hide Cubic, Cube, CeilDiv;
    if 0 < flow < total <= flow * 10 {
      MiddleIsCeiling(total, flow);
    }
  }

  lemma {:induction false} InRange(total: nat, flow: nat)
    requires Bps(total, flow).Some?
    ensures 20 <= Bps(total, flow).value <= 9000
  {
    hide Cubic, Cube, CeilDiv;
    if 0 < flow < total <= flow * 10 {
      MiddleIsCeiling(total, flow);
    }
  }

  /** A larger batch never gets a smaller discount. */
  lemma {:induction false} GrowsWithTotal(small: nat, large: nat, flow: nat)
    requires small <= large && Bps(small, flow).Some? && Bps(large, flow).Some?
    ensures Bps(small, flow).value <= Bps(large, flow).value
  {
    hide Cubic, Cube, CeilDiv;
    InRange(small, flow);
    InRange(large, flow);
    if flow < small && large <= flow * 10 {
      MiddleIsCeiling(small, flow);
      MiddleIsCeiling(large, flow);
      CubeMonotone(small, large);
      CeilIsLeast(Cube(large) * 10, Cube(flow), 0);
      CeilIsLeast(Cube(small) * 10, Cube(flow), CeilDiv(Cube(large) * 10, Cube(flow)));
    }
  }

  /** A larger flow never gets a larger discount. */
  lemma {:induction false} FallsWithFlow(total: nat, small: nat, large: nat)
    requires small <= large && Bps(total, small).Some? && Bps(total, large).Some?
    ensures Bps(total, large).value <= Bps(total, small).value
  {
    hide Cubic, Cube, CeilDiv;
    InRange(total, small);
    InRange(total, large);
    if large < total <= small * 10 {
      MiddleIsCeiling(total, small);
      MiddleIsCeiling(total, large);
      CubeMonotone(small, large);
      var c := CeilDiv(Cube(total) * 10, Cube(small));
      CeilIsLeast(Cube(total) * 10, Cube(small), 0);
      ProductMonotone(c, c, Cube(small), Cube(large));
      CeilIsLeast(Cube(total) * 10, Cube(large), c);
    }
  }
}
