/** Fixed-point money: half-up proration, floor conversion and the checked
    int64 operations. Amounts are fen (RMB * 100) or micro-USD (USD * 10^6).
    Mathematical integers stand for big.Int; int64 bounds are explicit. */
module Money {
  import opened Options

  const MAX_INT64: int := 0x7FFF_FFFF_FFFF_FFFF
  const MIN_INT64: int := -0x8000_0000_0000_0000
  const TWO_TO_64: int := 0x1_0000_0000_0000_0000
  const FEN_TO_MICRO_SCALE: int := 10_000_000_000

  predicate IsInt64(x: int) {
    MIN_INT64 <= x <= MAX_INT64
  }

  // --- Proration of a locked top-up amount --------------------------------

  /** The micro-USD that must have been returned once refundedFen of moneyFen is refunded. */
  function Prorated(amountMicro: int, moneyFen: int, refundedFen: int): Option<int> {
    if amountMicro <= 0 || moneyFen <= 0 || refundedFen < 0 || refundedFen > moneyFen then
      None
    else if refundedFen == 0 then
      Some(0)
    else if refundedFen == moneyFen then
      Some(amountMicro)
    else
      var quotient := (2 * (amountMicro * refundedFen) + moneyFen) / (2 * moneyFen);
      if IsInt64(quotient) then Some(quotient) else None
  }

  /** v is amountMicro * refundedFen / moneyFen rounded to the nearest integer, ties upwards. */
  ghost predicate RoundsHalfUp(amountMicro: int, moneyFen: int, refundedFen: int, v: int) {
    2 * (moneyFen * v) - moneyFen <= 2 * (amountMicro * refundedFen) < 2 * (moneyFen * v) + moneyFen
  }

  predicate Refundable(amountMicro: int, moneyFen: int, refundedFen: int) {
    0 < amountMicro <= MAX_INT64 && 0 < moneyFen && 0 <= refundedFen <= moneyFen
  }

  lemma DivisionBounds(n: int, d: int)
    requires 0 < d
    ensures d * (n / d) <= n < d * (n / d) + d
  {
  }

  lemma ProductOrder(k: int, a: int, b: int)
    requires 0 < k && k * a < k * b + k
    ensures a <= b
  {
    if b < a {
      ProductMonotone(k, b + 1, a);
      assert false;
    }
  }

  lemma ProductMonotone(k: int, a: int, b: int)
    requires 0 <= k && a <= b
    ensures k * a <= k * b
  {
  }

  /** At most one integer is the half-up rounding. */
  lemma RoundingUnique(a: int, m: int, r: int, v: int, w: int)
    requires 0 < m && RoundsHalfUp(a, m, r, v) && RoundsHalfUp(a, m, r, w)
    ensures v == w
  {
    ProductOrder(m, v, w);
    ProductOrder(m, w, v);
  }

  /** The big-integer quotient is the half-up rounding and lies in [0, a]. */
  lemma QuotientRounds(a: int, m: int, r: int, q: int)
    requires 0 < a && 0 < r < m && q == (2 * (a * r) + m) / (2 * m)
    ensures 0 <= q <= a && RoundsHalfUp(a, m, r, q)
  {
    DivisionBounds(2 * (a * r) + m, 2 * m);
    assert 2 * m * q == 2 * (m * q);
    QuotientRange(a, m, r, q);
  }

  lemma QuotientRange(a: int, m: int, r: int, q: int)
    requires 0 < a && 0 < r < m && RoundsHalfUp(a, m, r, q)
    ensures 0 <= q <= a
  {
    ProductMonotone(a, 0, r);
    ProductMonotone(a, r, m);
    ProductOrder(m, q, a);
    ProductOrder(m, 0, q);
  }

  /** The shortcut branches and the int64 check never disagree with half-up rounding:
      on every refundable triple the result exists, lies in [0, amountMicro], differs from
      the exact share by at most half a micro and hits both end points. */
  lemma ProratedRounds(a: int, m: int, r: int)
    requires Refundable(a, m, r)
    ensures Prorated(a, m, r).Some?
    ensures 0 <= Prorated(a, m, r).value <= a
    ensures RoundsHalfUp(a, m, r, Prorated(a, m, r).value)
    ensures Prorated(a, m, 0) == Some(0) && Prorated(a, m, m) == Some(a)
  {
    hide RoundsHalfUp;
    if r == 0 {
      EndpointsRound(a, m);
    } else if r == m {
      EndpointsRound(a, m);
    } else {
      QuotientRounds(a, m, r, (2 * (a * r) + m) / (2 * m));
    }
  }

  lemma EndpointsRound(a: int, m: int)
    requires 0 < m
    ensures RoundsHalfUp(a, m, 0, 0) && RoundsHalfUp(a, m, m, a)
  {
  }

  lemma ProratedDomain(a: int, m: int, r: int)
    ensures Prorated(a, m, r).Some? ==> 0 < a && 0 < m && 0 <= r <= m
    ensures a <= MAX_INT64 ==> (Prorated(a, m, r).Some? <==> Refundable(a, m, r))
  {
    if Refundable(a, m, r) {
      ProratedRounds(a, m, r);
    }
  }

  lemma ProratedMonotone(a: int, m: int, r: int, s: int)
    requires Refundable(a, m, r) && Refundable(a, m, s) && r <= s
    ensures Prorated(a, m, r).Some? && Prorated(a, m, s).Some?
    ensures Prorated(a, m, r).value <= Prorated(a, m, s).value
  {
    ProratedRounds(a, m, r);
    ProratedRounds(a, m, s);
    var v, w := Prorated(a, m, r).value, Prorated(a, m, s).value;
    ProductMonotone(a, r, s);
    ProductOrder(m, v, w);
  }

  /** What one partial refund takes back when the order moves from r to s refunded fen. */
  function Share(a: int, m: int, r: int, s: int): int {
    match (Prorated(a, m, r), Prorated(a, m, s))
    case (Some(v), Some(w)) => w - v
    case _ => 0
  }

  ghost function ChainShares(a: int, m: int, steps: seq<int>): int {
    if |steps| <= 1 then 0
    else ChainShares(a, m, steps[..|steps| - 1]) + Share(a, m, steps[|steps| - 2], steps[|steps| - 1])
  }

  ghost predicate RefundChain(m: int, steps: seq<int>) {
    && |steps| > 0
    && (forall i :: 0 <= i < |steps| ==> 0 <= steps[i] <= m)
    && (forall i, j :: 0 <= i <= j < |steps| ==> steps[i] <= steps[j])
  }

  /** However an order is split into partial refunds, the rounded shares add up to the
      prorated difference of the end points: nothing is lost or gained to rounding. */
  lemma {:induction false} ChainTelescopes(a: int, m: int, steps: seq<int>)
    requires 0 < a <= MAX_INT64 && 0 < m && RefundChain(m, steps)
    ensures ChainShares(a, m, steps) == Share(a, m, steps[0], steps[|steps| - 1])
    ensures steps[0] == 0 && steps[|steps| - 1] == m ==> ChainShares(a, m, steps) == a
    ensures ChainShares(a, m, steps) >= 0
  {
    var last := |steps| - 1;
    ProratedMonotone(a, m, steps[0], steps[last]);
    if last > 0 {
      var front := steps[..last];
      ChainTelescopes(a, m, front);
      ProratedMonotone(a, m, steps[0], steps[last - 1]);
      ProratedMonotone(a, m, steps[last - 1], steps[last]);
    }
    ProratedRounds(a, m, 0);
  }

  // --- Conversion at the locked exchange rate ------------------------------

  /** RMB fen at a rate of RMB per USD (times 10^6), truncated to micro-USD. */
  function UsdMicroFromFen(fen: int, rateMicros: int): Option<int> {
    if fen <= 0 || rateMicros <= 0 then None
    else
      var result := fen * FEN_TO_MICRO_SCALE / rateMicros;
      if !IsInt64(result) || result <= 0 then None else Some(result)
  }

  /** The conversion is the exact floor: it succeeds with v exactly when both inputs are positive
      and v is the positive int64 with v * rate <= fen * 10^10 < (v + 1) * rate, so it never
      over-credits. */
  lemma ConversionIsFloor(fen: int, rate: int, v: int)
    ensures UsdMicroFromFen(fen, rate) == Some(v) <==>
            && 0 < fen && 0 < rate && 0 < v <= MAX_INT64
            && rate * v <= fen * FEN_TO_MICRO_SCALE < rate * v + rate
  {
    if 0 < fen && 0 < rate {
      var n := fen * FEN_TO_MICRO_SCALE;
      DivisionBounds(n, rate);
      if rate * v <= n < rate * v + rate {
        ProductOrder(rate, v, n / rate);
        ProductOrder(rate, n / rate, v);
      }
    }
  }

  // --- Checked int64 arithmetic --------------------------------------------

  /** Two's-complement wrap-around of a mathematical integer to int64. */
  function Wrap64(x: int): int {
    (x - MIN_INT64) % TWO_TO_64 + MIN_INT64
  }

  /** Go's integer division: truncation towards zero, and MinInt64 / -1 wraps. */
  function GoDiv(x: int, y: int): int
    requires y != 0
  {
    var magnitude := Abs(x) / Abs(y);
    Wrap64(if (x < 0) == (y < 0) then magnitude else -magnitude)
  }

  function Abs(x: int): int {
    if x < 0 then -x else x
  }

  function CheckedMul(a: int, b: int): Option<int> {
    if a == 0 || b == 0 then Some(0)
    else
      var c := Wrap64(a * b);
      if GoDiv(c, a) != b then None
      else if (a == MIN_INT64 && b == -1) || (b == MIN_INT64 && a == -1) then None
      else Some(c)
  }

  function CheckedAdd(a: int, b: int): Option<int> {
    var c := Wrap64(a + b);
    if (a > 0 && b > 0 && c < 0) || (a < 0 && b < 0 && c >= 0) then None else Some(c)
  }

  lemma WrapInt64(x: int)
    ensures IsInt64(Wrap64(x))
    ensures IsInt64(x) ==> Wrap64(x) == x
    ensures exists k: int :: Wrap64(x) == x + k * TWO_TO_64
  {
    var k := (x - MIN_INT64) / TWO_TO_64;
    assert Wrap64(x) == x + (-k) * TWO_TO_64;
  }

  /** The sign test detects every overflow and nothing else. */
  lemma CheckedAddExact(a: int, b: int)
    requires IsInt64(a) && IsInt64(b)
    ensures CheckedAdd(a, b) == if IsInt64(a + b) then Some(a + b) else None
  {
    WrapInt64(a + b);
  }

  lemma QuotientNear(c: int, a: int)
    requires a != 0
    ensures Abs(c) == Abs(a) * (Abs(c) / Abs(a)) + Abs(c) % Abs(a)
    ensures 0 <= Abs(c) % Abs(a) < Abs(a)
  {
  }

  /** A truncated quotient times its divisor is closer to the dividend than the divisor. */
  lemma TruncatedQuotient(c: int, a: int, b: int)
    requires a != 0
    requires b == (if (c < 0) == (a < 0) then Abs(c) / Abs(a) else -(Abs(c) / Abs(a)))
    ensures Abs(c - a * b) < Abs(a)
  {
    QuotientNear(c, a);
    var q := Abs(c) / Abs(a);
    if a < 0 {
      assert a * q == -(Abs(a) * q);
      assert a * (-q) == Abs(a) * q;
    } else {
      assert a * (-q) == -(Abs(a) * q);
    }
  }

  lemma ExactQuotient(p: int, a: int, b: int)
    requires a != 0 && p == a * b
    ensures (if (p < 0) == (a < 0) then Abs(p) / Abs(a) else -(Abs(p) / Abs(a))) == b
  {
    assert Abs(p) == Abs(a) * Abs(b) by { AbsProduct(a, b); }
    assert Abs(a) * Abs(b) / Abs(a) == Abs(b) by { DivideBack(Abs(a), Abs(b)); }
    SignOfProduct(a, b);
  }

  lemma AbsProduct(a: int, b: int)
    ensures Abs(a * b) == Abs(a) * Abs(b)
  {
    if a < 0 && b < 0 {
      assert a * b == Abs(a) * Abs(b);
    } else if a < 0 {
      assert a * b == -(Abs(a) * Abs(b));
    } else if b < 0 {
      assert a * b == -(Abs(a) * Abs(b));
    }
  }

  lemma SignOfProduct(a: int, b: int)
    requires a != 0
    ensures b > 0 ==> (a * b < 0) == (a < 0)
    ensures b < 0 ==> (a * b < 0) != (a < 0)
  {
    AbsProduct(a, b);
    if a < 0 && b < 0 {
      assert a * b == Abs(a) * Abs(b);
    } else if a < 0 && b > 0 {
      assert a * b == -(Abs(a) * Abs(b));
    } else if b < 0 {
      assert a * b == -(Abs(a) * Abs(b));
    }
  }

  lemma DivideBack(a: int, b: int)
    requires a > 0 && b >= 0
    ensures a * b / a == b
  {
    DivisionBounds(a * b, a);
    ProductOrder(a, b, a * b / a);
    ProductOrder(a, a * b / a, b);
  }

  /** The divide-back test (with the MinInt64 special case) accepts exactly the products
      that fit int64, and then returns them. */
  lemma CheckedMulExact(a: int, b: int)
    requires IsInt64(a) && IsInt64(b)
    ensures CheckedMul(a, b) == if IsInt64(a * b) then Some(a * b) else None
  {
    if a != 0 && b != 0 {
      var p := a * b;
      WrapInt64(p);
      var c := Wrap64(p);
      if IsInt64(p) {
        ExactQuotient(p, a, b);
        assert GoDiv(c, a) == b by { WrapInt64(b); }
        assert !(a == MIN_INT64 && b == -1) && !(b == MIN_INT64 && a == -1);
      } else if GoDiv(c, a) == b {
        OverflowCaught(a, b, c);
      }
    }
  }

  lemma SmallMultipleIsZero(k: int, d: int)
    requires d == k * TWO_TO_64 && Abs(d) < TWO_TO_64
    ensures d == 0
  {
  }

  /** A wrapped product is never within one divisor of the true product unless they agree. */
  lemma WrappedProductFar(p: int, a: int)
    requires IsInt64(a) && Abs(Wrap64(p) - p) < Abs(a)
    ensures IsInt64(p)
  {
    WrapInt64(p);
    var k: int :| Wrap64(p) == p + k * TWO_TO_64;
    SmallMultipleIsZero(k, Wrap64(p) - p);
  }

  /** Only MinInt64 / -1 leaves int64. */
  lemma QuotientLeavesInt64(c: int, a: int, q: int)
    requires IsInt64(c) && IsInt64(a) && a != 0 && !IsInt64(q)
    requires q == (if (c < 0) == (a < 0) then Abs(c) / Abs(a) else -(Abs(c) / Abs(a)))
    ensures a == -1 && q == -MIN_INT64
  {
    QuotientAtMost(Abs(c), Abs(a));
    if Abs(a) >= 2 {
      QuotientHalves(Abs(c), Abs(a));
      assert false;
    }
  }

  lemma OverflowCaught(a: int, b: int, c: int)
    requires IsInt64(a) && IsInt64(b) && a != 0 && b != 0 && !IsInt64(a * b)
    requires c == Wrap64(a * b) && GoDiv(c, a) == b
    ensures b == MIN_INT64 && a == -1
  {
    WrapInt64(a * b);
    var q := if (c < 0) == (a < 0) then Abs(c) / Abs(a) else -(Abs(c) / Abs(a));
    WrapInt64(q);
    if IsInt64(q) {
      TruncatedQuotient(c, a, q);
      WrappedProductFar(a * b, a);
      assert false;
    } else {
      QuotientLeavesInt64(c, a, q);
    }
  }

  lemma QuotientAtMost(n: int, d: int)
    requires 0 <= n && 1 <= d
    ensures n / d <= n
  {
    DivisionBounds(n, d);
    if n / d > n {
      ProductMonotone(n / d, 1, d);
    }
  }

  lemma QuotientHalves(n: int, d: int)
    requires 0 <= n && 2 <= d
    ensures 2 * (n / d) <= n
  {
    DivisionBounds(n, d);
    ProductMonotone(n / d, 2, d);
  }

  // --- Sums ------------------------------------------------------------------

  function Sum(xs: seq<int>): int {
    if xs == [] then 0 else xs[0] + Sum(xs[1..])
  }

  lemma {:induction false} SumNonpositive(xs: seq<int>)
    requires forall i :: 0 <= i < |xs| ==> xs[i] <= 0
    ensures Sum(xs) <= 0
  {
    if xs != [] {
      SumNonpositive(xs[1..]);
    }
  }

  lemma {:induction false} SumConstant(xs: seq<int>, x: int)
    requires forall i :: 0 <= i < |xs| ==> xs[i] == x
    ensures Sum(xs) == |xs| * x
  {
    if xs != [] {
      SumConstant(xs[1..], x);
    }
  }

  lemma {:induction false} SumSnoc(xs: seq<int>, n: nat)
    requires n < |xs|
    ensures Sum(xs[..n + 1]) == Sum(xs[..n]) + xs[n]
  {
    if n > 0 {
      SumSnoc(xs[1..], n - 1);
      assert xs[..n + 1][1..] == xs[1..][..n] && xs[..n][1..] == xs[1..][..n - 1];
    } else {
      assert xs[..1][1..] == [] && xs[..0] == [];
    }
  }

  lemma {:induction false} PrefixSum(xs: seq<int>, n: nat)
    requires n <= |xs| && forall i :: 0 <= i < |xs| ==> 0 <= xs[i]
    ensures 0 <= Sum(xs[..n]) <= Sum(xs)
    decreases |xs| - n
  {
    if n < |xs| {
      PrefixSum(xs, n + 1);
      SumSnoc(xs, n);
      SumNonnegative(xs[..n]);
    } else {
      assert xs[..n] == xs;
      SumNonnegative(xs);
    }
  }

  lemma {:induction false} SumNonnegative(xs: seq<int>)
    requires forall i :: 0 <= i < |xs| ==> 0 <= xs[i]
    ensures 0 <= Sum(xs)
  {
    if xs != [] {
      SumNonnegative(xs[1..]);
    }
  }

  /** The loop of checked additions finds the sum exactly when it fits int64: for prices, a
      partial sum never leaves the range unless the whole one does. */
  method CheckedSum(xs: seq<int>) returns (total: Option<int>)
    requires forall i :: 0 <= i < |xs| ==> 0 <= xs[i] <= MAX_INT64
    ensures total == if Sum(xs) <= MAX_INT64 then Some(Sum(xs)) else None
  {
    var sum := 0;
    for i := 0 to |xs|
      invariant sum == Sum(xs[..i]) && 0 <= sum <= MAX_INT64
    {
      CheckedAddExact(sum, xs[i]);
      SumSnoc(xs, i);
      PrefixSum(xs, i + 1);
      var next := CheckedAdd(sum, xs[i]);
      if next.None? {
        return None;
      }
      sum := next.value;
    }
    assert xs[..|xs|] == xs;
    return Some(sum);
  }
}
