/**
 BALIA congestion control: the recomputation of the increase and decrease terms in 64-bit arithmetic.
 */
module Balia {
  import opened SeqArith
  import opened Products

  const USEC_PER_SEC_8: nat := 8_000_000      // USEC_PER_SEC << 3
  const RATE_LIMIT: nat := 0x200_0000         // 1 << rate_scale_limit
  const SCALE_STEP: nat := 32                 // 1 << scale_num
  const ALPHA_ONE: nat := 1024                // 1 << alpha_scale
  const MAX_SUBFLOWS := 40
  const RATE_BOUND: nat := 0x40_0000_0000_0000   // 2^54

  datatype Sub = Sub(canSend: bool, cwnd: nat, srtt: nat)

  predicate Sendable(s: Sub) {
    s.canSend && s.srtt > 0
  }

  function Rate(mss: nat, s: Sub): (r: nat)
    requires Sendable(s)
  {
    Div(Low64(Low64(Mul(mss, s.cwnd)) * USEC_PER_SEC_8), s.srtt)
  }

  /** The window of a subflow in bytes is below 2^31. */
  predicate Fits(mss: nat, s: Sub) {
    Mul(mss, s.cwnd) < TWO_31
  }

  lemma RateBound(mss: nat, s: Sub)
    requires Sendable(s) && Fits(mss, s)
    ensures Rate(mss, s) == Div(Mul(mss, s.cwnd) * USEC_PER_SEC_8, s.srtt) < RATE_BOUND
  {
    hide Mul, Div;
    DivSmaller(Mul(mss, s.cwnd) * USEC_PER_SEC_8, s.srtt);
  }

  /** Bytes of the window per round-trip time, which is kept in eighths of a microsecond, rounded down. */
  lemma RateExact(mss: nat, s: Sub)
    requires s.canSend && s.srtt > 0 && Fits(mss, s)
    ensures Rate(mss, s) * s.srtt <= (mss * s.cwnd) * 8_000_000 < (Rate(mss, s) + 1) * s.srtt
  {
    RateBound(mss, s);
    Quotient((mss * s.cwnd) * 8_000_000, s.srtt);
  }

  function Pow32(n: nat): (p: nat)
    ensures p > 0
  {
    if n == 0 then 1 else SCALE_STEP * Pow32(n - 1)
  }

  /** `x >> (scale_num * n)` */
  function Down(x: nat, n: nat): nat {
    Div(x, Pow32(n))
  }

  lemma DownZero(x: nat)
    ensures Down(x, 0) == x
  {
  }

  lemma DownMonotone(x: nat, y: nat, n: nat)
    requires x <= y
    ensures Down(x, n) <= Down(y, n)
  {
    DivMonotone(x, y, Pow32(n));
  }

  /** Two shifts are one shift by the sum. */
  lemma DownStep(x: nat, n: nat)
    ensures Down(x, n + 1) == Down(x, n) / SCALE_STEP
  {
    hide Mul, Div;
    var p := Pow32(n);
    var q := Div(x, p);
    var r := q / SCALE_STEP;
    DivBounds(x, p);
    MulMove(SCALE_STEP, r, p);
    MulMonotone(SCALE_STEP * r, q, p);
    DivAtLeast(x, SCALE_STEP * p, r);
    MulMove(SCALE_STEP, r + 1, p);
    MulMonotone(q + 1, SCALE_STEP * (r + 1), p);
    DivAtMost(x, SCALE_STEP * p, r);
  }

  /** The sum of the scaled rates of the subflows that can send. */
  function SumDown(mss: nat, subs: seq<Sub>, n: nat): nat {
    if subs == [] then 0
    else
      var last := subs[|subs| - 1];
      SumDown(mss, subs[..|subs| - 1], n) + (if Sendable(last) then Down(Rate(mss, last), n) else 0)
  }

  ghost predicate Bounded(mss: nat, subs: seq<Sub>, max: nat) {
    forall i :: 0 <= i < |subs| && Sendable(subs[i]) ==> Rate(mss, subs[i]) <= max
  }

  lemma {:induction false} SumBounds(mss: nat, subs: seq<Sub>, max: nat, n: nat)
    requires Bounded(mss, subs, max)
    ensures SumDown(mss, subs, n) <= Mul(|subs|, Down(max, n))
  {
    hide Mul, Down, Rate;
    if subs != [] {
      var rest, last := subs[..|subs| - 1], subs[|subs| - 1];
      assert forall i :: 0 <= i < |rest| ==> rest[i] == subs[i];
      SumBounds(mss, rest, max, n);
      if Sendable(last) {
        DownMonotone(Rate(mss, last), max, n);
      }
      MulSucc(|rest|, Down(max, n));
    }
  }

  lemma {:induction false} SumHolds(mss: nat, subs: seq<Sub>, i: nat, n: nat)
    requires i < |subs| && Sendable(subs[i])
    ensures SumDown(mss, subs, n) >= Down(Rate(mss, subs[i]), n)
  {
    hide Down, Rate;
    var rest := subs[..|subs| - 1];
    if i < |rest| {
      assert rest[i] == subs[i];
      SumHolds(mss, rest, i, n);
    }
  }

  /** One more rate keeps the sum in 64 bits. */
  lemma SumFits(i: nat, sum: nat, max: nat, rate: nat)
    requires i < MAX_SUBFLOWS && sum <= Mul(i, max) && max < RATE_BOUND && rate < RATE_BOUND
    ensures var m := if rate >= max then rate else max; Low64(sum + rate) == sum + rate <= Mul(i + 1, m)
  {
    hide Mul;
    var m := if rate >= max then rate else max;
    MulBoth(i, i, max, m);
    MulSucc(i, m);
    MulBoth(i, MAX_SUBFLOWS, max, RATE_BOUND);
    FortyBounds();
  }

  lemma FortyBounds()
    ensures Mul(MAX_SUBFLOWS, RATE_BOUND) == 40 * RATE_BOUND
  {
  }

  /** The first loop: the sum of the rates, the own rate, and the largest one. */
  method MeasureRates(mss: nat, subs: seq<Sub>, me: nat) returns (sum: nat, own: nat, max: nat, ghost best: nat)
    requires |subs| <= MAX_SUBFLOWS && forall i :: 0 <= i < |subs| ==> Fits(mss, subs[i])
    ensures Bounded(mss, subs, max) && max < RATE_BOUND
    ensures sum == SumDown(mss, subs, 0)
    ensures own == if me < |subs| && Sendable(subs[me]) then Rate(mss, subs[me]) else 0
    ensures own > 0 ==> best < |subs| && Sendable(subs[best]) && Rate(mss, subs[best]) == max
  {
    hide Rate, Down, Fits, Mul, Div, Low64;
    sum, own, max, best := 0, 0, 0, 0;
    ghost var any := false;
    MulSucc(0, 0);
    for i := 0 to |subs|
      invariant max < RATE_BOUND
      invariant forall k :: 0 <= k < i && Sendable(subs[k]) ==> Rate(mss, subs[k]) <= max
      invariant sum == SumDown(mss, subs[..i], 0) <= Mul(i, max)
      invariant own == if me < i && Sendable(subs[me]) then Rate(mss, subs[me]) else 0
      invariant own > 0 ==> any
      invariant !any ==> max == 0
      invariant any ==> best < i && Sendable(subs[best]) && Rate(mss, subs[best]) == max
    {
      assert subs[..i + 1][..i] == subs[..i];
      if Sendable(subs[i]) {
        RateBound(mss, subs[i]);
        var rate := Rate(mss, subs[i]);
        DownZero(rate);
        SumFits(i, sum, max, rate);
        sum := Low64(sum + rate);
        if me == i {
          own := rate;
        }
        if rate >= max {
          max, best, any := rate, i, true;
        }
      } else {
        MulMonotone(i, i + 1, max);
      }
    }
    assert subs[..|subs|] == subs;
  }

  lemma {:induction false} Pow32Six(n: nat)
    requires n >= 6
    ensures Pow32(n) >= 0x4000_0000
  {
    if n > 6 {
      Pow32Six(n - 1);
    } else {
      assert Pow32(2) == 1024 && Pow32(4) == 1048576;
    }
  }

  /** Six shifts bring any rate below the limit. */
  lemma SixAreEnough(max: nat, n: nat)
    requires max < RATE_BOUND && Down(max, n) > RATE_LIMIT
    ensures n < 6
  {
    hide Mul, Div, Pow32;
    if n >= 6 {
      Pow32Six(n);
      DivBounds(max, Pow32(n));
      MulBoth(RATE_LIMIT, Down(max, n), 0x4000_0000, Pow32(n));
      LimitTimes30();
    }
  }

  lemma LimitTimes30()
    ensures Mul(RATE_LIMIT, 0x4000_0000) > RATE_BOUND
  {
  }

  /** The loop that brings the largest rate down to 2^25. */
  method ScaleDown(max: nat) returns (scaled: nat, n: nat)
    requires max < RATE_BOUND
    ensures scaled == Down(max, n) <= RATE_LIMIT && n <= 6
    ensures max > 0 ==> scaled > 0
  {
    hide Down, Pow32, Mul, Div;
    scaled, n := max, 0;
    DownZero(max);
    while scaled > RATE_LIMIT
      invariant scaled == Down(max, n) && n <= 6
      invariant max > 0 ==> scaled > 0
      decreases scaled
    {
      SixAreEnough(max, n);
      DownStep(max, n);
      scaled, n := scaled / SCALE_STEP, n + 1;
    }
  }

  /** The second pass over the subflows, with scaled rates. */
  method SumScaled(mss: nat, subs: seq<Sub>, n: nat, ghost max: nat) returns (sum: nat)
    requires |subs| <= MAX_SUBFLOWS && Bounded(mss, subs, max) && Down(max, n) <= RATE_LIMIT
    ensures sum == SumDown(mss, subs, n)
  {
    hide Rate, Down, Mul, Div, Low64;
    sum := 0;
    MulSucc(0, Down(max, n));
    for i := 0 to |subs|
      invariant sum == SumDown(mss, subs[..i], n) <= Mul(i, Down(max, n))
    {
      assert subs[..i + 1][..i] == subs[..i];
      MulSucc(i, Down(max, n));
      if Sendable(subs[i]) {
        DownMonotone(Rate(mss, subs[i]), max, n);
        SumFits(i, sum, Down(max, n), Down(Rate(mss, subs[i]), n));
        sum := Low64(sum + Down(Rate(mss, subs[i]), n));
      }
    }
    assert subs[..|subs|] == subs;
  }

  /** The terms of the increase, in unbounded arithmetic: (sum^2 * 10 / (own + max)) * cwnd / (4 * own + max). */
  function Increase(sum: nat, own: nat, max: nat, cwnd: nat): nat
    requires max > 0
  {
    Div(Mul(Div(Mul(sum, sum) * 10, own + max), cwnd), 4 * own + max)
  }

  /** The two roundings: each quotient is the largest whole number that its divisor goes into the dividend. */
  lemma IncreaseExact(sum: nat, own: nat, max: nat, cwnd: nat) returns (first: nat)
    requires max > 0
    ensures first * (own + max) <= 10 * (sum * sum) < (first + 1) * (own + max)
    ensures Increase(sum, own, max, cwnd) * (4 * own + max) <= first * cwnd
            < (Increase(sum, own, max, cwnd) + 1) * (4 * own + max)
  {
    first := Div(Mul(sum, sum) * 10, own + max);
    Quotient(10 * (sum * sum), own + max);
    Quotient(first * cwnd, 4 * own + max);
  }

  lemma Quotient(x: nat, d: nat)
    requires d > 0
    ensures (x / d) * d <= x < (x / d + 1) * d
  {
    DivBounds(x, d);
  }

  lemma DivisorProduct(own: nat, max: nat)
    ensures Mul(4 * own + max, own + max) == 4 * Mul(own, own) + 5 * Mul(own, max) + Mul(max, max)
  {
  }

  lemma FirstAtLeast(sum: nat, own: nat, max: nat)
    requires 0 < max && own <= max <= sum
    ensures Div(Mul(sum, sum) * 10, own + max) >= 4 * own + max
  {
    hide Mul, Div;
    MulBoth(max, sum, max, sum);
    MulBoth(own, max, own, max);
    MulBoth(own, max, max, max);
    DivisorProduct(own, max);
    DivAtLeast(Mul(sum, sum) * 10, own + max, 4 * own + max);
  }

  /** The window is never increased faster than once per window of acknowledgements, as plain TCP would. */
  lemma NoFasterThanReno(sum: nat, own: nat, max: nat, cwnd: nat)
    requires 0 < max && own <= max <= sum
    ensures Increase(sum, own, max, cwnd) >= cwnd
  {
    hide Mul, Div;
    var first := Div(Mul(sum, sum) * 10, own + max);
    FirstAtLeast(sum, own, max);
    MulMonotone(4 * own + max, first, cwnd);
    MulCommutes(cwnd, 4 * own + max);
    DivAtLeast(Mul(first, cwnd), 4 * own + max, cwnd);
  }

  lemma MulFactors(rate: nat)
    ensures Mul(rate, rate) * 10 == Mul(5 * rate, 2 * rate)
  {
  }

  /** A single path with its own rate as the largest: exactly as plain TCP. */
  lemma RenoOnOnePath(rate: nat, cwnd: nat)
    requires rate > 0
    ensures Increase(rate, rate, rate, cwnd) == cwnd
  {
    hide Mul, Div;
    MulFactors(rate);
    DivExact(5 * rate, 2 * rate);
    MulCommutes(5 * rate, cwnd);
    DivExact(cwnd, 5 * rate);
  }

  lemma MulForty(max: nat)
    ensures Mul(40 * max, 40 * max) == 1600 * Mul(max, max)
    ensures Mul(16000 * max, max) == 16000 * Mul(max, max)
  {
  }

  lemma SquareBound(sum: nat, max: nat)
    requires sum <= Mul(MAX_SUBFLOWS, max)
    ensures Mul(sum, sum) <= 1600 * Mul(max, max)
  {
    MulBoth(sum, 40 * max, sum, 40 * max);
    hide Mul;
    MulForty(max);
  }

  lemma LimitSquare()
    ensures Mul(RATE_LIMIT, RATE_LIMIT) == 0x4_0000_0000_0000
    ensures Mul(16000 * RATE_LIMIT, RATE_LIMIT) == 16000 * 0x4_0000_0000_0000
  {
  }

  lemma FirstBound(sum: nat, own: nat, max: nat)
    requires 0 < max && sum <= Mul(MAX_SUBFLOWS, max)
    ensures Div(Mul(sum, sum) * 10, own + max) <= 16000 * max
  {
    hide Mul, Div;
    SquareBound(sum, max);
    MulForty(max);
    MulBoth(16000 * max, 16000 * max, max, own + max);
    MulSucc(16000 * max, own + max);
    DivAtMost(Mul(sum, sum) * 10, own + max, 16000 * max);
  }

  /** Every product of the increase fits in 64 bits. */
  lemma IncreaseFits(sum: nat, own: nat, max: nat, cwnd: nat)
    requires 0 < max <= RATE_LIMIT && sum <= Mul(MAX_SUBFLOWS, max) && cwnd <= RATE_LIMIT
    ensures Low64(Mul(sum, sum)) == Mul(sum, sum) && Low64(Mul(sum, sum) * 10) == Mul(sum, sum) * 10
    ensures var first := Div(Mul(sum, sum) * 10, own + max); Low64(Mul(first, cwnd)) == Mul(first, cwnd)
  {
    hide Mul, Div;
    SquareBound(sum, max);
    MulBoth(max, RATE_LIMIT, max, RATE_LIMIT);
    LimitSquare();
    FirstBound(sum, own, max);
    MulBoth(Div(Mul(sum, sum) * 10, own + max), 16000 * RATE_LIMIT, cwnd, RATE_LIMIT);
  }

  /** With 41 equal subflows the square of the sum does not fit any more. */
  lemma FortyIsTheLimit()
    ensures var sum := (MAX_SUBFLOWS + 1) * RATE_LIMIT; Low64(sum * sum * 10) != sum * sum * 10
  {
  }

  /** 1.5 windows at most: `min(alpha << 10, (3 << 10) >> 1)` */
  function Factor(alpha: nat): nat {
    if alpha * ALPHA_ONE < 3 * ALPHA_ONE / 2 then alpha * ALPHA_ONE else 3 * ALPHA_ONE / 2
  }

  function Decrease(cwnd: nat, alpha: nat): nat {
    Mul(cwnd / 2, Factor(alpha)) / ALPHA_ONE
  }

  lemma MulConst(half: nat)
    ensures Mul(half, 1024) == 1024 * half && Mul(half, 1536) == 1536 * half
  {
  }

  lemma DecreaseBounds(cwnd: nat, alpha: nat)
    requires alpha >= 1
    ensures cwnd / 2 <= Decrease(cwnd, alpha) && 4 * Decrease(cwnd, alpha) <= 3 * cwnd
    ensures cwnd <= RATE_LIMIT ==> Low64(Mul(cwnd / 2, Factor(alpha))) == Mul(cwnd / 2, Factor(alpha))
  {
    hide Mul;
    var half := cwnd / 2;
    MulBoth(half, half, 1024, Factor(alpha));
    MulBoth(half, half, Factor(alpha), 1536);
    MulConst(half);
  }

  /** On the fastest path the decrease is half the window; on every other one three quarters, rounded down twice. */
  lemma DecreaseExact(cwnd: nat, alpha: nat)
    requires alpha >= 1
    ensures alpha == 1 ==> Decrease(cwnd, alpha) == cwnd / 2
    ensures alpha > 1 ==> 2 * Decrease(cwnd, alpha) <= 3 * (cwnd / 2) < 2 * Decrease(cwnd, alpha) + 2
  {
    hide Mul;
    MulConst(cwnd / 2);
  }

  /** The scaling: the largest rate at most 2^25, the others by the same shift. */
  method Scale(mss: nat, subs: seq<Sub>, sum: nat, own: nat, max: nat, ghost best: nat)
    returns (scaledSum: nat, scaledOwn: nat, scaledMax: nat, n: nat)
    requires |subs| <= MAX_SUBFLOWS && Bounded(mss, subs, max) && own <= max < RATE_BOUND && 0 < max
    requires sum == SumDown(mss, subs, 0)
    requires best < |subs| && Sendable(subs[best]) && Rate(mss, subs[best]) == max
    ensures n <= 6 && scaledMax == Down(max, n) && scaledOwn == Down(own, n) && scaledSum == SumDown(mss, subs, n)
    ensures 0 < scaledMax <= RATE_LIMIT && scaledOwn <= scaledMax <= scaledSum <= Mul(MAX_SUBFLOWS, scaledMax)
  {
    hide Rate, Down, SumDown, Sendable, Mul, Div;
    scaledSum, scaledOwn := sum, own;
    scaledMax, n := ScaleDown(max);
    DownZero(own);
    DownMonotone(own, max, n);
    SumHolds(mss, subs, best, n);
    SumBounds(mss, subs, max, n);
    MulMonotone(|subs|, MAX_SUBFLOWS, scaledMax);
    if n > 0 {
      scaledSum := SumScaled(mss, subs, n, max);
      scaledOwn := Down(own, n);
    }
  }

  /** The last part: the two terms from the scaled rates. */
  method Terms(sum: nat, own: nat, max: nat, alpha: nat, cwnd: nat) returns (ai: nat, md: nat)
    requires 0 < max <= RATE_LIMIT && own <= max <= sum <= Mul(MAX_SUBFLOWS, max)
    requires cwnd <= RATE_LIMIT && 1 <= alpha < RATE_BOUND
    ensures ai == Increase(sum, own, max, cwnd) >= cwnd
    ensures md == Decrease(cwnd, alpha) && cwnd / 2 <= md && 4 * md <= 3 * cwnd
  {
    hide Mul, Div;
    IncreaseFits(sum, own, max, cwnd);
    NoFasterThanReno(sum, own, max, cwnd);
    ai := Div(Low64(Low64(Mul(sum, sum)) * 10), own + max);
    ai := Div(Low64(Mul(ai, cwnd)), 4 * own + max);
    if ai == 0 {
      ai := cwnd;
    }
    DecreaseBounds(cwnd, alpha);
    var factor := Low64(alpha * ALPHA_ONE);
    if factor >= 3 * ALPHA_ONE / 2 {
      factor := 3 * ALPHA_ONE / 2;
    }
    md := Low64(Mul(cwnd / 2, factor)) / ALPHA_ONE;
  }

  class BaliaCa {
    var ai: nat
    var md: nat

    /**
     `mptcp_balia_recalc_ai` on the subflows of the connection, of which `me` is the one being adapted.  The source
     computes in 64 bits; every value is the exact one, no divisor is zero and no shift is longer than 30 bits.
     */
    method RecalcAi(mss: nat, cwnd: nat, subs: seq<Sub>, me: nat, established: nat)
      returns (ghost max: nat, ghost own: nat, ghost n: nat)
      requires |subs| <= MAX_SUBFLOWS && cwnd <= RATE_LIMIT && forall i :: 0 <= i < |subs| ==> Fits(mss, subs[i])
      requires me < |subs| ==> subs[me].cwnd == cwnd
      modifies this
      ensures cwnd / 2 <= md && 4 * md <= 3 * cwnd
      ensures ai >= cwnd
      ensures own == if me < |subs| && Sendable(subs[me]) then Rate(mss, subs[me]) else 0
      ensures established <= 1 || own == 0 ==> ai == cwnd && md == cwnd / 2
      ensures established > 1 && own > 0 ==>
                && Bounded(mss, subs, max) && n <= 6 && 0 < Down(max, n) <= RATE_LIMIT
                && ai == Increase(SumDown(mss, subs, n), Down(own, n), Down(max, n), cwnd)
                && md == Decrease(cwnd, Div(max, own))
    {
      hide Rate, Down, Fits, SumDown, Increase, Decrease, Sendable, Mul, Div;
      ai, md := cwnd, cwnd / 2;
      max, own, n := 0, if me < |subs| && Sendable(subs[me]) then Rate(mss, subs[me]) else 0, 0;
      if established <= 1 {
        return;
      }
      var sum, rate, maxRate;
      ghost var best;
      sum, rate, maxRate, best := MeasureRates(mss, subs, me);
      if rate == 0 {
        return;
      }
      max := maxRate;
      MulSucc(0, rate);
      DivAtLeast(maxRate, rate, 1);
      DivSmaller(maxRate, rate);
      var alpha := Div(maxRate, rate);
      var downs;
      sum, rate, maxRate, downs := Scale(mss, subs, sum, rate, maxRate, best);
      n := downs;
      ai, md := Terms(sum, rate, maxRate, alpha, cwnd);
    }
  }
}
