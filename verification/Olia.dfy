/**
 OLIA congestion control: the three passes that hand out the epsilons.
 */
module Olia {
  import opened Common
  import opened SeqArith
  import opened Products

  /** What the passes read of a subflow; `loss1` to `loss3` are the words remembered at the last losses. */
  datatype Path = Path(canSend: bool, srtt: nat, caState: nat, ssthresh: nat, cwnd: nat,
                       loss1: nat, loss2: nat, loss3: nat)

  datatype Eps = Eps(num: int, den: nat)

  predicate Sendable(p: Path) {
    p.canSend && p.srtt > 0
  }

  /** `mptcp_get_crt_cwnd` */
  function CrtCwnd(p: Path): nat {
    if p.caState == TCP_CA_RECOVERY then p.ssthresh else p.cwnd
  }

  /** Bytes between the last two losses, or since the last one: the larger. */
  function LossDistance(p: Path): nat {
    var a, b := Low32(p.loss3 - p.loss2), Low32(p.loss2 - p.loss1);
    if a > b then a else b
  }

  /** For byte counters that have grown by less than 2^32 this is the larger of the two distances, across a wrap too. */
  lemma LossDistanceIs(p: Path, l1: nat, l2: nat, l3: nat)
    requires l1 <= l2 <= l3 < l1 + TWO_32
    requires p.loss1 == Low32(l1) && p.loss2 == Low32(l2) && p.loss3 == Low32(l3)
    ensures LossDistance(p) >= l3 - l2 && LossDistance(p) >= l2 - l1
    ensures LossDistance(p) == l3 - l2 || LossDistance(p) == l2 - l1
  {
    WordDistance(l1, l2);
    WordDistance(l2, l3);
  }

  lemma WordDistance(a: nat, b: nat)
    requires a <= b < a + TWO_32
    ensures Low32(Low32(b) - Low32(a)) == b - a
  {
    LowEqual(Low32(b) - Low32(a), b - a, a / TWO_32 - b / TWO_32);
  }

  function RttSquare(p: Path): nat {
    Mul(p.srtt, p.srtt)
  }

  /** `tmp_int * best_rtt >= best_int * tmp_rtt`, in 64 bits. */
  predicate AsGood(p: Path, bestInt: nat, bestRtt: nat) {
    Low64(Mul(LossDistance(p), bestRtt)) >= Low64(Mul(bestInt, RttSquare(p)))
  }

  predicate Best(p: Path, bestInt: nat, bestRtt: nat) {
    Low64(Mul(LossDistance(p), bestRtt)) == Low64(Mul(bestInt, RttSquare(p)))
  }

  predicate InM(p: Path, maxCwnd: nat) {
    Sendable(p) && CrtCwnd(p) == maxCwnd
  }

  predicate InBNotM(p: Path, maxCwnd: nat, bestInt: nat, bestRtt: nat) {
    Sendable(p) && CrtCwnd(p) != maxCwnd && Best(p, bestInt, bestRtt)
  }

  function CountM(paths: seq<Path>, maxCwnd: nat): (n: nat)
    ensures n <= |paths|
  {
    if paths == [] then 0
    else CountM(paths[..|paths| - 1], maxCwnd) + (if InM(paths[|paths| - 1], maxCwnd) then 1 else 0)
  }

  function CountB(paths: seq<Path>, maxCwnd: nat, bestInt: nat, bestRtt: nat): (n: nat)
    ensures n <= |paths|
  {
    if paths == [] then 0
    else CountB(paths[..|paths| - 1], maxCwnd, bestInt, bestRtt)
           + (if InBNotM(paths[|paths| - 1], maxCwnd, bestInt, bestRtt) then 1 else 0)
  }

  lemma {:induction false} SomeInM(paths: seq<Path>, i: nat, maxCwnd: nat)
    requires i < |paths| && InM(paths[i], maxCwnd)
    ensures CountM(paths, maxCwnd) > 0
  {
    if i < |paths| - 1 {
      SomeInM(paths[..|paths| - 1], i, maxCwnd);
    }
  }

  /** `mptcp_get_max_cwnd` */
  method GetMaxCwnd(paths: seq<Path>) returns (max: nat)
    ensures forall i :: 0 <= i < |paths| && Sendable(paths[i]) ==> CrtCwnd(paths[i]) <= max
    ensures (exists i :: 0 <= i < |paths| && Sendable(paths[i])) ==> CountM(paths, max) > 0
    ensures forall p :: p in paths && p.canSend && p.srtt > 0 ==>
              (if p.caState == TCP_CA_RECOVERY then p.ssthresh else p.cwnd) <= max
    ensures (exists p :: p in paths && p.canSend && p.srtt > 0) ==>
              exists p :: p in paths && p.canSend && p.srtt > 0
                          && max == if p.caState == TCP_CA_RECOVERY then p.ssthresh else p.cwnd
  {
    max := 0;
    ghost var at, any := 0, false;
    for i := 0 to |paths|
      invariant forall k :: 0 <= k < i && Sendable(paths[k]) ==> CrtCwnd(paths[k]) <= max
      invariant !any ==> max == 0 && forall k :: 0 <= k < i ==> !Sendable(paths[k])
      invariant any ==> at < i && InM(paths[at], max)
    {
      if Sendable(paths[i]) {
        if CrtCwnd(paths[i]) > max || !any {
          at, any := i, true;
        }
        if CrtCwnd(paths[i]) > max {
          max := CrtCwnd(paths[i]);
        }
      }
    }
    if any {
      SomeInM(paths, at, max);
    }
  }

  /** No product of the comparisons is wider than 64 bits. */
  ghost predicate Narrow(paths: seq<Path>) {
    forall i, j :: 0 <= i < |paths| && 0 <= j < |paths| ==> Mul(LossDistance(paths[i]), RttSquare(paths[j])) < TWO_64
  }

  /** `p` has the largest quotient of loss distance and squared round-trip time, compared crosswise. */
  predicate NotBelow(bestInt: nat, bestRtt: nat, p: Path) {
    Mul(LossDistance(p), bestRtt) <= Mul(bestInt, RttSquare(p))
  }

  predicate IsPath(p: Path, bestInt: nat, bestRtt: nat) {
    Sendable(p) && bestInt == LossDistance(p) && bestRtt == RttSquare(p)
  }

  lemma CrossTransitive(a: nat, ra: nat, b: nat, rb: nat, c: nat, rc: nat)
    requires rb > 0 && Mul(a, rb) <= Mul(b, ra) && Mul(b, rc) <= Mul(c, rb)
    ensures Mul(a, rc) <= Mul(c, ra)
  {
    hide Mul;
    MulMonotone(Mul(a, rb), Mul(b, ra), rc);
    MulMonotone(Mul(b, rc), Mul(c, rb), ra);
    Rearrange(a, ra, b, rb, c, rc);
    if Mul(a, rc) > Mul(c, ra) {
      MulMonotone(Mul(c, ra) + 1, Mul(a, rc), rb);
      MulSucc(Mul(c, ra), rb);
    }
  }

  lemma Rearrange(a: nat, ra: nat, b: nat, rb: nat, c: nat, rc: nat)
    ensures Mul(Mul(a, rb), rc) == Mul(Mul(a, rc), rb)
    ensures Mul(Mul(b, ra), rc) == Mul(Mul(b, rc), ra)
    ensures Mul(Mul(c, rb), ra) == Mul(Mul(c, ra), rb)
  {
    Swap(a, rb, rc);
    Swap(b, ra, rc);
    Swap(c, rb, ra);
  }

  lemma Swap(a: nat, b: nat, c: nat)
    ensures Mul(Mul(a, b), c) == Mul(Mul(a, c), b)
  {
    assert a * b * c == a * c * b;
  }

  /** The pass that finds the best path; when no product wraps it is the best one indeed. */
  method FindBest(paths: seq<Path>) returns (bestInt: nat, bestRtt: nat)
    ensures Narrow(paths) ==> forall i :: 0 <= i < |paths| && Sendable(paths[i]) ==>
              NotBelow(bestInt, bestRtt, paths[i])
    ensures (exists i :: 0 <= i < |paths| && Sendable(paths[i])) ==>
              exists i :: 0 <= i < |paths| && IsPath(paths[i], bestInt, bestRtt)
  {
    hide Mul, LossDistance;
    bestInt, bestRtt := 0, 1;
    ghost var at, any := 0, false;
    for i := 0 to |paths|
      invariant bestRtt > 0
      invariant !any ==> bestInt == 0 && bestRtt == 1
      invariant any ==> at < i && IsPath(paths[at], bestInt, bestRtt)
      invariant !any ==> forall k :: 0 <= k < i ==> !Sendable(paths[k])
      invariant Narrow(paths) ==> forall k :: 0 <= k < i && Sendable(paths[k]) ==> NotBelow(bestInt, bestRtt, paths[k])
    {
      var p := paths[i];
      if Sendable(p) {
        RttPositive(p);
        ZeroTimes(RttSquare(p));
        if AsGood(p, bestInt, bestRtt) {
          if Narrow(paths) {
            if any {
              TakesOver(paths, i, at, bestInt, bestRtt);
            }
            SelfNotBelow(p);
          }
          bestInt, bestRtt, at, any := LossDistance(p), RttSquare(p), i, true;
        } else if Narrow(paths) {
          if any {
            Compared(paths, i, at);
          }
        }
      }
    }
  }

  lemma RttPositive(p: Path)
    requires Sendable(p)
    ensures RttSquare(p) > 0
  {
    MulMonotone(1, p.srtt, p.srtt);
    MulSucc(0, p.srtt);
  }

  lemma ZeroTimes(x: nat)
    ensures Mul(0, x) == 0
  {
  }

  lemma SelfNotBelow(p: Path)
    ensures NotBelow(LossDistance(p), RttSquare(p), p)
  {
  }

  /** Without wrap-around the comparison is the exact one. */
  lemma Compared(paths: seq<Path>, i: nat, j: nat)
    requires Narrow(paths) && i < |paths| && j < |paths|
    ensures AsGood(paths[i], LossDistance(paths[j]), RttSquare(paths[j]))
       <==> Mul(LossDistance(paths[i]), RttSquare(paths[j])) >= Mul(LossDistance(paths[j]), RttSquare(paths[i]))
  {
    hide Mul, LossDistance;
    assert Mul(LossDistance(paths[j]), RttSquare(paths[i])) < TWO_64;
    assert Mul(LossDistance(paths[i]), RttSquare(paths[j])) < TWO_64;
  }

  lemma TakesOver(paths: seq<Path>, i: nat, at: nat, bestInt: nat, bestRtt: nat)
    requires Narrow(paths) && at < i < |paths| && bestRtt > 0
    requires bestInt == LossDistance(paths[at]) && bestRtt == RttSquare(paths[at])
    requires AsGood(paths[i], bestInt, bestRtt)
    requires forall k :: 0 <= k < i && Sendable(paths[k]) ==> NotBelow(bestInt, bestRtt, paths[k])
    ensures forall k :: 0 <= k < i && Sendable(paths[k]) ==>
              NotBelow(LossDistance(paths[i]), RttSquare(paths[i]), paths[k])
  {
    hide Mul, LossDistance, RttSquare, AsGood;
    Compared(paths, i, at);
    forall k | 0 <= k < i && Sendable(paths[k])
      ensures NotBelow(LossDistance(paths[i]), RttSquare(paths[i]), paths[k])
    {
      CrossTransitive(LossDistance(paths[k]), RttSquare(paths[k]), bestInt, bestRtt,
                      LossDistance(paths[i]), RttSquare(paths[i]));
    }
  }

  /** The shares handed out: +1/(c*B) off the largest window, -1/(c*M) on it, nothing elsewhere. */
  function Epsilon(p: Path, maxCwnd: nat, bestInt: nat, bestRtt: nat, any: bool, denB: nat, denM: nat): Eps {
    if !any then Eps(0, 1)
    else if CrtCwnd(p) < maxCwnd && Best(p, bestInt, bestRtt) then Eps(1, denB)
    else if CrtCwnd(p) == maxCwnd then Eps(-1, denM)
    else Eps(0, 1)
  }

  function Share(e: Eps): real
    requires e.den > 0
  {
    e.num as real / e.den as real
  }

  ghost predicate Positive(eps: seq<Eps>) {
    forall i :: 0 <= i < |eps| ==> eps[i].den > 0
  }

  /** The sum of the epsilons of the subflows that can send. */
  ghost function Total(paths: seq<Path>, eps: seq<Eps>): real
    requires |eps| == |paths| && Positive(eps)
  {
    if paths == [] then 0.0
    else
      var n := |paths| - 1;
      Total(paths[..n], eps[..n]) + (if Sendable(paths[n]) then Share(eps[n]) else 0.0)
  }

  /** What one pass over the subflows leaves: the new epsilon where the subflow can send, the old one elsewhere. */
  ghost predicate HandedOut(paths: seq<Path>, was: seq<Eps>, now: seq<Eps>, maxCwnd: nat, bestInt: nat, bestRtt: nat,
                            any: bool, denB: nat, denM: nat) {
    && |was| == |now| == |paths|
    && forall i :: 0 <= i < |paths| ==>
         now[i] == if Sendable(paths[i]) then Epsilon(paths[i], maxCwnd, bestInt, bestRtt, any, denB, denM) else was[i]
  }

  ghost predicate NoneAbove(paths: seq<Path>, maxCwnd: nat) {
    forall i :: 0 <= i < |paths| && Sendable(paths[i]) ==> CrtCwnd(paths[i]) <= maxCwnd
  }

  lemma Shares(d: nat)
    requires d > 0
    ensures Share(Eps(-1, d)) == -Share(Eps(1, d)) && Share(Eps(0, 1)) == 0.0
  {
  }

  /** The sum counted out: one positive share for each path of B \ M, one negative for each of M. */
  lemma {:induction false} TotalCounts(paths: seq<Path>, was: seq<Eps>, now: seq<Eps>, maxCwnd: nat, bestInt: nat,
                                       bestRtt: nat, denB: nat, denM: nat)
    requires HandedOut(paths, was, now, maxCwnd, bestInt, bestRtt, true, denB, denM) && NoneAbove(paths, maxCwnd)
    requires Positive(now) && denB > 0 && denM > 0
    ensures Total(paths, now)
         == Times(CountB(paths, maxCwnd, bestInt, bestRtt), Share(Eps(1, denB)))
            - Times(CountM(paths, maxCwnd), Share(Eps(1, denM)))
  {
    hide Best, Share, Times;
    var plus, minus := Share(Eps(1, denB)), Share(Eps(1, denM));
    TimesSucc(0, plus);
    TimesSucc(0, minus);
    if paths != [] {
      var n := |paths| - 1;
      TotalCounts(paths[..n], was[..n], now[..n], maxCwnd, bestInt, bestRtt, denB, denM);
      TimesSucc(CountB(paths[..n], maxCwnd, bestInt, bestRtt), plus);
      TimesSucc(CountM(paths[..n], maxCwnd), minus);
      Shares(denM);
    }
  }

  function Times(n: nat, x: real): real {
    n as real * x
  }

  lemma TimesSucc(n: nat, x: real)
    ensures Times(n + 1, x) == Times(n, x) + x && Times(0, x) == 0.0
  {
  }

  /** `n` shares of 1/(c*n) are 1/c. */
  lemma EqualShares(c: nat, n: nat)
    requires c > 0 && n > 0
    ensures c * n > 0 && Times(n, Share(Eps(1, c * n))) == 1.0 / c as real
  {
    assert c * n > 0;
    assert (c * n) as real == c as real * n as real;
  }

  lemma {:induction false} TotalZero(paths: seq<Path>, was: seq<Eps>, now: seq<Eps>, maxCwnd: nat, bestInt: nat,
                                     bestRtt: nat, denB: nat, denM: nat)
    requires HandedOut(paths, was, now, maxCwnd, bestInt, bestRtt, false, denB, denM) && Positive(now)
    ensures Total(paths, now) == 0.0
  {
    if paths != [] {
      var n := |paths| - 1;
      TotalZero(paths[..n], was[..n], now[..n], maxCwnd, bestInt, bestRtt, denB, denM);
    }
  }

  lemma {:induction false} SomeInB(paths: seq<Path>, maxCwnd: nat, bestInt: nat, bestRtt: nat)
    requires CountB(paths, maxCwnd, bestInt, bestRtt) > 0
    ensures exists i :: 0 <= i < |paths| && Sendable(paths[i])
  {
    var n := |paths| - 1;
    if !Sendable(paths[n]) {
      SomeInB(paths[..n], maxCwnd, bestInt, bestRtt);
      var i :| 0 <= i < n && Sendable(paths[..n][i]);
      assert Sendable(paths[i]);
    }
  }

  lemma {:induction false} CountsInB(paths: seq<Path>, i: nat, maxCwnd: nat, bestInt: nat, bestRtt: nat)
    requires i < |paths| && InBNotM(paths[i], maxCwnd, bestInt, bestRtt)
    ensures CountB(paths, maxCwnd, bestInt, bestRtt) > 0
  {
    hide InBNotM;
    if i < |paths| - 1 {
      CountsInB(paths[..|paths| - 1], i, maxCwnd, bestInt, bestRtt);
    }
  }

  class OliaCa {
    var eps: seq<Eps>     // epsilon_num and epsilon_den of each subflow

    /** The counting pass; the source counts in `u8`. */
    static method CountSets(paths: seq<Path>, maxCwnd: nat, bestInt: nat, bestRtt: nat) returns (m: nat, b: nat)
      requires |paths| < 0x100
      ensures m == CountM(paths, maxCwnd) && b == CountB(paths, maxCwnd, bestInt, bestRtt)
    {
      hide Best;
      m, b := 0, 0;
      for i := 0 to |paths|
        invariant m == CountM(paths[..i], maxCwnd) && b == CountB(paths[..i], maxCwnd, bestInt, bestRtt)
        invariant m <= i && b <= i
      {
        assert paths[..i + 1][..i] == paths[..i];
        if Sendable(paths[i]) {
          if CrtCwnd(paths[i]) == maxCwnd {
            m := (m + 1) % 0x100;
          } else if Best(paths[i], bestInt, bestRtt) {
            b := (b + 1) % 0x100;
          }
        }
      }
      assert paths[..|paths|] == paths;
    }

    /** The pass that hands out the epsilons; the source keeps the denominator in a 32-bit word. */
    method HandOut(paths: seq<Path>, maxCwnd: nat, bestInt: nat, bestRtt: nat, m: nat, b: nat, established: nat)
      requires |eps| == |paths| && established * b < TWO_32 && established * m < TWO_32
      modifies this
      ensures HandedOut(paths, old(eps), eps, maxCwnd, bestInt, bestRtt, b > 0, established * b, established * m)
    {
      hide Best;
      for i := 0 to |paths|
        invariant |eps| == |paths|
        invariant forall k :: 0 <= k < i ==>
                    eps[k] == if Sendable(paths[k])
                              then Epsilon(paths[k], maxCwnd, bestInt, bestRtt, b > 0, established * b, established * m)
                              else old(eps)[k]
        invariant forall k :: i <= k < |paths| ==> eps[k] == old(eps)[k]
      {
        if Sendable(paths[i]) {
          if b == 0 {
            eps := eps[i := Eps(0, 1)];
          } else if CrtCwnd(paths[i]) < maxCwnd && Best(paths[i], bestInt, bestRtt) {
            eps := eps[i := Eps(1, Low32(established * b))];
          } else if CrtCwnd(paths[i]) == maxCwnd {
            eps := eps[i := Eps(-1, Low32(established * m))];
          } else {
            eps := eps[i := Eps(0, 1)];
          }
        }
      }
    }

    /**
     `mptcp_get_epsilon`: what is taken from the subflows with the largest window is given to the best others, and
     the epsilons cancel out exactly.
     */
    method GetEpsilon(paths: seq<Path>, established: nat)
      returns (ghost max: nat, ghost bestInt: nat, ghost bestRtt: nat)
      requires |eps| == |paths| < 0x100 && 1 <= established < 0x100
      requires Positive(eps)
      modifies this
      ensures |eps| == |paths| && Positive(eps) && Total(paths, eps) == 0.0
      ensures NoneAbove(paths, max)
      ensures forall i :: 0 <= i < |paths| && Sendable(paths[i]) ==>
                && (eps[i].num > 0 <==> InBNotM(paths[i], max, bestInt, bestRtt))
                && (eps[i].num < 0 <==> CountB(paths, max, bestInt, bestRtt) > 0 && InM(paths[i], max))
      ensures Narrow(paths) ==> forall i :: 0 <= i < |paths| && Sendable(paths[i]) ==>
                NotBelow(bestInt, bestRtt, paths[i])
      ensures forall i :: 0 <= i < |paths| && !Sendable(paths[i]) ==> eps[i] == old(eps)[i]
    {
      hide Best, Narrow, NotBelow, CountM, CountB, Total;
      var maxCwnd := GetMaxCwnd(paths);
      var best, rtt := FindBest(paths);
      var m, b := CountSets(paths, maxCwnd, best, rtt);
      max, bestInt, bestRtt := maxCwnd, best, rtt;
      ghost var was := eps;
      if b > 0 {
        SomeInB(paths, maxCwnd, best, rtt);
        EqualShares(established, b);
        EqualShares(established, m);
      }
      SmallProduct(established, b);
      SmallProduct(established, m);
      HandOut(paths, maxCwnd, best, rtt, m, b, established);
      if b > 0 {
        TotalCounts(paths, was, eps, maxCwnd, best, rtt, established * b, established * m);
      } else {
        forall i | 0 <= i < |paths|
          ensures !InBNotM(paths[i], maxCwnd, best, rtt)
        {
          if InBNotM(paths[i], maxCwnd, best, rtt) {
            CountsInB(paths, i, maxCwnd, best, rtt);
          }
        }
        TotalZero(paths, was, eps, maxCwnd, best, rtt, established * b, established * m);
      }
    }
  }

  lemma SmallProduct(c: nat, n: nat)
    requires c < 0x100 && n < 0x100
    ensures c * n < TWO_32
  {
    MulBoth(c, 0x100, n, 0x100);
    LimitProduct();
  }

  lemma LimitProduct()
    ensures Mul(0x100, 0x100) == 0x1_0000
  {
  }
}
