/**
 Choosing the subflows for one segment: the scan of the register with its in-place removals, the kick loop
 that drops surplus main subflows, the timeouts, and the transmission itself.
 */
module Scheduler {
  import opened Common
  import opened SeqArith
  import opened RedundancyLoop
  import P = Products

  const NS_PER_MS := 1_000_000

  /** What the scheduler reads of a subflow socket during one call. */
  datatype Sock = Sock(id: nat, saddr: nat, daddr: nat, blocked: bool, packetsOut: nat, canClone: bool,
                       caState: nat, srtt: nat)

  /** An entry of the register: the bits of `state`, times in ns, and the running means. */
  datatype RedSk = RedSk(sk: Sock, available: bool, enabled: bool, main: bool, cong: bool, sub: bool,
                         lastUsed: int, lastCong: int, bandwidth: nat, periodMean: int, periodVar: int)

  /** A new entry: `rmptcp_insert_sk` leaves the means and `last_cong` of whatever stood in the slot before. */
  function Newcomer(slot: RedSk, sk: Sock, now: int): RedSk {
    slot.(sk := sk, lastUsed := now, available := false, enabled := false, main := true, cong := false, sub := false)
  }

  /** A subflow that is blocked and has not been used for `noshow` milliseconds is forgotten. */
  predicate Forgotten(e: RedSk, now: int, noshow: nat) {
    e.sk.blocked && e.lastUsed + noshow * NS_PER_MS < now
  }

  /** Enabled or substitute; but a congested substitute may have only one packet out. */
  predicate Usable(e: RedSk) {
    (e.enabled || e.sub) && !(e.cong && e.sub && e.sk.packetsOut > 0)
  }

  function Refresh(e: RedSk): RedSk {
    e.(available := !e.sk.blocked && Usable(e))
  }

  /** The register after a scan: forgotten entries gone, the others in order with a fresh Available bit. */
  function Scan(s: seq<RedSk>, now: int, noshow: nat): seq<RedSk> {
    if s == [] then []
    else (if Forgotten(s[0], now, noshow) then [] else [Refresh(s[0])]) + Scan(s[1..], now, noshow)
  }

  /** The number of Available entries, or of those that are Main too. */
  function Count(s: seq<RedSk>, mainOnly: bool): (n: nat)
    ensures n <= |s|
  {
    if s == [] then 0
    else (if s[0].available && (mainOnly ==> s[0].main) then 1 else 0) + Count(s[1..], mainOnly)
  }

  predicate Candidate(e: RedSk) {
    e.available && e.main
  }

  /** Entry `i` is kicked before entry `j`: it was used later, or at the same time and stands in front. */
  predicate KickedFirst(s: seq<RedSk>, i: int, j: int)
    requires 0 <= i < |s| && 0 <= j < |s|
  {
    s[i].lastUsed > s[j].lastUsed || (s[i].lastUsed == s[j].lastUsed && i < j)
  }

  predicate SameBut(s: seq<RedSk>, t: seq<RedSk>, i: int)
    requires |t| == |s| && 0 <= i < |s|
  {
    t[i] == s[i] || (Candidate(s[i]) && t[i] == s[i].(available := false))
  }

  /** `t` is `s` with some main subflows made unavailable, and none of those was used before a main one kept. */
  ghost predicate LatestKicked(s: seq<RedSk>, t: seq<RedSk>) {
    && |t| == |s|
    && (forall i :: 0 <= i < |s| ==> SameBut(s, t, i))
    && (forall i, j :: 0 <= i < |s| && 0 <= j < |s| && s[i].available && !t[i].available && Candidate(t[j])
          ==> KickedFirst(s, i, j))
  }

  function Max(a: int, b: int): int {
    if a > b then a else b
  }

  lemma KickedUsedLater(s: seq<RedSk>, t: seq<RedSk>)
    requires LatestKicked(s, t)
    ensures forall i, j :: 0 <= i < |s| && 0 <= j < |s| && s[i].available && !t[i].available ==>
              s[i].main && (t[j].available && t[j].main ==> s[j].lastUsed <= s[i].lastUsed)
  {
    forall i, j | 0 <= i < |s| && 0 <= j < |s| && s[i].available && !t[i].available
      ensures s[i].main && (t[j].available && t[j].main ==> s[j].lastUsed <= s[i].lastUsed)
    {
      assert SameBut(s, t, i) && SameBut(s, t, j) && (t[j].available && t[j].main ==> Candidate(t[j]));
    }
  }

  lemma {:induction false} CountMainBound(s: seq<RedSk>)
    ensures Count(s, true) <= Count(s, false)
  {
    if s != [] {
      CountMainBound(s[1..]);
    }
  }

  lemma {:induction false} CountAfterKick(s: seq<RedSk>, i: nat, mainOnly: bool)
    requires i < |s| && Candidate(s[i])
    ensures Count(s[i := s[i].(available := false)], mainOnly) == Count(s, mainOnly) - 1
  {
    var t := s[i := s[i].(available := false)];
    if i == 0 {
      assert t[1..] == s[1..];
    } else {
      assert t[1..] == s[1..][i - 1 := s[i].(available := false)];
      CountAfterKick(s[1..], i - 1, mainOnly);
    }
  }

  lemma {:induction false} SomeCandidate(s: seq<RedSk>)
    requires Count(s, true) > 0
    ensures exists i :: 0 <= i < |s| && Candidate(s[i])
  {
    if Candidate(s[0]) {
    } else {
      SomeCandidate(s[1..]);
      var i :| 0 <= i < |s[1..]| && Candidate(s[1..][i]);
      assert Candidate(s[i + 1]);
    }
  }

  lemma {:induction false} AllMainCount(s: seq<RedSk>)
    requires forall e :: e in s && e.available ==> e.main
    ensures Count(s, true) == Count(s, false)
  {
    if s != [] {
      assert s[0] in s;
      AllMainCount(s[1..]);
    }
  }

  /**
   An entry is there after the scan if it was before and is not both blocked and unused for `noshow` ms; it is
   Available if it is not blocked, is enabled or a substitute, and is no congested substitute with a packet out.
   */
  lemma ScanExact(s: seq<RedSk>, now: int, noshow: nat, e: RedSk)
    ensures e in Scan(s, now, noshow) <==>
            exists o :: o in s && (o.sk.blocked ==> now <= o.lastUsed + noshow * 1_000_000)
                        && e == o.(available := !o.sk.blocked && (o.enabled || o.sub)
                                                && (o.cong && o.sub ==> o.sk.packetsOut == 0))
  {
    ScanEntries(s, now, noshow, e);
    forall o ensures Refresh(o) == o.(available := !o.sk.blocked && (o.enabled || o.sub)
                                                   && (o.cong && o.sub ==> o.sk.packetsOut == 0)) {
    }
    if e in Scan(s, now, noshow) {
      var o :| o in s && !Forgotten(o, now, noshow) && e == Refresh(o);
    }
  }

  /** The scan keeps every other bit: an entry after it is a refreshed entry from before. */
  lemma {:induction false} ScanEntries(s: seq<RedSk>, now: int, noshow: nat, e: RedSk)
    ensures e in Scan(s, now, noshow) <==> exists o :: o in s && !Forgotten(o, now, noshow) && e == Refresh(o)
  {
    if s != [] {
      ScanEntries(s[1..], now, noshow, e);
      assert forall o :: o in s <==> o == s[0] || o in s[1..];
    }
  }

  /** One more kick of the latest candidate keeps the order among kicked and kept. */
  lemma KickKeepsLatest(s: seq<RedSk>, t: seq<RedSk>, k: nat)
    requires LatestKicked(s, t) && k < |t| && Candidate(t[k])
    requires forall j :: 0 <= j < |t| && Candidate(t[j]) && j != k ==> KickedFirst(t, k, j)
    ensures LatestKicked(s, t[k := t[k].(available := false)])
  {
    var u := t[k := t[k].(available := false)];
    forall i | 0 <= i < |s| ensures SameBut(s, u, i) {
      assert SameBut(s, t, i);
    }
    forall i, j | 0 <= i < |s| && 0 <= j < |s| && s[i].available && !u[i].available && Candidate(u[j])
      ensures KickedFirst(s, i, j)
    {
      assert SameBut(s, t, i) && SameBut(s, t, j);
      assert Candidate(t[j]) && j != k;
      if i == k {
        assert KickedFirst(t, k, j);
      }
    }
  }

  /** The entries handed the segment: all Available ones up to the first copy that fails. */
  function Sent(s: seq<RedSk>): (ids: seq<nat>) {
    if s == [] then []
    else if !s[0].available then Sent(s[1..])
    else if !s[0].sk.canClone then []
    else [s[0].sk.id] + Sent(s[1..])
  }

  function AfterSend(s: seq<RedSk>, now: int): (t: seq<RedSk>)
    ensures |t| == |s|
  {
    if s == [] then []
    else if s[0].available && !s[0].sk.canClone then [Used(s[0], now)] + s[1..]
    else [Used(s[0], now)] + AfterSend(s[1..], now)
  }

  predicate AllCopied(s: seq<RedSk>) {
    forall i :: 0 <= i < |s| && s[i].available ==> s[i].sk.canClone
  }

  function Used(e: RedSk, now: int): RedSk {
    if e.available then e.(available := false, lastUsed := now) else e
  }

  /** Unfolding of a transmission at position `i`. */
  lemma SendStep(s: seq<RedSk>, i: nat, now: int)
    requires i < |s|
    ensures var rest, used := s[i + 1..], [Used(s[i], now)];
            if s[i].available && !s[i].sk.canClone then
              AfterSend(s[i..], now) == used + rest && Sent(s[i..]) == []
            else
              && AfterSend(s[i..], now) == used + AfterSend(rest, now)
              && Sent(s[i..]) == (if s[i].available then [s[i].sk.id] else []) + Sent(rest)
  {
    assert s[i..][1..] == s[i + 1..];
  }

  lemma Regroup<T>(a: seq<T>, b: seq<T>, c: seq<T>)
    ensures a + (b + c) == (a + b) + c
  {
  }

  /** When every copy succeeds, the segment goes out once on each Available subflow, and none stays Available. */
  lemma {:induction false} SentOnEach(s: seq<RedSk>, now: int)
    requires AllCopied(s)
    ensures |Sent(s)| == Count(s, false)
    ensures forall i :: 0 <= i < |s| ==>
              AfterSend(s, now)[i] == if s[i].available then s[i].(available := false, lastUsed := now) else s[i]
  {
    if s != [] {
      SentOnEach(s[1..], now);
    }
  }

  lemma NothingToSend(now: int)
    ensures AfterSend([], now) == [] && Sent([]) == []
  {
  }

  predicate AddrOrder(a: Sock, b: Sock) {
    a.saddr < b.saddr || (a.saddr == b.saddr && a.daddr <= b.daddr)
  }

  ghost predicate Sorted(s: seq<RedSk>) {
    forall i, j :: 0 <= i < j < |s| ==> AddrOrder(s[i].sk, s[j].sk)
  }

  lemma InsertKeepsSorted(s: seq<RedSk>, p: nat, e: RedSk)
    requires Sorted(s) && p <= |s|
    requires forall i :: 0 <= i < p ==> !AddrOrder(e.sk, s[i].sk)
    requires p < |s| ==> AddrOrder(e.sk, s[p].sk)
    ensures Sorted(s[..p] + [e] + s[p..])
  {
    var t := s[..p] + [e] + s[p..];
    forall i, j | 0 <= i < j < |t| ensures AddrOrder(t[i].sk, t[j].sk) {
      if i == p {
        assert AddrOrder(e.sk, s[p].sk);
      }
    }
  }

  /** What a socket's number stands for does not change. */
  ghost predicate Kept(seen: nat -> Sock, id: nat) {
    seen(id).id == id
  }

  predicate Chosen(e: RedSk) {
    e.enabled || e.sub
  }

  function Masked(e: RedSk, on: bool): RedSk {
    if on then e.(enabled := true) else e.(enabled := false, main := false)
  }

  function CountEnabled(s: seq<RedSk>): (n: nat)
    ensures n <= |s|
  {
    if s == [] then 0 else CountEnabled(s[..|s| - 1]) + (if s[|s| - 1].enabled then 1 else 0)
  }

  predicate SameButMain(e: RedSk, f: RedSk) {
    f == e.(main := f.main)
  }

  predicate MainOnly(s: seq<RedSk>, t: seq<RedSk>) {
    |t| == |s| && forall i :: 0 <= i < |s| ==> SameButMain(s[i], t[i])
  }

  /** If any subflow is enabled or a substitute, one such is a main subflow. */
  predicate SomeMain(s: seq<RedSk>) {
    (exists i :: 0 <= i < |s| && Chosen(s[i])) ==> exists i :: 0 <= i < |s| && s[i].main && Chosen(s[i])
  }

  /** The main subflows of `t` are the uncongested ones in use of `s`, or all in use if those are all congested. */
  ghost predicate UncongestedMain(s: seq<RedSk>, t: seq<RedSk>)
    requires |t| == |s|
  {
    if exists k :: 0 <= k < |s| && Chosen(s[k]) && !s[k].cong
    then forall i :: 0 <= i < |s| ==> t[i].main == (Chosen(s[i]) && !s[i].cong)
    else forall i :: 0 <= i < |s| ==> t[i].main == Chosen(s[i])
  }

  lemma SameUncongested(s: seq<RedSk>, m: seq<RedSk>, t: seq<RedSk>)
    requires MainOnly(s, m) && |t| == |s| && UncongestedMain(m, t)
    ensures UncongestedMain(s, t)
  {
    forall i | 0 <= i < |s| ensures Chosen(m[i]) == Chosen(s[i]) && m[i].cong == s[i].cong {
      assert SameButMain(s[i], m[i]);
    }
  }

  /** The Main bit after the marking pass; the products wrap at 2^32. */
  predicate AfterMark(e: RedSk, lowestRtt: nat, highestBw: nat, ratio: nat) {
    if !Chosen(e) then e.main
    else if e.cong || e.sk.srtt > Low32((ratio + 1) * lowestRtt) || e.bandwidth < highestBw / (ratio + 1) then false
    else e.main || (e.sk.srtt < Low32(ratio * lowestRtt) && e.bandwidth > highestBw / ratio)
  }

  ghost predicate LowestRtt(s: seq<RedSk>, rtt: nat) {
    && (forall e :: e in s && Chosen(e) && !e.cong ==> rtt <= e.sk.srtt)
    && (rtt == TWO_32 - 1 || exists e :: e in s && Chosen(e) && !e.cong && e.sk.srtt == rtt)
  }

  lemma LowestRttAppend(s: seq<RedSk>, e: RedSk, rtt: nat)
    requires LowestRtt(s, rtt)
    ensures LowestRtt(s + [e], if Chosen(e) && !e.cong && e.sk.srtt < rtt then e.sk.srtt else rtt)
  {
    var t := s + [e];
    assert forall f :: f in t <==> f in s || f == e;
  }

  lemma HighestBwAppend(s: seq<RedSk>, e: RedSk, bw: nat)
    requires HighestBw(s, bw)
    ensures HighestBw(s + [e], if Chosen(e) && !e.cong && e.bandwidth > bw then e.bandwidth else bw)
  {
    var t := s + [e];
    assert forall f :: f in t <==> f in s || f == e;
  }

  lemma NoExtremes()
    ensures LowestRtt([], TWO_32 - 1) && HighestBw([], 0)
  {
  }

  ghost predicate HighestBw(s: seq<RedSk>, bw: nat) {
    && (forall e :: e in s && Chosen(e) && !e.cong ==> e.bandwidth <= bw)
    && (bw == 0 || exists e :: e in s && Chosen(e) && !e.cong && e.bandwidth == bw)
  }

  /**
   Without wrap-around a main subflow has at most ratio + 1 times the lowest round-trip time and at least the
   highest bandwidth's (ratio + 1)-th part; what is better than `ratio` in both respects is one in any case.
   */
  lemma MainIsComparable(e: RedSk, lowestRtt: nat, highestBw: nat, ratio: nat)
    requires Chosen(e) && 0 < ratio && (ratio + 1) * lowestRtt < TWO_32
    ensures AfterMark(e, lowestRtt, highestBw, ratio) ==>
              !e.cong && e.sk.srtt <= (ratio + 1) * lowestRtt && highestBw < (ratio + 1) * (e.bandwidth + 1)
    ensures !e.cong && e.sk.srtt < ratio * lowestRtt && highestBw < ratio * e.bandwidth ==>
              AfterMark(e, lowestRtt, highestBw, ratio)
  {
    Bands(e.bandwidth, highestBw, ratio);
    Less(e.sk.srtt, lowestRtt, ratio);
  }

  lemma Less(rtt: nat, lowest: nat, ratio: nat)
    requires (ratio + 1) * lowest < TWO_32
    ensures Low32((ratio + 1) * lowest) == (ratio + 1) * lowest && Low32(ratio * lowest) == ratio * lowest
    ensures rtt < ratio * lowest ==> rtt <= (ratio + 1) * lowest
  {
    assert (ratio + 1) * lowest == ratio * lowest + lowest;
  }

  lemma Bands(bandwidth: nat, highest: nat, ratio: nat)
    requires ratio > 0
    ensures highest / (ratio + 1) <= bandwidth ==> highest < (ratio + 1) * (bandwidth + 1)
    ensures highest < ratio * bandwidth ==> highest / ratio < bandwidth && highest / (ratio + 1) < bandwidth
  {
    BandsNamed(bandwidth, highest, ratio);
  }

  lemma BandsNamed(bandwidth: nat, highest: nat, ratio: nat)
    requires ratio > 0
    ensures P.Div(highest, ratio + 1) <= bandwidth ==> highest < P.Mul(ratio + 1, bandwidth + 1)
    ensures highest < P.Mul(ratio, bandwidth) ==>
              P.Div(highest, ratio) < bandwidth && P.Div(highest, ratio + 1) < bandwidth
  {
    hide P.Mul, P.Div;
    P.DivBounds(highest, ratio + 1);
    P.MulCommutes(ratio + 1, bandwidth + 1);
    if P.Div(highest, ratio + 1) <= bandwidth {
      P.MulMonotone(P.Div(highest, ratio + 1) + 1, bandwidth + 1, ratio + 1);
    }
    if highest < P.Mul(ratio, bandwidth) {
      P.MulCommutes(ratio, bandwidth);
      P.MulSucc(0, ratio);
      P.MulMonotone(ratio, ratio + 1, bandwidth);
      P.MulCommutes(ratio + 1, bandwidth);
      P.DivAtMost(highest, ratio, bandwidth - 1);
      P.DivAtMost(highest, ratio + 1, bandwidth - 1);
    }
  }

  lemma SomeMainFromAll(s: seq<RedSk>)
    requires forall i :: 0 <= i < |s| ==> s[i].main == Chosen(s[i])
    ensures SomeMain(s)
  {
  }

  /** Unfolding of a scan at position `i`. */
  lemma ScanStep(s: seq<RedSk>, i: nat, now: int, noshow: nat)
    requires i < |s|
    ensures var rest := Scan(s[i + 1..], now, noshow);
            if Forgotten(s[i], now, noshow) then Scan(s[i..], now, noshow) == rest
            else
              && Scan(s[i..], now, noshow) == [Refresh(s[i])] + rest
              && (forall m :: Count(Scan(s[i..], now, noshow), m)
                    == (if Refresh(s[i]).available && (m ==> s[i].main) then 1 else 0) + Count(rest, m))
  {
    assert s[i..][1..] == s[i + 1..];
    var rest := Scan(s[i + 1..], now, noshow);
    assert ([Refresh(s[i])] + rest)[1..] == rest;
  }

  class Register {
    const skList: array<RedSk>
    var skListSize: nat
    var numEnabled: nat
    var qControl: nat
    var qActual: nat
    var qTarget: nat
    var timeout: nat             // u32, microseconds
    var timeoutStart: int        // ktime, 0 when not running
    var sendPeriodMax: nat       // microseconds
    var maxSkNoshow: nat         // milliseconds

    ghost predicate Valid()
      reads this
    {
      skList.Length == MAX_NUM_RED_SK && skListSize <= MAX_NUM_RED_SK && qActual < TWO_31
    }

    ghost function Known(): seq<RedSk>
      reads this, skList
      requires Valid()
    {
      skList[..skListSize]
    }

    constructor ()
      ensures Valid() && Known() == [] && qTarget == 100 && fresh(skList)
    {
      skList := new RedSk[MAX_NUM_RED_SK](_ =>
        RedSk(Sock(0, 0, 0, true, 0, true, 0, 0), false, false, false, false, false, 0, 0, 0, 0, 0));
      skListSize, numEnabled := 0, 0;
      qControl, qActual, qTarget := 0, 0, 100;
      timeout, timeoutStart, sendPeriodMax, maxSkNoshow := 0, 0, 0, 1;
    }

    /** Makes room at position `i` by shifting the tail up. */
    method ShiftUp(i: nat)
      requires Valid() && i <= skListSize < MAX_NUM_RED_SK
      modifies this`skListSize, skList
      ensures Valid() && skListSize == old(skListSize) + 1
      ensures skList[..i] == old(Known())[..i] && skList[i + 1..skListSize] == old(Known())[i..]
      ensures skList[i] == old(skList[i])
    {
      ghost var was := Known();
      skListSize := skListSize + 1;
      var j := skListSize - 1;
      while j > i
        invariant Valid() && skListSize == |was| + 1 && i <= j <= |was|
        invariant forall k :: 0 <= k < j ==> skList[k] == was[k]
        invariant forall k :: j <= k < |was| ==> skList[k + 1] == was[k]
        invariant skList[i] == old(skList[i])
      {
        skList[j] := skList[j - 1];
        j := j - 1;
      }
    }

    /** `rmptcp_insert_sk`: put the new subflow in address order. */
    method InsertSk(now: int, sk: Sock) returns (ghost p: nat)
      requires Valid() && skListSize < MAX_NUM_RED_SK
      modifies this`skListSize, skList
      ensures Valid() && skListSize == old(skListSize) + 1
      ensures Sorted(old(Known())) ==> Sorted(Known())
      ensures p <= old(skListSize)
      ensures Known() == old(Known())[..p] + [Newcomer(old(skList[p]), sk, now)] + old(Known())[p..]
      ensures Known()[p] == old(skList[p]).(sk := sk, lastUsed := now, available := false, enabled := false,
                                            main := true, cong := false, sub := false)
    {
      hide Sorted, AddrOrder;
      ghost var was := Known();
      var i := 0;
      while i < skListSize && !AddrOrder(sk, skList[i].sk)
        invariant 0 <= i <= skListSize
        invariant forall k :: 0 <= k < i ==> !AddrOrder(sk, was[k].sk)
      {
        i := i + 1;
      }
      p := i;
      ShiftUp(i);
      skList[i] := Newcomer(skList[i], sk, now);
      assert Known() == skList[..i] + [skList[i]] + skList[i + 1..skListSize];
      if Sorted(was) {
        InsertKeepsSorted(was, i, skList[i]);
      }
    }

    /** Sockets change on their own between two calls; the register entries keep their place and their bits. */
    method Observe(seen: nat -> Sock)
      requires Valid() && forall id :: Kept(seen, id)
      modifies skList
      ensures Valid() && |Known()| == |old(Known())|
      ensures forall i :: 0 <= i < skListSize ==> Known()[i] == old(Known())[i].(sk := seen(old(Known())[i].sk.id))
    {
      ghost var was := Known();
      for i := 0 to skListSize
        invariant Valid() && skListSize == |was|
        invariant forall k :: 0 <= k < i ==> skList[k] == was[k].(sk := seen(was[k].sk.id))
        invariant forall k :: i <= k < skListSize ==> skList[k] == was[k]
      {
        skList[i] := skList[i].(sk := seen(skList[i].sk.id));
      }
    }

    /** The first loop of `rmptcp_set_enable_flag`: a disabled entry is no main one either. */
    method MarkEnabled(mask: nat -> bool)
      requires Valid()
      modifies skList
      ensures Valid() && |Known()| == |old(Known())|
      ensures forall i :: 0 <= i < skListSize ==> Known()[i] == Masked(old(Known())[i], mask(i))
    {
      ghost var was := Known();
      for i := 0 to skListSize
        invariant Valid() && skListSize == |was|
        invariant forall k :: 0 <= k < i ==> skList[k] == Masked(was[k], mask(k))
        invariant forall k :: i <= k < skListSize ==> skList[k] == was[k]
      {
        if mask(i) {
          skList[i] := skList[i].(enabled := true);
        } else {
          skList[i] := skList[i].(enabled := false, main := false);
        }
      }
    }

    /** `rmptcp_set_enable_flag`: bit `i` of the mask enables entry `i`; the disabled ones are counted off. */
    method SetEnableFlag(mask: nat -> bool)
      requires Valid()
      modifies this`numEnabled, skList
      ensures Valid() && |Known()| == |old(Known())|
      ensures forall i :: 0 <= i < skListSize ==> 
                Known()[i] == old(Known())[i].(enabled := mask(i), main := mask(i) && old(Known())[i].main)
      ensures numEnabled == CountEnabled(Known())
    {
      MarkEnabled(mask);
      ghost var now := Known();
      var disabled := 0;
      for i := 0 to skListSize
        invariant disabled == i - CountEnabled(now[..i])
      {
        assert now[..i + 1][..i] == now[..i];
        if !mask(i) {
          disabled := disabled + 1;
        }
      }
      assert now[..skListSize] == now;
      numEnabled := skListSize - disabled;
    }

    /** `rmptcp_set_all_main` */
    method SetAllMain()
      requires Valid()
      modifies skList
      ensures Valid() && MainOnly(old(Known()), Known()) && SomeMain(Known())
      ensures forall i :: 0 <= i < skListSize ==> Known()[i].main == (old(Known())[i].enabled || old(Known())[i].sub)
    {
      ghost var was := Known();
      for i := 0 to skListSize
        invariant Valid() && skListSize == |was|
        invariant forall k :: 0 <= k < i ==> skList[k] == was[k].(main := Chosen(was[k]))
        invariant forall k :: i <= k < skListSize ==> skList[k] == was[k]
      {
        skList[i] := skList[i].(main := skList[i].enabled || skList[i].sub);
      }
      SomeMainFromAll(Known());
    }

    /** `rmptcp_set_all_uncong_main`: the uncongested subflows in use, or all in use if all of them are congested. */
    method SetAllUncongMain()
      requires Valid()
      modifies skList
      ensures Valid() && MainOnly(old(Known()), Known()) && SomeMain(Known())
      ensures UncongestedMain(old(Known()), Known())
    {
      ghost var was := Known();
      var c := 0;
      for i := 0 to skListSize
        invariant Valid() && skListSize == |was| && c >= 0
        invariant forall k :: 0 <= k < i ==> SameButMain(was[k], skList[k])
        invariant forall k :: 0 <= k < i ==> skList[k].main == (Chosen(was[k]) && !was[k].cong)
        invariant forall k :: i <= k < skListSize ==> skList[k] == was[k]
        invariant c > 0 <==> exists k :: 0 <= k < i && Chosen(was[k]) && !was[k].cong
      {
        if (skList[i].enabled || skList[i].sub) && !skList[i].cong {
          skList[i] := skList[i].(main := true);
          c := c + 1;
        } else {
          skList[i] := skList[i].(main := false);
        }
      }
      assert c > 0 ==> SomeMain(Known());
      if c == 0 {
        SetAllMain();
      }
    }

    /**
     The marking pass of `rmptcp_update_main_sk`: slow, thin or congested subflows lose the bit, fast and broad ones
     get it, the others keep it, and `numMain` is zero exactly if no subflow in use is a main one then.
     */
    method MarkMain(lowestRtt: nat, highestBw: nat, ratio: nat) returns (numMain: nat)
      requires Valid()
      modifies skList
      ensures Valid() && MainOnly(old(Known()), Known())
      ensures forall i :: 0 <= i < skListSize ==>
                Known()[i].main == AfterMark(old(Known())[i], lowestRtt, highestBw, ratio)
      ensures numMain > 0 <==> exists i :: 0 <= i < skListSize && Known()[i].main && Chosen(Known()[i])
    {
      ghost var was := Known();
      numMain := 0;
      for i := 0 to skListSize
        invariant Valid() && skListSize == |was|
        invariant forall k :: 0 <= k < i ==> SameButMain(was[k], skList[k])
        invariant forall k :: 0 <= k < i ==> skList[k].main == AfterMark(was[k], lowestRtt, highestBw, ratio)
        invariant forall k :: i <= k < skListSize ==> skList[k] == was[k]
        invariant numMain > 0 <==> exists k :: 0 <= k < i && skList[k].main && Chosen(skList[k])
      {
        var e := skList[i];
        if e.enabled || e.sub {
          if e.sk.srtt > Low32((ratio + 1) * lowestRtt) || e.bandwidth < highestBw / (ratio + 1) || e.cong {
            skList[i] := e.(main := false);
          } else if e.sk.srtt < Low32(ratio * lowestRtt) && e.bandwidth > highestBw / ratio {
            skList[i] := e.(main := true);
            numMain := numMain + 1;
          } else if e.main {
            numMain := numMain + 1;
          }
        }
      }
    }

    /** The lowest round-trip time and the highest bandwidth, kept in a 32-bit word, of the healthy subflows in use. */
    method Extremes() returns (lowestRtt: nat, highestBw: nat)
      requires Valid()
      ensures LowestRtt(Known(), lowestRtt)
      ensures (forall e :: e in Known() ==> e.bandwidth < TWO_32) ==> HighestBw(Known(), highestBw)
    {
      hide LowestRtt, HighestBw;
      NoExtremes();
      lowestRtt, highestBw := TWO_32 - 1, 0;
      ghost var s := Known();
      ghost var narrow := forall e :: e in s ==> e.bandwidth < TWO_32;
      assert s[..0] == [];
      for i := 0 to skListSize
        invariant LowestRtt(s[..i], lowestRtt)
        invariant narrow ==> HighestBw(s[..i], highestBw)
      {
        var e := skList[i];
        assert s[..i + 1] == s[..i] + [e] && e == s[i];
        LowestRttAppend(s[..i], e, lowestRtt);
        if narrow {
          HighestBwAppend(s[..i], e, highestBw);
        }
        if (e.enabled || e.sub) && !e.cong {
          if e.sk.srtt < lowestRtt {
            lowestRtt := e.sk.srtt;
          }
          if e.bandwidth > highestBw {
            highestBw := Low32(e.bandwidth);
          }
        }
      }
      assert s[..skListSize] == s;
    }

    /**
     `rmptcp_update_main_sk`: in Recovery all subflows in use are main ones, in Congestion the uncongested ones, else
     those that are fast and broad in comparison with the best; whatever the times and bandwidths, there is one.
     */
    method UpdateMain(recovery: bool, cong: bool, ratio: nat) returns (ghost lowestRtt: nat, ghost highestBw: nat)
      requires Valid()
      modifies skList
      ensures Valid() && MainOnly(old(Known()), Known()) && SomeMain(Known())
      ensures recovery ==> forall i :: 0 <= i < skListSize ==>
                Known()[i].main == (old(Known())[i].enabled || old(Known())[i].sub)
      ensures !recovery && cong ==> UncongestedMain(old(Known()), Known())
      ensures !recovery && !cong ==>
                && LowestRtt(old(Known()), lowestRtt)
                && ((forall e :: e in old(Known()) ==> e.bandwidth < TWO_32) ==> HighestBw(old(Known()), highestBw))
                && if exists i :: 0 <= i < skListSize && Chosen(old(Known())[i])
                                  && AfterMark(old(Known())[i], lowestRtt, highestBw, ratio)
                   then forall i :: 0 <= i < skListSize ==>
                          Known()[i].main == AfterMark(old(Known())[i], lowestRtt, highestBw, ratio)
                   else UncongestedMain(old(Known()), Known())
    {
      hide LowestRtt, HighestBw, AfterMark;
      lowestRtt, highestBw := 0, 0;
      if recovery {
        SetAllMain();
        return;
      }
      if cong {
        SetAllUncongMain();
        return;
      }
      ghost var was := Known();
      var lowest, highest := Extremes();
      lowestRtt, highestBw := lowest, highest;
      var numMain := MarkMain(lowest, highest, ratio);
      if numMain == 0 {
        ghost var marked := Known();
        SetAllUncongMain();
        SameUncongested(was, marked, Known());
      }
    }

    /** Removal of entry `i` by shifting the tail down. */
    method RemoveAt(i: nat)
      requires Valid() && i < skListSize
      modifies this`skListSize, skList
      ensures Valid() && skListSize == old(skListSize) - 1
      ensures Known() == old(Known())[..i] + old(Known())[i + 1..]
    {
      ghost var was := Known();
      var j := i;
      while j < skListSize - 1
        invariant Valid() && skListSize == |was| && i <= j <= skListSize - 1
        invariant forall k :: 0 <= k < i ==> skList[k] == was[k]
        invariant forall k :: i <= k < j ==> skList[k] == was[k + 1]
        invariant forall k :: j < k < |was| ==> skList[k] == was[k]
      {
        skList[j] := skList[j + 1];
        j := j + 1;
      }
      skListSize := skListSize - 1;
    }

    /** One turn of the scan at position `i`. */
    method ScanOne(i: nat, now: int) returns (next: nat, avail: nat, mainAvail: nat)
      requires Valid() && i < skListSize
      modifies this`skListSize, skList
      ensures Valid() && i <= next <= skListSize && skListSize - next < old(skListSize) - i
      ensures Known()[..next] + Scan(Known()[next..], now, maxSkNoshow)
           == old(Known())[..i] + Scan(old(Known())[i..], now, maxSkNoshow)
      ensures avail + Count(Scan(Known()[next..], now, maxSkNoshow), false)
           == Count(Scan(old(Known())[i..], now, maxSkNoshow), false)
      ensures mainAvail + Count(Scan(Known()[next..], now, maxSkNoshow), true)
           == Count(Scan(old(Known())[i..], now, maxSkNoshow), true)
    {
      hide Scan, Count;
      ghost var was := Known();
      ScanStep(was, i, now, maxSkNoshow);
      avail, mainAvail := 0, 0;
      var e := skList[i];
      if Forgotten(e, now, maxSkNoshow) {
        RemoveAt(i);
        next := i;
        assert Known()[next..] == was[i + 1..];
        assert Known()[..next] == was[..i];
      } else {
        skList[i] := Refresh(e);
        next := i + 1;
        if skList[i].available {
          avail := 1;
          if e.main {
            mainAvail := 1;
          }
        }
        assert Known()[next..] == was[i + 1..];
        assert Known()[..next] == was[..i] + [Refresh(e)];
      }
    }

    /** The scan loop: the counters are the numbers of Available and of Available and Main entries that remain. */
    method ScanAll(now: int) returns (avail: nat, mainAvail: nat)
      requires Valid()
      modifies this`skListSize, skList
      ensures Valid()
      ensures Known() == Scan(old(Known()), now, maxSkNoshow)
      ensures avail == Count(Known(), false) && mainAvail == Count(Known(), true)
    {
      ghost var target := Scan(Known(), now, maxSkNoshow);
      avail, mainAvail := 0, 0;
      var i := 0;
      assert Known()[..0] + Scan(Known()[0..], now, maxSkNoshow) == target by { assert Known()[0..] == Known(); }
      while i < skListSize
        invariant Valid() && i <= skListSize
        invariant Known()[..i] + Scan(Known()[i..], now, maxSkNoshow) == target
        invariant avail + Count(Scan(Known()[i..], now, maxSkNoshow), false) == Count(target, false)
        invariant mainAvail + Count(Scan(Known()[i..], now, maxSkNoshow), true) == Count(target, true)
        decreases skListSize - i
      {
        var a, m;
        i, a, m := ScanOne(i, now);
        avail, mainAvail := avail + a, mainAvail + m;
      }
      assert Known()[i..] == [];
      assert Known()[..i] == Known();
    }

    /** The main subflow that was used last; the first one among equals. */
    method FindLatest() returns (latest: nat)
      requires Valid() && Count(Known(), true) > 0
      ensures latest < skListSize && Candidate(Known()[latest])
      ensures forall e :: e in Known() && e.available && e.main ==> e.lastUsed <= Known()[latest].lastUsed
      ensures forall j :: 0 <= j < skListSize && Candidate(Known()[j]) && j != latest ==>
                KickedFirst(Known(), latest, j)
    {
      SomeCandidate(Known());
      ghost var s := Known();
      var i := 0;
      while !(skList[i].available && skList[i].main)
        invariant 0 <= i < skListSize
        invariant forall j :: 0 <= j < i ==> !Candidate(s[j])
        decreases skListSize - i
      {
        i := i + 1;
      }
      latest := i;
      i := i + 1;
      while i < skListSize
        invariant latest < i <= skListSize && Candidate(s[latest])
        invariant forall j :: 0 <= j < i && Candidate(s[j]) && j != latest ==> KickedFirst(s, latest, j)
      {
        if skList[i].available && skList[i].main && skList[latest].lastUsed < skList[i].lastUsed {
          latest := i;
        }
        i := i + 1;
      }
    }

    /** The kick loop: it ends, and the final count is exact. */
    method Kick(avail: nat, mainAvail: nat) returns (left: nat)
      requires Valid() && avail == Count(Known(), false) && mainAvail == Count(Known(), true)
      requires avail >= qControl >= 1 && mainAvail >= 1
      modifies skList
      ensures Valid() && LatestKicked(old(Known()), Known())
      ensures forall i, j :: 0 <= i < skListSize && 0 <= j < skListSize ==>
                (old(Known())[i].available && !Known()[i].available ==>
                   && old(Known())[i].main
                   && (Known()[j].available && Known()[j].main ==>
                         old(Known())[j].lastUsed <= old(Known())[i].lastUsed))
      ensures left == Count(Known(), false) == Max(qControl, avail - mainAvail + 1)
      ensures Count(Known(), true) >= 1
    {
      left := avail;
      var main := mainAvail;
      while left > qControl && main > 1
        invariant Valid() && left == Count(Known(), false) && main == Count(Known(), true)
        invariant left >= qControl && main >= 1 && left - main == avail - mainAvail
        invariant LatestKicked(old(Known()), Known())
      {
        var latest := FindLatest();
        ghost var t := Known();
        KickKeepsLatest(old(Known()), t, latest);
        CountAfterKick(t, latest, false);
        CountAfterKick(t, latest, true);
        skList[latest] := skList[latest].(available := false);
        assert Known() == t[latest := t[latest].(available := false)];
        left, main := left - 1, main - 1;
      }
      KickedUsedLater(old(Known()), Known());
      CountMainBound(Known());
    }

    /** The delay (microseconds) after which the segment goes out with fewer subflows than asked for. */
    function Deadline(varPeriod: int, cong: bool): int
      reads this
    {
      TruncDiv((100 + varPeriod) * (if cong then 2 else 1) * sendPeriodMax, 100)
    }

    function Waited(now: int): int
      reads this
    {
      if timeoutStart != 0 then TruncDiv(now - timeoutStart, 1000) else 0
    }

    /** `rmptcp_check_avail_sk` */
    method CheckAvail(now: int, varPeriod: int, kick: bool, cong: bool) returns (go: bool)
      requires Valid()
      modifies this, skList
      ensures Valid() && numEnabled == old(numEnabled) && qTarget == old(qTarget)
      ensures maxSkNoshow == old(maxSkNoshow) && sendPeriodMax == old(sendPeriodMax)
      ensures qControl == Clamp(old(qControl), numEnabled)
      ensures var s := Scan(old(Known()), now, old(maxSkNoshow));
              var met := Count(s, false) >= qControl && Count(s, true) > 0;
              var waited := if old(timeoutStart) == 0 then 0 else TruncDiv(now - old(timeoutStart), 1000);
              var late := waited > TruncDiv((100 + varPeriod) * (if cong then 2 else 1) * old(sendPeriodMax), 100);
              && go == (Count(s, false) > 0 && (met || late))
              && (met && kick ==>
                    && LatestKicked(s, Known()) && Count(Known(), true) >= 1
                    && Count(Known(), false) == Max(qControl, Count(s, false) - Count(s, true) + 1))
              && (!(met && kick) ==> Known() == s)
              && timeout == (if !met && late && !cong then Low32(waited) else old(timeout))
              && timeoutStart == (if go then 0
                                  else if old(timeoutStart) == 0 && !(late && !cong) then now
                                  else old(timeoutStart))
      ensures qActual == if go then NextActual(old(qActual), Count(Known(), false)) else old(qActual)
    {
      hide Scan, Count, LatestKicked, Clamp, NextActual;
      var waited, deadline := Waited(now), Deadline(varPeriod, cong);
      var avail, mainAvail := ScanAll(now);
      CountMainBound(Known());
      qControl := Clamp(qControl, numEnabled);
      if avail >= qControl && mainAvail > 0 {
        go := true;
        if kick {
          avail := Kick(avail, mainAvail);
        }
      } else if cong && waited > deadline && avail > 0 {
        go := true;
      } else if !cong && waited > deadline {
        timeout := Low32(waited);
        go := avail > 0;
      } else {
        if timeoutStart == 0 {
          timeoutStart := now;
        }
        go := false;
      }
      if avail == 0 {
        go := false;
      }
      assert qControl >= 1;
      if go {
        NextActualBounded(qActual, avail);
        qActual := NextActual(qActual, avail);
        timeoutStart := 0;
      }
    }

    /** One turn of `rmptcp_send_skb`; `was` is the register before the first. */
    method SendOn(i: nat, now: int, ghost was: seq<RedSk>) returns (handed: seq<nat>, ok: bool)
      requires Valid() && i < skListSize == |was| && skList[i..skListSize] == was[i..]
      modifies skList
      ensures ok == (was[i].available ==> was[i].sk.canClone)
      ensures handed == if was[i].available && ok then [was[i].sk.id] else []
      ensures skList[..i + 1] == old(skList[..i]) + [Used(was[i], now)] && skList[i + 1..skListSize] == was[i + 1..]
      ensures Known() == old(skList[..i]) + ([Used(was[i], now)] + was[i + 1..])
    {
      assert skList[i] == skList[i..skListSize][0];
      assert skList[i + 1..skListSize] == skList[i..skListSize][1..];
      handed, ok := [], true;
      if skList[i].available {
        skList[i] := Used(skList[i], now);
        ok := skList[i].sk.canClone;
        if ok {
          handed := [skList[i].sk.id];
        }
      }
    }

    /** `rmptcp_send_skb`: a copy for each Available subflow, until one cannot be made. */
    method SendSkb(now: int) returns (sent: seq<nat>, ok: bool)
      requires Valid()
      modifies skList
      ensures Valid() && Known() == AfterSend(old(Known()), now) && sent == Sent(old(Known()))
      ensures ok == AllCopied(old(Known()))
    {
      hide AfterSend, Sent, Used;
      ghost var was := Known();
      sent, ok := [], true;
      var i := 0;
      assert was[0..] == was;
      while i < skListSize
        invariant 0 <= i <= |was|
        invariant skList[i..skListSize] == was[i..]
        invariant skList[..i] + AfterSend(was[i..], now) == AfterSend(was, now)
        invariant sent + Sent(was[i..]) == Sent(was)
        invariant forall k :: 0 <= k < i && was[k].available ==> was[k].sk.canClone
      {
        SendStep(was, i, now);
        ghost var done := skList[..i];
        var handed;
        handed, ok := SendOn(i, now, was);
        sent := sent + handed;
        if !ok {
          return;
        }
        Regroup(done, [Used(was[i], now)], AfterSend(was[i + 1..], now));
        i := i + 1;
      }
      NothingToSend(now);
      assert was[i..] == [] && skList[..i] == Known();
    }

    /**
     One segment: scan, choice, kicks and transmission.  `chosen` is the register in between.  When the target is met
     the segment goes out on max(asked, available - main + 1) subflows; without that, after the timeout, on all that
     are Available; each time up to the first copy that cannot be made.  The measure counts the chosen subflows,
     sent or not.  With every Available subflow a main one that is exactly one step of the closed loop.
     */
    method SendNext(now: int, varPeriod: int, cong: bool) returns (sent: seq<nat>, go: bool, ghost chosen: seq<RedSk>)
      requires Valid()
      modifies this, skList
      ensures Valid() && qTarget == old(qTarget) && numEnabled == old(numEnabled)
      ensures var s := Scan(old(Known()), now, old(maxSkNoshow));
              var asked := Clamp(Control(old(qActual), qTarget), numEnabled);
              var met := Count(s, false) >= asked && Count(s, true) > 0;
              && (met ==> go && LatestKicked(s, chosen) && Count(chosen, true) >= 1
                          && Count(chosen, false) == Max(asked, Count(s, false) - Count(s, true) + 1))
              && (!met ==> chosen == s)
              && ((forall e :: e in s && e.available ==> e.main) && Count(s, false) >= asked ==>
                    go && Count(chosen, false) == asked)
      ensures if go then Known() == AfterSend(chosen, now) && sent == Sent(chosen) else Known() == chosen && sent == []
      ensures |sent| <= Count(chosen, false) && (go && AllCopied(chosen) ==> |sent| == Count(chosen, false))
      ensures qActual == if go then NextActual(old(qActual), Count(chosen, false)) else old(qActual)
      ensures go && Setting(old(qActual), qTarget, numEnabled)
              && Count(chosen, false) == Clamp(Control(old(qActual), qTarget), numEnabled) ==>
                qActual == LoopStep(old(qActual), qTarget, numEnabled)
    {
      hide Scan, Count, LatestKicked, Clamp, NextActual, AfterSend, Sent, AllCopied, Control;
      ghost var s := Scan(Known(), now, maxSkNoshow);
      if forall e :: e in s && e.available ==> e.main {
        AllMainCount(s);
      }
      ClampPositive(Control(qActual, qTarget), numEnabled);
      qControl := Control(qActual, qTarget);
      go := CheckAvail(now, varPeriod, true, cong);
      sent, chosen := [], Known();
      SentAtMost(chosen);
      if go {
        if AllCopied(chosen) {
          SentOnEach(chosen, now);
        }
        var ok;
        sent, ok := SendSkb(now);
      }
    }
  }

  lemma ClampPositive(control: nat, enabled: nat)
    ensures Clamp(control, enabled) >= 1
  {
  }

  /** No more copies than Available subflows. */
  lemma {:induction false} SentAtMost(s: seq<RedSk>)
    ensures |Sent(s)| <= Count(s, false)
  {
    if s != [] {
      SentAtMost(s[1..]);
    }
  }

  lemma NextActualBounded(actual: nat, used: nat)
    requires actual < TWO_31 && used <= MAX_NUM_RED_SK
    ensures NextActual(actual, used) < TWO_31
  {
  }
}
