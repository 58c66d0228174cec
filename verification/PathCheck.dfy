/**
 The path checker: enumerate the combinations of subflows that use no address twice.
 */
module PathCheck {
  import opened Common
  import opened Products

  const MAX_NUM_ADDR: nat := 4

  /** A registered subflow: its source and destination address. */
  datatype Path = Path(saddr: int, daddr: int)

  function Pow2(n: nat): (p: nat)
    ensures p > 0
  {
    if n == 0 then 1 else 2 * Pow2(n - 1)
  }

  /** `mask & (1 << i)` */
  predicate Bit(mask: nat, i: nat) {
    (mask / Pow2(i)) % 2 == 1
  }

  /** Number of set bits below position `n`. */
  function BitCount(mask: nat, n: nat): (c: nat)
    ensures c <= n
  {
    if n == 0 then 0 else BitCount(mask, n - 1) + (if Bit(mask, n - 1) then 1 else 0)
  }

  function Address(p: Path, src: bool): int {
    if src then p.saddr else p.daddr
  }

  /** The addresses of one side among the first `n` subflows. */
  function Column(list: seq<Path>, src: bool, n: nat): set<int>
    requires n <= |list|
  {
    set i | 0 <= i < n :: Address(list[i], src)
  }

  function Sources(list: seq<Path>): set<int> {
    Column(list, true, |list|)
  }

  function Destinations(list: seq<Path>): set<int> {
    Column(list, false, |list|)
  }

  function Min(a: nat, b: nat): nat {
    if a < b then a else b
  }

  /** Two different selected subflows share neither address. */
  ghost predicate OverlapFree(list: seq<Path>, mask: nat, n: nat)
    requires n <= |list|
  {
    forall i, j :: 0 <= i < j < n && Bit(mask, i) && Bit(mask, j) ==>
      list[i].saddr != list[j].saddr && list[i].daddr != list[j].daddr
  }

  /** An overlap-free combination of `paths` subflows. */
  ghost predicate Wanted(list: seq<Path>, paths: nat, mask: nat) {
    BitCount(mask, |list|) == paths && OverlapFree(list, mask, |list|)
  }

  /** The wanted masks below `m`, in increasing order. */
  ghost function WantedMasks(list: seq<Path>, paths: nat, m: nat): seq<nat> {
    if m == 0 then []
    else WantedMasks(list, paths, m - 1) + (if Wanted(list, paths, m - 1) then [m - 1] else [])
  }

  /** The list is strictly increasing and contains a mask below `m` exactly if it is wanted. */
  lemma {:induction false} WantedMasksExact(list: seq<Path>, paths: nat, m: nat)
    ensures forall i, j :: 0 <= i < j < |WantedMasks(list, paths, m)| ==>
              WantedMasks(list, paths, m)[i] < WantedMasks(list, paths, m)[j]
    ensures forall x: nat :: x in WantedMasks(list, paths, m) <==> x < m && Wanted(list, paths, x)
  {
    if m > 0 {
      WantedMasksExact(list, paths, m - 1);
      var w := WantedMasks(list, paths, m - 1);
      assert forall i :: 0 <= i < |w| ==> w[i] in w;
    }
  }

  /** The largest number of subflows an overlap-free combination can have. */
  function MaxPaths(list: seq<Path>): nat {
    Min(|Sources(list)|, |Destinations(list)|)
  }

  lemma {:induction false} NoBitsIsZero(mask: nat, n: nat)
    requires mask < Pow2(n) && BitCount(mask, n) == 0
    ensures mask == 0
  {
    if n > 0 {
      TopBitClear(mask, Pow2(n - 1));
      NoBitsIsZero(mask, n - 1);
    }
  }

  lemma TopBitClear(mask: nat, p: nat)
    requires p > 0 && mask < 2 * p && (mask / p) % 2 != 1
    ensures mask < p
  {
    if mask >= p {
      TopBitSet(mask, p);
    }
  }

  lemma TopBitSet(mask: nat, p: nat)
    requires p > 0 && p <= mask < 2 * p
    ensures mask / p == 1
  {
    assert mask / p == 1 + (mask - p) / p;
  }

  lemma {:induction false} ZeroHasNoBits(n: nat)
    ensures BitCount(0, n) == 0
  {
    if n > 0 {
      ZeroHasNoBits(n - 1);
    }
  }

  /** Combinations of no subflow: the empty mask, nothing else. */
  lemma {:induction false} OnlyEmptyMask(list: seq<Path>, m: nat)
    requires m <= Pow2(|list|)
    ensures WantedMasks(list, 0, m) == if m == 0 then [] else [0]
  {
    if m > 0 {
      OnlyEmptyMask(list, m - 1);
      ZeroHasNoBits(|list|);
      if Wanted(list, 0, m - 1) {
        NoBitsIsZero(m - 1, |list|);
      }
      if m == 1 {
        ZeroIsOverlapFree(list, |list|);
      }
    }
  }

  lemma {:induction false} ZeroIsOverlapFree(list: seq<Path>, n: nat)
    requires n <= |list|
    ensures OverlapFree(list, 0, n)
  {
    forall i | 0 <= i < n
      ensures !Bit(0, i)
    {
      ZeroDiv(Pow2(i));
    }
  }

  lemma ZeroDiv(p: nat)
    requires p > 0
    ensures 0 / p == 0
  {
  }

  // ------------------------------------------------------------ no larger combination exists

  function Selected(list: seq<Path>, mask: nat, src: bool, n: nat): set<int>
    requires n <= |list|
  {
    set i | 0 <= i < n && Bit(mask, i) :: Address(list[i], src)
  }

  lemma SelectedStep(list: seq<Path>, mask: nat, src: bool, n: nat)
    requires n < |list|
    ensures Selected(list, mask, src, n + 1)
            == Selected(list, mask, src, n) + (if Bit(mask, n) then {Address(list[n], src)} else {})
  {
    hide Bit;
  }

  lemma {:induction false} SelectionSize(list: seq<Path>, mask: nat, src: bool, n: nat)
    requires n <= |list| && OverlapFree(list, mask, n)
    ensures |Selected(list, mask, src, n)| == BitCount(mask, n)
  {
    hide Bit;
    if n == 0 {
      assert Selected(list, mask, src, 0) == {};
    } else {
      SelectionSize(list, mask, src, n - 1);
      SelectedStep(list, mask, src, n - 1);
      if Bit(mask, n - 1) {
        assert Address(list[n - 1], src) !in Selected(list, mask, src, n - 1);
      }
    }
  }

  /** An overlap-free combination never has more subflows than the smaller side has addresses. */
  lemma OverlapFreeIsBounded(list: seq<Path>, mask: nat)
    requires OverlapFree(list, mask, |list|)
    ensures BitCount(mask, |list|) <= MaxPaths(list)
  {
    hide Bit;
    SelectionSize(list, mask, true, |list|);
    SelectionSize(list, mask, false, |list|);
    SubsetSize(Selected(list, mask, true, |list|), Sources(list));
    SubsetSize(Selected(list, mask, false, |list|), Destinations(list));
  }

  /** Four subflows without a common address: all of them together are wanted, but there are four sources. */
  lemma FourSources()
    ensures var list := [Path(0, 4), Path(1, 5), Path(2, 6), Path(3, 7)];
            MaxPaths(list) == 4 && Wanted(list, 4, 15) && !(|Sources(list)| < MAX_NUM_ADDR)
  {
    hide Sources, Destinations, BitCount, Bit, Pow2;
    var list := [Path(0, 4), Path(1, 5), Path(2, 6), Path(3, 7)];
    FourColumns(list);
    FourBits();
  }

  lemma FourColumns(list: seq<Path>)
    requires |list| == 4 && forall i :: 0 <= i < 4 ==> list[i] == Path(i, i + 4)
    ensures |Sources(list)| == 4 && |Destinations(list)| == 4
  {
    forall x | 0 <= x < 4
      ensures x in Sources(list) && x + 4 in Destinations(list)
    {
      assert Address(list[x], true) == x && Address(list[x], false) == x + 4;
    }
    assert Sources(list) == {0, 1, 2, 3} && Destinations(list) == {4, 5, 6, 7};
  }

  lemma FourBits()
    ensures BitCount(15, 4) == 4
  {
    assert Bit(15, 0) && Bit(15, 1) && Bit(15, 2) && Bit(15, 3);
  }

  // ------------------------------------------------------------ the code

  ghost predicate Distinct(s: seq<int>) {
    forall i, j :: 0 <= i < j < |s| ==> s[i] != s[j]
  }

  function Elements(s: seq<int>): set<int> {
    set i | 0 <= i < |s| :: s[i]
  }

  lemma DistinctSize(s: seq<int>)
    requires Distinct(s)
    ensures |Elements(s)| == |s|
  {
    if s != [] {
      var t := s[..|s| - 1];
      DistinctSize(t);
      assert Elements(s) == Elements(t) + {s[|s| - 1]};
      assert s[|s| - 1] !in Elements(t);
    }
  }

  // ------------------------------------------------------------ more combinations than there is room for

  lemma {:induction false} Pow2Split(x: nat, i: nat)
    requires i <= x
    ensures Pow2(x) == Mul(Pow2(x - i), Pow2(i))
  {
    hide Mul;
    if i < x {
      Pow2Split(x - 1, i);
      Doubled(Pow2(x - i - 1), Pow2(i));
    } else {
      MulSucc(0, Pow2(i));
    }
  }

  lemma Doubled(a: nat, b: nat)
    ensures Mul(2 * a, b) == 2 * Mul(a, b)
  {
    assert (2 * a) * b == 2 * (a * b);
  }

  lemma {:induction false} Pow2Grows(x: nat, y: nat)
    requires x < y
    ensures 2 * Pow2(x) <= Pow2(y)
  {
    if x + 1 < y {
      Pow2Grows(x, y - 1);
    }
  }

  lemma QuotientIs(m: nat, p: nat, a: nat, r: nat)
    requires p > 0 && m == Mul(a, p) + r && r < p
    ensures Div(m, p) == a
  {
    hide Mul, Div;
    MulSucc(a, p);
    DivAtLeast(m, p, a);
    DivAtMost(m, p, a);
  }

  lemma MulSum(a: nat, b: nat, p: nat)
    ensures Mul(a + b, p) == Mul(a, p) + Mul(b, p)
  {
    assert (a + b) * p == a * p + b * p;
  }

  lemma BitIsDiv(m: nat, i: nat)
    ensures Bit(m, i) <==> Div(m, Pow2(i)) % 2 == 1
  {
  }

  lemma Pow2Parity(n: nat)
    ensures Pow2(n) % 2 == if n == 0 then 1 else 0
  {
  }

  /** The mask of two subflows has exactly their bits. */
  lemma TwoBits(x: nat, y: nat, i: nat)
    requires x < y
    ensures Bit(Pow2(x) + Pow2(y), i) <==> i == x || i == y
  {
    hide Bit, Pow2, Mul, Div;
    var m, p := Pow2(x) + Pow2(y), Pow2(i);
    BitIsDiv(m, i);
    Pow2Grows(x, y);
    if i <= x {
      Pow2Split(x, i);
      Pow2Split(y, i);
      MulSum(Pow2(x - i), Pow2(y - i), p);
      QuotientIs(m, p, Pow2(x - i) + Pow2(y - i), 0);
      Pow2Parity(x - i);
      Pow2Parity(y - i);
    } else if i <= y {
      Pow2Grows(x, i);
      Pow2Split(y, i);
      QuotientIs(m, p, Pow2(y - i), Pow2(x));
      Pow2Parity(y - i);
    } else {
      Pow2Grows(y, i);
      MulSucc(0, p);
      QuotientIs(m, p, 0, m);
    }
  }

  lemma {:induction false} CountTwo(mask: nat, x: nat, y: nat, n: nat)
    requires x < y && forall i :: 0 <= i < n ==> (Bit(mask, i) <==> i == x || i == y)
    ensures BitCount(mask, n) == (if x < n then 1 else 0) + (if y < n then 1 else 0)
  {
    hide Bit;
    if n > 0 {
      CountTwo(mask, x, y, n - 1);
    }
  }

  /** Two sources and six destinations, each with each. */
  function TwoBySix(): (list: seq<Path>)
    ensures |list| == 12
  {
    seq(12, i requires 0 <= i < 12 => if i < 6 then Path(0, 10 + i) else Path(1, 4 + i))
  }

  /** The first subflow of the `k`-th of thirty combinations, and the second one. */
  function FirstOf(k: nat): nat {
    k / 5
  }

  function SecondOf(k: nat): nat {
    6 + k % 5 + if k % 5 >= k / 5 then 1 else 0
  }

  function MaskOf(k: nat): nat {
    Pow2(FirstOf(k)) + Pow2(SecondOf(k))
  }

  lemma MaskIsWanted(k: nat)
    requires k < 30
    ensures MaskOf(k) < Pow2(12) && Wanted(TwoBySix(), 2, MaskOf(k))
  {
    var x, y := FirstOf(k), SecondOf(k);
    assert x < 6 <= y < 12 && y != x + 6;
    Pow2Grows(x, y);
    Pow2Grows(y, 12);
    hide Bit, Pow2, SecondOf;
    forall i: nat
      ensures Bit(MaskOf(k), i) <==> i == x || i == y
    {
      TwoBits(x, y, i);
    }
    CountTwo(MaskOf(k), x, y, 12);
  }

  lemma MasksDiffer(k: nat, l: nat)
    requires k < l < 30
    ensures MaskOf(k) != MaskOf(l)
  {
    TwoBits(FirstOf(k), SecondOf(k), FirstOf(k));
    TwoBits(FirstOf(l), SecondOf(l), FirstOf(k));
    TwoBits(FirstOf(k), SecondOf(k), SecondOf(k));
    TwoBits(FirstOf(l), SecondOf(l), SecondOf(k));
    hide Bit, Pow2;
  }

  lemma {:induction false} ElementsAtMost(s: seq<int>)
    ensures |Elements(s)| <= |s|
  {
    if s != [] {
      var t := s[..|s| - 1];
      ElementsAtMost(t);
      assert Elements(s) == Elements(t) + {s[|s| - 1]};
    }
  }

  /** Twelve subflows between two sources and six destinations have thirty wanted combinations. */
  lemma TooManyCombinations()
    ensures |WantedMasks(TwoBySix(), 2, Pow2(12))| >= 30 > MAX_NUM_RED_SK
    ensures MaxPaths(TwoBySix()) == 2 && |Sources(TwoBySix())| < MAX_NUM_ADDR
  {
    hide Pow2, Wanted, TwoBySix, MaskOf;
    var wanted := WantedMasks(TwoBySix(), 2, Pow2(12));
    var masks: seq<int> := seq(30, k requires 0 <= k < 30 => MaskOf(k));
    forall k | 0 <= k < 30
      ensures masks[k] in Elements(wanted)
    {
      MaskIsWanted(k);
      WantedMasksExact(TwoBySix(), 2, Pow2(12));
      assert MaskOf(k) in wanted;
    }
    forall k, l | 0 <= k < l < 30
      ensures masks[k] != masks[l]
    {
      MasksDiffer(k, l);
    }
    hide WantedMasks;
    DistinctSize(masks);
    ElementsAtMost(wanted);
    SubsetSize(Elements(masks), Elements(wanted));
    TwoBySixAddresses();
  }

  lemma TwoBySixAddresses()
    ensures |Sources(TwoBySix())| == 2 && |Destinations(TwoBySix())| >= 2
  {
    var list := TwoBySix();
    assert Address(list[0], true) == 0 && Address(list[6], true) == 1;
    assert Address(list[0], false) == 10 && Address(list[1], false) == 11;
    assert Sources(list) == {0, 1};
    SubsetSize({10, 11}, Destinations(list));
  }

  class PathIndex {
    var numSrcSk: nat
    var numDstSk: nat
    var numPathCombinations: nat
    var maxNumParallelPaths: nat
    const srcAddr: array<int>
    const dstAddr: array<int>
    const masks: array<nat>

    ghost predicate Valid()
      reads this
    {
      && srcAddr.Length == MAX_NUM_ADDR && dstAddr.Length == MAX_NUM_ADDR && masks.Length == MAX_NUM_RED_SK
      && srcAddr != dstAddr
    }

    constructor ()
      ensures Valid() && fresh(srcAddr) && fresh(dstAddr) && fresh(masks)
    {
      numSrcSk, numDstSk, numPathCombinations, maxNumParallelPaths := 0, 0, 0, 0;
      srcAddr := new int[MAX_NUM_ADDR];
      dstAddr := new int[MAX_NUM_ADDR];
      masks := new nat[MAX_NUM_RED_SK];
    }

    /** One of the two halves of `getAddresses`: the distinct addresses of one side, stopping at four. */
    method Collect(list: seq<Path>, src: bool, addr: array<int>) returns (num: nat, full: bool)
      requires addr.Length == MAX_NUM_ADDR
      modifies addr
      ensures full <==> |Column(list, src, |list|)| >= MAX_NUM_ADDR
      ensures !full ==> num == |Column(list, src, |list|)|
      ensures full ==> num == MAX_NUM_ADDR
    {
      hide Distinct, Elements, Column;
      num := 0;
      var i := 0;
      NoElements(addr[..0]);
      NoColumn(list, src);
      while i < |list|
        invariant i <= |list| && num < MAX_NUM_ADDR
        invariant Distinct(addr[..num]) && Elements(addr[..num]) == Column(list, src, i)
      {
        var a := Address(list[i], src);
        var j := 0;
        while j < num && a != addr[j]
          invariant j <= num && forall t :: 0 <= t < j ==> addr[t] != a
        {
          j := j + 1;
        }
        ghost var before := addr[..num];
        ColumnStep(list, src, i);
        MemberAt(before, a);
        if j >= num {
          addr[num] := a;
          num := num + 1;
          assert addr[..num] == before + [a];
          ElementsSnoc(before, a);
          if num >= MAX_NUM_ADDR {
            DistinctSize(addr[..num]);
            ColumnMonotone(list, src, i + 1);
            return num, true;
          }
        } else {
          assert before[j] == a;
        }
        i := i + 1;
      }
      DistinctSize(addr[..num]);
      full := false;
    }

    static lemma NoElements(s: seq<int>)
      requires s == []
      ensures Distinct(s) && Elements(s) == {}
    {
    }

    static lemma NoColumn(list: seq<Path>, src: bool)
      ensures Column(list, src, 0) == {}
    {
    }

    static lemma MemberAt(s: seq<int>, a: int)
      ensures a in Elements(s) <==> exists j :: 0 <= j < |s| && s[j] == a
      ensures a in Elements(s) ==> Elements(s) + {a} == Elements(s)
    {
    }

    static lemma ColumnStep(list: seq<Path>, src: bool, i: nat)
      requires i < |list|
      ensures Column(list, src, i + 1) == Column(list, src, i) + {Address(list[i], src)}
    {
    }

    static lemma ColumnMonotone(list: seq<Path>, src: bool, i: nat)
      requires i <= |list|
      ensures |Column(list, src, i)| <= |Column(list, src, |list|)|
    {
      SubsetSize(Column(list, src, i), Column(list, src, |list|));
    }

    static lemma ElementsSnoc(s: seq<int>, a: int)
      requires Distinct(s) && a !in Elements(s)
      ensures Distinct(s + [a]) && Elements(s + [a]) == Elements(s) + {a}
    {
      var t := s + [a];
      forall x
        ensures x in Elements(t) <==> x in Elements(s) + {a}
      {
        if x in Elements(s) {
          var i :| 0 <= i < |s| && s[i] == x;
          assert t[i] == x;
        }
        if x == a {
          assert t[|s|] == x;
        }
      }
      forall i | 0 <= i < |s|
        ensures s[i] != a
      {
        assert s[i] in Elements(s);
      }
    }

    /** `getAddresses`: gives up on the destinations when there are too many sources. */
    method GetAddresses(list: seq<Path>)
      requires Valid()
      modifies this, srcAddr, dstAddr
      ensures Valid()
      ensures |Sources(list)| < MAX_NUM_ADDR ==>
                numSrcSk == |Sources(list)| && numDstSk == Min(|Destinations(list)|, MAX_NUM_ADDR)
      ensures |Sources(list)| >= MAX_NUM_ADDR ==> numSrcSk == MAX_NUM_ADDR && numDstSk == 0
    {
      numSrcSk, numDstSk := 0, 0;
      var full;
      numSrcSk, full := Collect(list, true, srcAddr);
      if !full {
        numDstSk, full := Collect(list, false, dstAddr);
      }
    }

    /** Number of subflows a mask selects: the first inner loop. */
    static method CountBits(list: seq<Path>, mask: nat) returns (n: nat)
      ensures n == BitCount(mask, |list|)
    {
      n := 0;
      for i := 0 to |list|
        invariant n == BitCount(mask, i)
      {
        if Bit(mask, i) {
          n := n + 1;
        }
      }
    }

    /** The addresses of the selected subflows among the first `n`, in order. */
    static function SelectedSeq(list: seq<Path>, mask: nat, src: bool, n: nat): (s: seq<int>)
      requires n <= |list|
      ensures |s| == BitCount(mask, n)
    {
      if n == 0 then []
      else SelectedSeq(list, mask, src, n - 1) + (if Bit(mask, n - 1) then [Address(list[n - 1], src)] else [])
    }

    static lemma {:induction false} SelectedSeqElements(list: seq<Path>, mask: nat, src: bool, n: nat)
      requires n <= |list|
      ensures Elements(SelectedSeq(list, mask, src, n)) == Selected(list, mask, src, n)
    {
      hide Bit;
      if n == 0 {
        assert Selected(list, mask, src, 0) == {};
      } else {
        SelectedSeqElements(list, mask, src, n - 1);
        SelectedStep(list, mask, src, n - 1);
        var s := SelectedSeq(list, mask, src, n - 1);
        if Bit(mask, n - 1) {
          ElementsGrow(s, Address(list[n - 1], src));
        } else {
          assert s + [] == s;
        }
      }
    }

    static lemma ElementsGrow(s: seq<int>, a: int)
      ensures Elements(s + [a]) == Elements(s) + {a}
    {
      var t := s + [a];
      forall x
        ensures x in Elements(t) <==> x in Elements(s) + {a}
      {
        if x in Elements(s) {
          var i :| 0 <= i < |s| && s[i] == x;
          assert t[i] == x;
        }
        if x == a {
          assert t[|s|] == x;
        }
      }
    }

    /** Is the address free, that is, not among those used so far? */
    static method Unused(used: array<int>, num: nat, a: int) returns (free: bool)
      requires num <= used.Length
      ensures free <==> a !in Elements(used[..num])
    {
      var j := 0;
      while j < num && a != used[j]
        invariant j <= num && forall t :: 0 <= t < j ==> used[t] != a
      {
        j := j + 1;
      }
      free := j >= num;
      if !free {
        assert used[..num][j] == a;
      }
    }

    /** A selected subflow extends an overlap-free selection exactly if both its addresses are unused. */
    static lemma OverlapStep(list: seq<Path>, mask: nat, i: nat)
      requires i < |list| && OverlapFree(list, mask, i)
      ensures OverlapFree(list, mask, i + 1) <==>
              Bit(mask, i) ==>
                list[i].saddr !in Selected(list, mask, true, i) && list[i].daddr !in Selected(list, mask, false, i)
    {
      hide Bit;
    }

    static lemma OverlapPrefix(list: seq<Path>, mask: nat, i: nat, n: nat)
      requires i <= n <= |list| && OverlapFree(list, mask, n)
      ensures OverlapFree(list, mask, i)
    {
    }

    static lemma BitCountMonotone(mask: nat, i: nat, n: nat)
      requires i <= n
      ensures BitCount(mask, i) <= BitCount(mask, n)
    {
      if i < n {
        BitCountMonotone(mask, i, n - 1);
      }
    }

    /**
     The second inner loop: does the mask use an address twice?  The scratch arrays never fill up, because
     a mask with four or more bits is not looked at.
     */
    static method UsesNoAddressTwice(list: seq<Path>, mask: nat) returns (ok: bool)
      requires BitCount(mask, |list|) < MAX_NUM_ADDR
      ensures ok <==> OverlapFree(list, mask, |list|)
    {
      hide Bit;
      var srcTest, dstTest := new int[MAX_NUM_ADDR], new int[MAX_NUM_ADDR];
      var num := 0;
      var i := 0;
      while i < |list|
        invariant i <= |list| && num == BitCount(mask, i) < MAX_NUM_ADDR
        invariant srcTest[..num] == SelectedSeq(list, mask, true, i)
        invariant dstTest[..num] == SelectedSeq(list, mask, false, i)
        invariant OverlapFree(list, mask, i)
      {
        OverlapStep(list, mask, i);
        SelectedSeqElements(list, mask, true, i);
        SelectedSeqElements(list, mask, false, i);
        BitCountMonotone(mask, i + 1, |list|);
        if Bit(mask, i) {
          var srcFree := Unused(srcTest, num, list[i].saddr);
          var dstFree := Unused(dstTest, num, list[i].daddr);
          if !srcFree || !dstFree {
            ok := false;
            if OverlapFree(list, mask, |list|) {
              OverlapPrefix(list, mask, i + 1, |list|);
            }
            return;
          }
          srcTest[num], dstTest[num] := list[i].saddr, list[i].daddr;
          num := num + 1;
        }
        i := i + 1;
      }
      ok := true;
    }

    /** The number of parallel paths the code looks for: the right one with fewer than four sources. */
    static function SoughtPaths(list: seq<Path>): nat {
      if |Sources(list)| < MAX_NUM_ADDR then MaxPaths(list) else 0
    }

    /**
     `getPathCombinations`: with fewer than four source addresses the recorded masks are exactly the
     overlap-free combinations of the largest possible size, once each and in increasing order.  With four
     or more it records the empty combination and nothing else.  The source does not compare the number of
     combinations with the size of `pM`: `fits` tells whether all of them have room, and the model stops at the
     first one that has not.
     */
    method GetPathCombinations(list: seq<Path>) returns (fits: bool)
      requires Valid() && |list| <= MAX_NUM_RED_SK
      modifies this, srcAddr, dstAddr, masks
      ensures Valid() && numPathCombinations <= MAX_NUM_RED_SK
      ensures fits <==> |WantedMasks(list, SoughtPaths(list), Pow2(|list|))| <= MAX_NUM_RED_SK
      ensures |Sources(list)| < MAX_NUM_ADDR && fits ==>
                masks[..numPathCombinations] == WantedMasks(list, MaxPaths(list), Pow2(|list|))
      ensures |Sources(list)| >= MAX_NUM_ADDR ==> fits && masks[..numPathCombinations] == [0]
      ensures !fits ==> exists m :: masks[..] == WantedMasks(list, MaxPaths(list), m)
    {
      GetAddresses(list);
      var maxPathMask := Pow2(|list|);
      maxNumParallelPaths := Min(numSrcSk, numDstSk);
      ghost var paths := SoughtPaths(list);
      assert maxNumParallelPaths == paths < MAX_NUM_ADDR;
      OnlyEmptyMask(list, Pow2(|list|));
      numPathCombinations, fits := 0, true;
      var testPathMask := 0;
      while testPathMask < maxPathMask
        invariant testPathMask <= maxPathMask && Valid()
        invariant maxNumParallelPaths == paths && numPathCombinations <= MAX_NUM_RED_SK
        invariant masks[..numPathCombinations] == WantedMasks(list, paths, testPathMask)
      {
        var numTestPaths := CountBits(list, testPathMask);
        if numTestPaths == maxNumParallelPaths {
          var ok := UsesNoAddressTwice(list, testPathMask);
          if ok {
            WantedGrow(list, paths, testPathMask + 1, maxPathMask);
            if numPathCombinations == MAX_NUM_RED_SK {
              fits := false;
              assert masks[..] == WantedMasks(list, paths, testPathMask);
              return;
            }
            masks[numPathCombinations] := testPathMask;
            numPathCombinations := numPathCombinations + 1;
          }
        }
        testPathMask := testPathMask + 1;
      }
    }

    static lemma WantedGrow(list: seq<Path>, paths: nat, m: nat, n: nat)
      requires m <= n
      ensures |WantedMasks(list, paths, m)| <= |WantedMasks(list, paths, n)|
    {
      if m < n {
        WantedGrow(list, paths, m, n - 1);
      }
    }
  }
}
