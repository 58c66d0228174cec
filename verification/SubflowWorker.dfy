/**
 The workers of the fullmesh path manager that open a subflow for every pair of a local and a remote address,
 and try once more where the network was unreachable.
 */
module SubflowWorker {
  import opened AddressEvents

  /** A remote address: the local addresses already tried with it, and those to be tried again. */
  datatype Rem = Rem(bytes: nat, port: nat, id: nat, bitfield: Bits, retry: Bits)

  /** The indices of a remote and of a local address of one family. */
  datatype Pair = Pair(family: Family, remote: nat, local: nat)

  /** `loc4_bits` and `loc6_bits`: which local addresses there are. */
  datatype Locals = Locals(bits4: Bits, bits6: Bits) {
    function Of(f: Family): Bits {
      if f == V4 then bits4 else bits6
    }
  }

  predicate InRange(p: Pair) {
    p.remote < MPTCP_MAX_ADDR && p.local < MPTCP_MAX_ADDR
  }

  ghost function AllPairs(): (s: set<Pair>)
    ensures forall p: Pair :: p in s <==> InRange(p)
  {
    set f: Family, i: nat, j: nat | i < MPTCP_MAX_ADDR && j < MPTCP_MAX_ADDR :: Pair(f, i, j)
  }

  /** `mptcp_v4_subflows`, `mptcp_v6_subflows`: the further calls that a pair gets when several subflows are wanted. */
  function Further(numSubflows: int): nat {
    if numSubflows <= 1 then 0 else numSubflows - 1
  }

  /** The number of calls of `mptcp_init4_subsockets` or `mptcp_init6_subsockets` that one attempt at a pair makes. */
  function Calls(unreachable: bool, numSubflows: int): nat {
    1 + if unreachable then 0 else Further(numSubflows)
  }

  function Repeat(p: Pair, n: nat): (s: seq<Pair>)
    ensures |s| == n
  {
    seq(n, _ => p)
  }

  lemma {:induction false} RepeatCount(p: Pair, n: nat)
    ensures multiset(Repeat(p, n)) == multiset{}[p := n]
  {
    if n > 0 {
      RepeatCount(p, n - 1);
      assert Repeat(p, n) == Repeat(p, n - 1) + [p];
    }
  }

  lemma LogGrows(log: seq<Pair>, p: Pair, n: nat, q: Pair)
    ensures multiset(log + Repeat(p, n))[q] == multiset(log)[q] + (if q == p then n else 0)
  {
    RepeatCount(p, n);
  }

  /** Each pair of `tried` has its calls in the log, and no other pair has any. */
  ghost predicate Logged(log: seq<Pair>, tried: set<Pair>, unreachable: Pair -> bool, numSubflows: int) {
    forall p :: multiset(log)[p] == if p in tried then Calls(unreachable(p), numSubflows) else 0
  }

  lemma LoggedOneMore(log: seq<Pair>, tried: set<Pair>, unreachable: Pair -> bool, numSubflows: int, p: Pair)
    requires Logged(log, tried, unreachable, numSubflows) && p !in tried
    ensures Logged(log + Repeat(p, Calls(unreachable(p), numSubflows)), tried + {p}, unreachable, numSubflows)
  {
    hide Repeat, Calls;
    var calls := Calls(unreachable(p), numSubflows);
    forall q
      ensures multiset(log + Repeat(p, calls))[q] == multiset(log)[q] + (if q == p then calls else 0)
    {
      LogGrows(log, p, calls, q);
    }
  }

  /** One call for a pair that is unreachable, else as many as subflows are wanted, and at least one. */
  lemma LoggedMeans(log: seq<Pair>, tried: set<Pair>, unreachable: Pair -> bool, numSubflows: int, p: Pair)
    requires Logged(log, tried, unreachable, numSubflows)
    ensures p !in tried ==> p !in log
    ensures p in tried && unreachable(p) ==> multiset(log)[p] == 1
    ensures p in tried && !unreachable(p) ==> multiset(log)[p] == if numSubflows > 1 then numSubflows else 1
  {
    assert p in log <==> multiset(log)[p] > 0;
  }

  lemma NothingTried(unreachable: Pair -> bool, numSubflows: int)
    ensures Logged([], {}, unreachable, numSubflows) && !AnyOf({}, unreachable)
  {
  }

  ghost predicate AnyOf(tried: set<Pair>, unreachable: Pair -> bool) {
    exists q :: q in tried && unreachable(q)
  }

  function Failed(tried: set<Pair>, unreachable: Pair -> bool): set<Pair> {
    set p | p in tried && unreachable(p)
  }

  lemma NoneFailed(tried: set<Pair>, unreachable: Pair -> bool)
    ensures !AnyOf(tried, unreachable) ==> Failed(tried, unreachable) == {}
  {
  }

  lemma AnyOneMore(tried: set<Pair>, unreachable: Pair -> bool, p: Pair)
    ensures AnyOf(tried + {p}, unreachable) <==> AnyOf(tried, unreachable) || unreachable(p)
  {
    if AnyOf(tried, unreachable) {
      var q :| q in tried && unreachable(q);
      assert q in tried + {p};
    }
  }

  /** There was a master socket at one of the first `turns` turns. */
  ghost predicate HadMaster(master: nat -> bool, turns: nat) {
    exists k :: 0 <= k < turns && master(k)
  }

  lemma HadMasterNext(master: nat -> bool, turns: nat)
    ensures HadMaster(master, turns + 1) <==> HadMaster(master, turns) || master(turns)
    ensures !HadMaster(master, 0)
  {
    if HadMaster(master, turns) {
      var k :| 0 <= k < turns && master(k);
      assert 0 <= k < turns + 1;
    }
  }

  /** `~rem->bitfield & loc_bits` */
  function Remaining(bitfield: Bits, loc: Bits): Bits {
    seq(MPTCP_MAX_ADDR, j requires 0 <= j < MPTCP_MAX_ADDR => loc[j] && !bitfield[j])
  }

  function Not(bits: Bits): Bits {
    seq(MPTCP_MAX_ADDR, j requires 0 <= j < MPTCP_MAX_ADDR => !bits[j])
  }

  predicate Any(bits: Bits) {
    exists j :: 0 <= j < MPTCP_MAX_ADDR && bits[j]
  }

  lemma AnyIsFree(bits: Bits)
    requires Any(bits)
    ensures !Full(Not(bits))
  {
    var j :| 0 <= j < MPTCP_MAX_ADDR && bits[j];
    assert !Not(bits)[j];
  }

  class FullmeshPriv {
    const rem4: array<Rem>
    const rem6: array<Rem>
    var remBits4: Bits
    var remBits6: Bits
    var firstPair: bool
    const numSubflows: int

    ghost predicate Valid()
    {
      rem4.Length == MPTCP_MAX_ADDR && rem6.Length == MPTCP_MAX_ADDR && rem4 != rem6
    }

    constructor (numSubflows: int)
      ensures Valid() && fresh(rem4) && fresh(rem6) && this.numSubflows == numSubflows && !firstPair
    {
      var none := seq(MPTCP_MAX_ADDR, _ => false);
      rem4 := new Rem[MPTCP_MAX_ADDR](_ => Rem(0, 0, 0, none, none));
      rem6 := new Rem[MPTCP_MAX_ADDR](_ => Rem(0, 0, 0, none, none));
      remBits4, remBits6, firstPair := none, none, false;
      this.numSubflows := numSubflows;
    }

    function Rems(f: Family): array<Rem> {
      if f == V4 then rem4 else rem6
    }

    function RemBits(f: Family): Bits
      reads this`remBits4, this`remBits6
    {
      if f == V4 then remBits4 else remBits6
    }

    predicate Marked(p: Pair)
      reads rem4, rem6
      requires Valid() && InRange(p)
    {
      Rems(p.family)[p.remote].bitfield[p.local]
    }

    predicate Pending(p: Pair)
      reads rem4, rem6
      requires Valid() && InRange(p)
    {
      Rems(p.family)[p.remote].retry[p.local]
    }

    /** The pairs of a used remote and a used local address not yet marked. */
    ghost function Missing(loc: Locals): set<Pair>
      reads this`remBits4, this`remBits6, rem4, rem6
      requires Valid()
    {
      set p | p in AllPairs() && RemBits(p.family)[p.remote] && loc.Of(p.family)[p.local] && !Marked(p)
    }

    ghost function ToRetry(): set<Pair>
      reads this`remBits4, this`remBits6, rem4, rem6
      requires Valid()
    {
      set p | p in AllPairs() && RemBits(p.family)[p.remote] && Pending(p)
    }

    /** The first missing pair of a family in the order of the two bit loops. */
    method FindMissingOf(f: Family, loc: Locals) returns (found: bool, p: Pair)
      requires Valid()
      ensures found ==> p in Missing(loc) && p.family == f
      ensures !found ==> forall q :: q in Missing(loc) ==> q.family != f
    {
      for i := 0 to MPTCP_MAX_ADDR
        invariant forall q :: q in Missing(loc) && q.family == f ==> q.remote >= i
      {
        var remaining := Remaining(Rems(f)[i].bitfield, loc.Of(f));
        assert forall q :: q in Missing(loc) && q.family == f && q.remote == i ==> remaining[q.local];
        if RemBits(f)[i] && Any(remaining) {
          AnyIsFree(remaining);
          var j := FindFreeIndex(Not(remaining), 0);
          p := Pair(f, i, j);
          assert p in Missing(loc);
          return true, p;
        }
      }
      found, p := false, Pair(f, 0, 0);
    }

    /** The further subflows of the first pair, once there is a master socket. */
    method FirstPairSubflows(master: bool) returns (calls: nat)
      modifies this`firstPair
      ensures firstPair == (old(firstPair) || master)
      ensures calls == if firstPair && !old(firstPair) then Further(numSubflows) else 0
    {
      calls := 0;
      if !firstPair && master {
        calls, firstPair := Further(numSubflows), true;
      }
    }

    /**
     The IPv4 loop, then the IPv6 loop.  In front of the second one the further subflows of the first pair come up
     again, over IPv6; the test in front of the first has already taken care of them.
     */
    method FindMissing(loc: Locals, master: bool) returns (found: bool, p: Pair, calls6: nat)
      requires Valid() && (master ==> firstPair)
      modifies this`firstPair
      ensures found <==> Missing(loc) != {}
      ensures found ==> p in Missing(loc)
      ensures calls6 == 0 && firstPair == old(firstPair)
    {
      calls6 := 0;
      found, p := FindMissingOf(V4, loc);
      if !found {
        calls6 := FirstPairSubflows(master);
        found, p := FindMissingOf(V6, loc);
      }
    }

    method FindRetryOf(f: Family) returns (found: bool, p: Pair)
      requires Valid()
      ensures found ==> p in ToRetry() && p.family == f
      ensures !found ==> forall q :: q in ToRetry() ==> q.family != f
    {
      for i := 0 to MPTCP_MAX_ADDR
        invariant forall q :: q in ToRetry() && q.family == f ==> q.remote >= i
      {
        var retry := Rems(f)[i].retry;
        assert forall q :: q in ToRetry() && q.family == f && q.remote == i ==> retry[q.local];
        if RemBits(f)[i] && Any(retry) {
          AnyIsFree(retry);
          var j := FindFreeIndex(Not(retry), 0);
          p := Pair(f, i, j);
          assert p in ToRetry();
          return true, p;
        }
      }
      found, p := false, Pair(f, 0, 0);
    }

    method FindRetry() returns (found: bool, p: Pair)
      requires Valid()
      ensures found <==> ToRetry() != {}
      ensures found ==> p in ToRetry()
    {
      hide ToRetry;
      found, p := FindRetryOf(V4);
      if !found {
        found, p := FindRetryOf(V6);
      }
    }

    /** Sets the bit of a pair, and its retry bit to `again`. */
    method Mark(p: Pair, again: bool)
      requires Valid() && InRange(p)
      modifies rem4, rem6
      ensures forall q :: InRange(q) ==> Marked(q) == (old(Marked(q)) || q == p)
      ensures forall q :: InRange(q) ==> Pending(q) == if q == p then again else old(Pending(q))
    {
      var r := Rems(p.family)[p.remote];
      Rems(p.family)[p.remote] := r.(bitfield := r.bitfield[p.local := true], retry := r.retry[p.local := again]);
    }

    /** Up to the next `goto next_subflow`: a missing pair is marked before it is tried. */
    method TryOne(loc: Locals, unreachable: Pair -> bool, master: bool) returns (found: bool, p: Pair, calls6: nat)
      requires Valid() && (master ==> firstPair)
      modifies this`firstPair, rem4, rem6
      ensures calls6 == 0 && firstPair == old(firstPair)
      ensures found <==> old(Missing(loc)) != {}
      ensures found ==> p in old(Missing(loc))
      ensures Missing(loc) == old(Missing(loc)) - (if found then {p} else {})
      ensures forall q :: InRange(q) ==> Marked(q) == (old(Marked(q)) || (found && q == p))
      ensures forall q :: InRange(q) ==> Pending(q) == (old(Pending(q)) || (found && q == p && unreachable(p)))
    {
      hide Marked, Pending;
      found, p, calls6 := FindMissing(loc, master);
      if found {
        ghost var before := Missing(loc);
        Mark(p, unreachable(p) || Pending(p));
        assert forall q :: q in Missing(loc) <==> q in before && q != p;
      }
    }

    /** The part of the retry worker up to the next `goto next_subflow`. */
    method RetryOne() returns (found: bool, p: Pair)
      requires Valid()
      modifies rem4, rem6
      ensures found <==> old(ToRetry()) != {}
      ensures found ==> p in old(ToRetry())
      ensures ToRetry() == old(ToRetry()) - (if found then {p} else {})
      ensures forall q :: InRange(q) ==> Marked(q) == (old(Marked(q)) || (found && q == p))
    {
      hide Marked, Pending;
      found, p := FindRetry();
      if found {
        ghost var before := ToRetry();
        Mark(p, false);
        assert forall q :: q in ToRetry() <==> q in before && q != p;
      }
    }

    /**
     `create_subflow_worker` on fixed address sets.  `goesOn` says at which turns the connection is still alive and
     established, `master` at which there is a master socket.  Whether or not it is cut short, the pairs tried are
     missing ones, each tried once and marked; when it is not cut short, nothing is missing any more.  The further
     subflows of the first pair, `extra`, are opened once in the life of the connection.
     */
    method CreateSubflows(loc: Locals, unreachable: Pair -> bool, goesOn: nat -> bool, master: nat -> bool)
      returns (log: seq<Pair>, extra: nat, retry: bool, finished: bool, turns: nat, ghost tried: set<Pair>)
      requires Valid()
      modifies this`firstPair, rem4, rem6
      ensures Valid() && tried <= old(Missing(loc)) && Missing(loc) == old(Missing(loc)) - tried
      ensures finished ==> Missing(loc) == {}
      ensures (forall k :: goesOn(k)) ==> finished
      ensures Logged(log, tried, unreachable, numSubflows) && retry == AnyOf(tried, unreachable)
      ensures forall q :: InRange(q) ==> Marked(q) == (old(Marked(q)) || q in tried)
      ensures forall q :: InRange(q) ==> Pending(q) == (old(Pending(q)) || (q in tried && unreachable(q)))
      ensures firstPair == (old(firstPair) || HadMaster(master, turns))
      ensures extra == if firstPair && !old(firstPair) then Further(numSubflows) else 0
    {
      hide Missing, Marked, Pending, Repeat, Calls, Logged, AnyOf, HadMaster;
      log, retry, finished, tried := [], false, false, {};
      ghost var all := Missing(loc);
      HadMasterNext(master, 0);
      extra := FirstPairSubflows(master(0));
      turns := 1;
      NothingTried(unreachable, numSubflows);
      while goesOn(turns - 1)
        invariant Valid() && tried <= all && Missing(loc) == all - tried && turns >= 1
        invariant Logged(log, tried, unreachable, numSubflows) && retry == AnyOf(tried, unreachable)
        invariant forall q :: InRange(q) ==> Marked(q) == (old(Marked(q)) || q in tried)
        invariant forall q :: InRange(q) ==> Pending(q) == (old(Pending(q)) || (q in tried && unreachable(q)))
        invariant firstPair == (old(firstPair) || HadMaster(master, turns))
        invariant master(turns - 1) ==> firstPair
        invariant extra == if firstPair && !old(firstPair) then Further(numSubflows) else 0
        decreases Missing(loc)
      {
        ghost var left := Missing(loc);
        var found, p, _ := TryOne(loc, unreachable, master(turns - 1));
        if !found {
          finished := true;
          return;
        }
        assert p !in Missing(loc) && p in left;
        LoggedOneMore(log, tried, unreachable, numSubflows, p);
        AnyOneMore(tried, unreachable, p);
        tried := tried + {p};
        log := log + Repeat(p, Calls(unreachable(p), numSubflows));
        retry := retry || unreachable(p);
        HadMasterNext(master, turns);
        var more := FirstPairSubflows(master(turns));
        extra, turns := extra + more, turns + 1;
      }
    }

    /** `retry_subflow_worker`: every pair to be retried is tried once more, whatever comes of it. */
    method RetrySubflows(alive: nat -> bool) returns (log: seq<Pair>, finished: bool, ghost tried: set<Pair>)
      requires Valid()
      modifies rem4, rem6
      ensures Valid() && tried <= old(ToRetry()) && ToRetry() == old(ToRetry()) - tried
      ensures finished ==> ToRetry() == {}
      ensures (forall k :: alive(k)) ==> finished
      ensures Logged(log, tried, _ => false, numSubflows)
      ensures forall q :: InRange(q) ==> Marked(q) == (old(Marked(q)) || q in tried)
    {
      hide ToRetry, Marked, Repeat, Calls, Logged;
      log, finished, tried := [], false, {};
      ghost var all := ToRetry();
      var never := (p: Pair) => false;
      NothingTried(never, numSubflows);
      var iter := 0;
      while alive(iter)
        invariant Valid() && tried <= all && ToRetry() == all - tried && iter >= 0
        invariant Logged(log, tried, never, numSubflows)
        invariant forall q :: InRange(q) ==> Marked(q) == (old(Marked(q)) || q in tried)
        decreases ToRetry()
      {
        ghost var left := ToRetry();
        var found, p := RetryOne();
        if !found {
          finished := true;
          return;
        }
        assert p !in ToRetry() && p in left;
        LoggedOneMore(log, tried, never, numSubflows, p);
        tried := tried + {p};
        log := log + Repeat(p, Calls(false, numSubflows));
        iter := iter + 1;
      }
    }

    /**
     Both workers on fixed address sets and a lasting connection: every missing pair is tried once.  If one of them was
     unreachable, the second worker tries those once more, with the pairs that already waited for it; no other pair is
     tried at all.
     */
    method CreateAndRetry(loc: Locals, unreachable: Pair -> bool, master: nat -> bool)
      returns (first: seq<Pair>, second: seq<Pair>, extra: nat)
      requires Valid()
      modifies this`firstPair, rem4, rem6
      ensures extra == if firstPair && !old(firstPair) then Further(numSubflows) else 0
      ensures Valid() && Missing(loc) == {}
      ensures ToRetry() == if AnyOf(old(Missing(loc)), unreachable) then {} else old(ToRetry())
      ensures Logged(first, old(Missing(loc)), unreachable, numSubflows)
      ensures Logged(second,
                     if AnyOf(old(Missing(loc)), unreachable)
                     then old(ToRetry()) + Failed(old(Missing(loc)), unreachable) else {},
                     _ => false, numSubflows)
    {
      hide Missing, ToRetry, Marked, Pending, Calls, Logged, AnyOf, HadMaster;
      var retry, finished;
      ghost var all, waiting, again := Missing(loc), ToRetry(), {};
      ghost var tried;
      var always := (k: nat) => true;
      assert forall k :: always(k);
      MissingMeans(loc);
      RetryMeans();
      var turns;
      first, extra, retry, finished, turns, tried := CreateSubflows(loc, unreachable, always, master);
      second := [];
      NothingTried(_ => false, numSubflows);
      assert tried == tried + (all - tried) == all;
      RetryMeans();
      RetryAfter(waiting, all, unreachable);
      NoneFailed(all, unreachable);
      AllMarked(loc);
      if retry {
        second, finished, again := RetrySubflows(always);
        assert again == again + ((waiting + Failed(all, unreachable)) - again) == waiting + Failed(all, unreachable);
      }
      AllMarked(loc);
    }

    lemma MissingMeans(loc: Locals)
      requires Valid()
      ensures forall q :: q in Missing(loc) ==> InRange(q) && RemBits(q.family)[q.remote]
    {
    }

    lemma AllMarked(loc: Locals)
      requires Valid()
      ensures Missing(loc) == {} <==>
              forall q :: InRange(q) && RemBits(q.family)[q.remote] && loc.Of(q.family)[q.local] ==> Marked(q)
    {
      assert forall q :: InRange(q) && RemBits(q.family)[q.remote] && loc.Of(q.family)[q.local] && !Marked(q) ==>
          q in Missing(loc);
    }

    /** What waits for a retry. */
    lemma RetryMeans()
      requires Valid()
      ensures forall q :: q in ToRetry() <==> InRange(q) && RemBits(q.family)[q.remote] && Pending(q)
    {
    }

    lemma RetryAfter(waiting: set<Pair>, all: set<Pair>, unreachable: Pair -> bool)
      requires Valid()
      requires forall q :: q in ToRetry() <==> InRange(q) && RemBits(q.family)[q.remote] && Pending(q)
      requires forall q :: q in waiting ==> InRange(q) && RemBits(q.family)[q.remote]
      requires forall q :: InRange(q) && RemBits(q.family)[q.remote] ==>
                 Pending(q) == (q in waiting || (q in all && unreachable(q)))
      requires forall q :: q in all ==> InRange(q) && RemBits(q.family)[q.remote]
      ensures ToRetry() == waiting + Failed(all, unreachable)
    {
    }
  }
}
