/**
 The address table of the fullmesh path manager and its queue of address events, in which a new event for an
 address replaces or updates the one still waiting.
 */
module AddressEvents {
  import opened Common

  const MPTCP_MAX_ADDR := 8

  datatype Family = V4 | V6
  datatype Addr = Addr(family: Family, bytes: nat)
  datatype Code = Add | Mod | Del
  datatype Event = Event(addr: Addr, ifIdx: nat, lowPrio: bool, code: Code)

  datatype Loc = Loc(bytes: nat, lowPrio: bool, ifIdx: nat, id: nat)
  type Bits = s: seq<bool> | |s| == MPTCP_MAX_ADDR witness seq(MPTCP_MAX_ADDR, _ => false)

  /** One family's part of `struct mptcp_loc_addr`. */
  datatype Table = Table(bits: Bits, slots: seq<Loc>, next: nat)

  predicate Shape(t: Table) {
    |t.slots| == MPTCP_MAX_ADDR && t.next <= MPTCP_MAX_ADDR
  }

  predicate Full(bits: Bits) {
    forall k :: 0 <= k < MPTCP_MAX_ADDR ==> bits[k]
  }

  /** `__mptcp_find_free_index`: the first clear bit at or after `base`, cyclically; -1 when there is none. */
  method FindFreeIndex(bits: Bits, base: nat) returns (r: int)
    requires base <= MPTCP_MAX_ADDR
    ensures -1 <= r < MPTCP_MAX_ADDR
    ensures r == -1 <==> Full(bits)
    ensures r >= 0 ==> !bits[r]
    ensures r >= base ==> forall k :: base <= k < r ==> bits[k]
    ensures 0 <= r < base ==> forall k :: 0 <= k < r || base <= k < MPTCP_MAX_ADDR ==> bits[k]
    decreases base
  {
    if Full(bits) {
      return -1;
    }
    r := base;
    while r < MPTCP_MAX_ADDR && bits[r]
      invariant base <= r <= MPTCP_MAX_ADDR
      invariant forall k :: base <= k < r ==> bits[k]
    {
      r := r + 1;
    }
    if r >= MPTCP_MAX_ADDR {
      r := FindFreeIndex(bits, 0);
    }
  }

  predicate Holds(t: Table, i: int, bytes: nat)
    requires Shape(t)
  {
    0 <= i < MPTCP_MAX_ADDR && t.bits[i] && t.slots[i].bytes == bytes
  }

  ghost predicate Present(t: Table, bytes: nat)
    requires Shape(t)
  {
    exists i :: Holds(t, i, bytes)
  }

  /** No address in two slots, and each with the interface the system has it on. */
  ghost predicate TableOk(t: Table, iface: nat -> nat) {
    && Shape(t)
    && (forall i, j, b :: Holds(t, i, b) && Holds(t, j, b) ==> i == j)
    && (forall i, b :: Holds(t, i, b) ==> t.slots[i].ifIdx == iface(b))
  }

  /** What the table says about an address: its priority, or that it is not there. */
  ghost function Prio(t: Table, bytes: nat): Option<bool>
    requires Shape(t)
  {
    if Present(t, bytes) then
      var i :| Holds(t, i, bytes);
      Some(t.slots[i].lowPrio)
    else None
  }

  lemma PrioAt(t: Table, iface: nat -> nat, i: nat, bytes: nat)
    requires TableOk(t, iface) && Holds(t, i, bytes)
    ensures Prio(t, bytes) == Some(t.slots[i].lowPrio)
  {
  }

  /** `mptcp_find_address` */
  method FindAddress(t: Table, bytes: nat, ifIdx: nat, ghost iface: nat -> nat) returns (r: int)
    requires TableOk(t, iface) && (ifIdx == iface(bytes) || ifIdx == 0)
    ensures -1 <= r < MPTCP_MAX_ADDR
    ensures r == -1 <==> !Present(t, bytes)
    ensures r >= 0 ==> Holds(t, r, bytes)
  {
    for i := 0 to MPTCP_MAX_ADDR
      invariant forall k :: 0 <= k < i ==> !Holds(t, k, bytes)
    {
      if t.bits[i] {
        if (ifIdx == 0 || t.slots[i].ifIdx == ifIdx) && t.slots[i].bytes == bytes {
          assert Holds(t, i, bytes);
          return i;
        }
        assert Holds(t, i, t.slots[i].bytes);
      }
    }
    return -1;
  }

  /** What one event leaves of an address. */
  function Result(e: Event): Option<bool> {
    if e.code == Del then None else Some(e.lowPrio)
  }

  /** What a list of events leaves of an address: the last event about it decides. */
  function After(log: seq<Event>, a: Addr, start: Option<bool>): Option<bool> {
    if log == [] then start
    else
      var last := log[|log| - 1];
      if last.addr == a then Result(last) else After(log[..|log| - 1], a, start)
  }

  lemma {:induction false} LastEventWins(log: seq<Event>, k: nat, a: Addr, start: Option<bool>)
    requires k < |log| && log[k].addr == a
    requires forall i :: k < i < |log| ==> log[i].addr != a
    ensures After(log, a, start) == if log[k].code == Del then None else Some(log[k].lowPrio)
  {
    if k < |log| - 1 {
      LastEventWins(log[..|log| - 1], k, a, start);
    }
  }

  lemma {:induction false} NoEventKeeps(log: seq<Event>, a: Addr, start: Option<bool>)
    requires forall i :: 0 <= i < |log| ==> log[i].addr != a
    ensures After(log, a, start) == start
  {
    if log != [] {
      NoEventKeeps(log[..|log| - 1], a, start);
    }
  }

  lemma {:induction false} AfterPop(log: seq<Event>, a: Addr, start: Option<bool>)
    requires log != []
    ensures After(log, a, start) == After(log[1..], a, if log[0].addr == a then Result(log[0]) else start)
  {
    var rest := log[1..];
    if rest != [] {
      assert log[..|log| - 1][1..] == rest[..|rest| - 1];
      AfterPop(log[..|log| - 1], a, start);
    }
  }

  ghost predicate Distinct(q: seq<Event>) {
    forall i, j :: 0 <= i < j < |q| ==> q[i].addr != q[j].addr
  }

  /** Taking out an event says nothing about other addresses. */
  lemma {:induction false} AfterRemove(q: seq<Event>, k: nat, a: Addr, start: Option<bool>)
    requires k < |q| && q[k].addr != a
    ensures After(q[..k] + q[k + 1..], a, start) == After(q, a, start)
  {
    var r := q[..k] + q[k + 1..];
    if k == |q| - 1 {
      assert r == q[..k];
    } else {
      assert r[..|r| - 1] == q[..|q| - 1][..k] + q[..|q| - 1][k + 1..];
      AfterRemove(q[..|q| - 1], k, a, start);
    }
  }

  /** Rewriting an event in place acts like the event at the end, when no later one is about the same address. */
  lemma {:induction false} AfterUpdate(q: seq<Event>, k: nat, e: Event, a: Addr, start: Option<bool>)
    requires k < |q| && Distinct(q) && q[k].addr == e.addr
    ensures After(q[k := e], a, start) == if a == e.addr then Result(e) else After(q, a, start)
  {
    var r := q[k := e];
    if a == e.addr {
      LastEventWins(r, k, a, start);
    } else if k < |q| - 1 {
      assert r[..|r| - 1] == q[..|q| - 1][k := e];
      AfterUpdate(q[..|q| - 1], k, e, a, start);
    } else {
      assert r[..k] == q[..k];
    }
  }

  /** Eight distinct addresses fill the table: a new one of a set of at most eight finds a free slot. */
  lemma RoomForOneMore(t: Table, iface: nat -> nat, all: set<nat>, bytes: nat)
    requires TableOk(t, iface) && |all| <= MPTCP_MAX_ADDR && bytes in all && !Present(t, bytes)
    requires forall i, b :: Holds(t, i, b) ==> b in all
    ensures !Full(t.bits)
  {
    if Full(t.bits) {
      var held := SlotsHeld(t, iface, MPTCP_MAX_ADDR);
      assert bytes !in held;
      assert forall b :: b in held ==> b in all;
      SubsetSize(held + {bytes}, all);
      assert false;
    }
  }

  ghost function SlotsHeld(t: Table, iface: nat -> nat, n: nat): (s: set<nat>)
    requires TableOk(t, iface) && Full(t.bits) && n <= MPTCP_MAX_ADDR
    ensures |s| == n && forall b :: b in s <==> exists i :: 0 <= i < n && Holds(t, i, b)
  {
    if n == 0 then {}
    else
      var s := SlotsHeld(t, iface, n - 1);
      assert Holds(t, n - 1, t.slots[n - 1].bytes);
      s + {t.slots[n - 1].bytes}
  }

  /** Writing an event into slot `i`: a free slot for a new address, or the slot of that address. */
  function Stored(t: Table, i: nat, e: Event): Table
    requires Shape(t) && i < MPTCP_MAX_ADDR
  {
    var id := i + if e.addr.family == V4 then 1 else MPTCP_MAX_ADDR;
    t.(slots := t.slots[i := Loc(e.addr.bytes, e.lowPrio, e.ifIdx, id)],
       bits := t.bits[i := true],
       next := if t.bits[i] then t.next else i + 1)
  }

  lemma StoredOk(t: Table, iface: nat -> nat, i: nat, e: Event, b: nat)
    requires TableOk(t, iface) && i < MPTCP_MAX_ADDR && e.ifIdx == iface(e.addr.bytes)
    requires Holds(t, i, e.addr.bytes) || (!t.bits[i] && !Present(t, e.addr.bytes))
    ensures TableOk(Stored(t, i, e), iface)
    ensures Prio(Stored(t, i, e), b) == if b == e.addr.bytes then Some(e.lowPrio) else Prio(t, b)
    ensures Present(Stored(t, i, e), b) ==> b == e.addr.bytes || Present(t, b)
  {
    var u := Stored(t, i, e);
    assert forall k, c :: Holds(u, k, c) && k != i ==> Holds(t, k, c);
    assert Holds(u, i, e.addr.bytes);
    if b != e.addr.bytes && Present(t, b) {
      var k :| Holds(t, k, b);
      assert Holds(u, k, b);
      PrioAt(t, iface, k, b);
    }
  }

  lemma ClearedOk(t: Table, iface: nat -> nat, i: nat, bytes: nat, b: nat)
    requires TableOk(t, iface) && Holds(t, i, bytes)
    ensures var u := t.(bits := t.bits[i := false]);
            && TableOk(u, iface)
            && Prio(u, b) == (if b == bytes then None else Prio(t, b))
            && (Present(u, b) ==> Present(t, b))
  {
    var u := t.(bits := t.bits[i := false]);
    assert forall k, c :: Holds(u, k, c) ==> Holds(t, k, c) && k != i;
    if b != bytes && Present(t, b) {
      var k :| Holds(t, k, b);
      assert Holds(u, k, b);
      PrioAt(t, iface, k, b);
    }
  }

  /**
   What `mptcp_address_worker` makes of its copy of the table: the event is lost only when it brings a new address
   and the table is full; otherwise the table follows it, and `success` tells whether anything changed.
   */
  method FollowEvent(local: Table, e: Event, ghost iface: nat -> nat)
    returns (copy: Table, success: bool, dropped: bool, code: Code)
    requires TableOk(local, iface) && e.ifIdx == iface(e.addr.bytes)
    ensures TableOk(copy, iface)
    ensures dropped == (e.code != Del && !Present(local, e.addr.bytes) && Full(local.bits))
    ensures forall b :: Prio(copy, b) == if b == e.addr.bytes && !dropped then Result(e) else Prio(local, b)
    ensures success == (Prio(copy, e.addr.bytes) != Prio(local, e.addr.bytes))
    ensures forall b :: Present(copy, b) ==> Present(local, b) || b == e.addr.bytes
    ensures code == if success && !Present(local, e.addr.bytes) then Add else e.code
  {
    copy, success, dropped, code := local, false, false, e.code;
    var i := FindAddress(local, e.addr.bytes, e.ifIdx, iface);
    if i >= 0 {
      PrioAt(local, iface, i, e.addr.bytes);
    }
    if e.code == Del {
      if i < 0 {
        return;
      }
      forall b {
        ClearedOk(local, iface, i, e.addr.bytes, b);
      }
      copy := local.(bits := local.bits[i := false]);
    } else {
      if i < 0 {
        i := FindFreeIndex(local.bits, local.next);
        if i < 0 {
          dropped := true;
          return;
        }
        code := Add;
      } else if e.lowPrio == local.slots[i].lowPrio {
        return;
      }
      forall b {
        StoredOk(local, iface, i, e, b);
      }
      copy := Stored(local, i, e);
    }
    success := true;
  }

  /** A step of a run: the system reports an address event, or the worker takes one from the queue. */
  datatype Act = Notify(event: Event) | Work

  function Notified(acts: seq<Act>): seq<Event> {
    if acts == [] then []
    else
      var last := acts[|acts| - 1];
      Notified(acts[..|acts| - 1]) + (if last.Notify? then [last.event] else [])
  }

  lemma NotifiedStep(acts: seq<Act>, n: nat, a: Addr)
    requires n < |acts|
    ensures After(Notified(acts[..n + 1]), a, None)
         == if acts[n].Notify? && acts[n].event.addr == a then Result(acts[n].event)
            else After(Notified(acts[..n]), a, None)
  {
    assert acts[..n + 1][..n] == acts[..n];
    var log := Notified(acts[..n]);
    if acts[n].Notify? {
      assert (log + [acts[n].event])[..|log|] == log;
    } else {
      assert log + [] == log;
    }
  }

  /** At most eight addresses of each family ever occur, each always on its own interface. */
  ghost predicate Known(e: Event, iface4: nat -> nat, iface6: nat -> nat, all4: set<nat>, all6: set<nat>) {
    if e.addr.family == V4 then e.ifIdx == iface4(e.addr.bytes) && e.addr.bytes in all4
    else e.ifIdx == iface6(e.addr.bytes) && e.addr.bytes in all6
  }

  /** The path manager's state of one network namespace. */
  class FmNs {
    var events: seq<Event>
    var local4: Table
    var local6: Table
    ghost const iface4: nat -> nat
    ghost const iface6: nat -> nat

    ghost function Iface(f: Family): nat -> nat {
      if f == V4 then iface4 else iface6
    }

    function Local(f: Family): Table
      reads this
    {
      if f == V4 then local4 else local6
    }

    ghost predicate EventOk(e: Event) {
      e.ifIdx == Iface(e.addr.family)(e.addr.bytes)
    }

    /** In every reachable state: no address in two slots, and no address with two events waiting. */
    ghost predicate Valid()
      reads this
    {
      && TableOk(local4, iface4) && TableOk(local6, iface6)
      && Distinct(events) && forall i :: 0 <= i < |events| ==> EventOk(events[i])
    }

    /** What the table will say about an address once the queue is drained. */
    ghost function Settled(a: Addr): Option<bool>
      reads this
      requires Valid()
    {
      After(events, a, Prio(Local(a.family), a.bytes))
    }

    constructor (ghost iface4: nat -> nat, ghost iface6: nat -> nat)
      ensures Valid() && events == [] && forall a :: Settled(a) == None
      ensures this.iface4 == iface4 && this.iface6 == iface6
      ensures forall b :: !Present(local4, b) && !Present(local6, b)
    {
      var empty := Table(seq(MPTCP_MAX_ADDR, _ => false), seq(MPTCP_MAX_ADDR, _ => Loc(0, false, 0, 0)), 0);
      events, local4, local6 := [], empty, empty;
      this.iface4, this.iface6 := iface4, iface6;
      assert forall i, b :: !Holds(empty, i, b);
    }

    /** `lookup_similar_event` */
    method LookupSimilar(a: Addr) returns (k: nat)
      requires Valid()
      ensures k <= |events| && (k < |events| ==> events[k].addr == a)
      ensures k == |events| ==> forall i :: 0 <= i < |events| ==> events[i].addr != a
    {
      k := 0;
      while k < |events| && events[k].addr != a
        invariant k <= |events| && forall i :: 0 <= i < k ==> events[i].addr != a
      {
        k := k + 1;
      }
    }

    /** `add_pm_event`: whatever still waits, the event decides about its address and about no other. */
    method AddPmEvent(e: Event)
      requires Valid() && EventOk(e)
      modifies this`events
      ensures Valid()
      ensures forall a :: Settled(a) == if a == e.addr then Result(e) else old(Settled(a))
      ensures forall i :: 0 <= i < |events| ==> events[i].addr == e.addr || events[i] in old(events)
      ensures (forall i :: 0 <= i < |old(events)| ==> old(events)[i].addr != e.addr) ==> events == old(events) + [e]
    {
      var k := LookupSimilar(e.addr);
      ghost var q := events;
      if k < |events| {
        if e.code == Del {
          events := events[..k] + events[k + 1..];
          forall a: Addr, start | a != e.addr ensures After(events, a, start) == After(q, a, start) {
            AfterRemove(q, k, a, start);
          }
        } else {
          events := events[k := events[k].(lowPrio := e.lowPrio, code := e.code)];
          forall a: Addr, start
            ensures After(events, a, start) == if a == e.addr then Result(e) else After(q, a, start)
          {
            AfterUpdate(q, k, q[k].(lowPrio := e.lowPrio, code := e.code), a, start);
          }
          return;
        }
      }
      ghost var r := events;
      events := events + [e];
      assert events[..|r|] == r;
    }

    /**
     One turn of `mptcp_address_worker`.  The event is lost only when it brings a new address and the table is
     full; otherwise the table follows it, and the sockets hear of it exactly when the table changed.
     */
    method HandleEvent() returns (success: bool, dropped: bool, done: Event)
      requires Valid() && events != []
      modifies this
      ensures Valid() && events == old(events)[1..]
      ensures done.addr == old(events)[0].addr
      ensures dropped == (&& old(events)[0].code != Del
                          && !old(Present(Local(done.addr.family), done.addr.bytes))
                          && Full(old(Local(done.addr.family)).bits))
      ensures forall f, b :: Prio(Local(f), b) ==
                if Addr(f, b) == done.addr && !dropped then Result(old(events)[0]) else old(Prio(Local(f), b))
      ensures success == (Prio(Local(done.addr.family), done.addr.bytes)
                          != old(Prio(Local(done.addr.family), done.addr.bytes)))
      ensures !dropped ==> forall a :: Settled(a) == old(Settled(a))
      ensures forall f, b :: Present(Local(f), b) ==> old(Present(Local(f), b)) || Addr(f, b) == done.addr
    {
      hide After, Prio, TableOk;
      var e := events[0];
      ghost var q := events;
      forall a: Addr, start ensures After(q, a, start) == After(q[1..], a, if e.addr == a then Result(e) else start) {
        AfterPop(q, a, start);
      }
      events := events[1..];
      var local, code;
      local, success, dropped, code := FollowEvent(Local(e.addr.family), e, Iface(e.addr.family));
      done := e.(code := code);
      if success {
        if e.addr.family == V4 {
          local4 := local;
        } else {
          local6 := local;
        }
      }
    }

    /** Only known addresses are in the table and in the queue. */
    ghost predicate Within(all4: set<nat>, all6: set<nat>)
      reads this
    {
      && Valid()
      && (forall i :: 0 <= i < |events| ==> Known(events[i], iface4, iface6, all4, all6))
      && (forall b :: Present(local4, b) ==> b in all4)
      && (forall b :: Present(local6, b) ==> b in all6)
    }

    /** With room for every address no event is lost, and a worker step changes nothing for the reader. */
    method Step(act: Act, ghost all4: set<nat>, ghost all6: set<nat>)
      requires Within(all4, all6) && |all4| <= MPTCP_MAX_ADDR && |all6| <= MPTCP_MAX_ADDR
      requires act.Notify? ==> Known(act.event, iface4, iface6, all4, all6)
      modifies this
      ensures Within(all4, all6)
      ensures forall a :: Settled(a) ==
                if act.Notify? && a == act.event.addr then Result(act.event) else old(Settled(a))
    {
      hide After, Prio;
      match act
      case Notify(e) =>
        AddPmEvent(e);
      case Work =>
        if events != [] {
          ghost var e := events[0];
          if e.addr.family == V4 && !Present(local4, e.addr.bytes) {
            RoomForOneMore(local4, iface4, all4, e.addr.bytes);
          } else if e.addr.family == V6 && !Present(local6, e.addr.bytes) {
            RoomForOneMore(local6, iface6, all6, e.addr.bytes);
          }
          ghost var q := events;
          var _, _, _ := HandleEvent();
          assert forall b :: Present(local4, b) ==> Present(Local(V4), b);
          assert forall b :: Present(local6, b) ==> Present(Local(V6), b);
        }
    }
  }

  /**
   Coalescing cannot be seen: for every interleaving of reports and worker steps the table, with what still waits,
   says of each address what the whole log says; so a drained queue leaves the table of the uncoalesced log.
   */
  method Run(acts: seq<Act>, ghost iface4: nat -> nat, ghost iface6: nat -> nat, ghost all4: set<nat>,
             ghost all6: set<nat>)
    returns (ns: FmNs)
    requires |all4| <= MPTCP_MAX_ADDR && |all6| <= MPTCP_MAX_ADDR
    requires forall i :: 0 <= i < |acts| && acts[i].Notify? ==> Known(acts[i].event, iface4, iface6, all4, all6)
    ensures ns.Valid()
    ensures forall a :: ns.Settled(a) == After(Notified(acts), a, None)
    ensures ns.events == [] ==> forall a: Addr :: Prio(ns.Local(a.family), a.bytes) == After(Notified(acts), a, None)
  {
    hide After, Prio;
    ns := new FmNs(iface4, iface6);
    assert acts[..0] == [];
    NothingLogged();
    for n := 0 to |acts|
      invariant fresh(ns) && ns.iface4 == iface4 && ns.iface6 == iface6 && ns.Within(all4, all6)
      invariant forall a :: ns.Settled(a) == After(Notified(acts[..n]), a, None)
    {
      ns.Step(acts[n], all4, all6);
      forall a: Addr ensures ns.Settled(a) == After(Notified(acts[..n + 1]), a, None) {
        NotifiedStep(acts, n, a);
      }
    }
    assert acts[..|acts|] == acts;
    ghost var log := Notified(acts);
    if ns.events == [] {
      forall a: Addr ensures Prio(ns.Local(a.family), a.bytes) == After(log, a, None) {
        NoEventKeeps(ns.events, a, Prio(ns.Local(a.family), a.bytes));
        assert ns.Settled(a) == After(log, a, None);
      }
    }
  }

  lemma NothingLogged()
    ensures forall a :: After(Notified([]), a, None) == None
  {
  }

  /** The slots of the addresses 0 to `n - 1`. */
  ghost function SlotsOf(t: Table, iface: nat -> nat, n: nat): (s: set<int>)
    requires TableOk(t, iface) && forall b :: 0 <= b < n ==> Present(t, b)
    ensures |s| == n && forall i :: i in s ==> exists b :: 0 <= b < n && Holds(t, i, b)
  {
    if n == 0 then {}
    else
      var s := SlotsOf(t, iface, n - 1);
      assert Present(t, n - 1);
      var i :| Holds(t, i, n - 1);
      s + {i}
  }

  lemma RoomForNext(t: Table, iface: nat -> nat, n: nat)
    requires TableOk(t, iface) && n < MPTCP_MAX_ADDR && forall b: nat :: Present(t, b) ==> b < n
    ensures !Full(t.bits)
  {
    var all: set<nat> := {0, 1, 2, 3, 4, 5, 6, 7};
    forall i, b: nat | Holds(t, i, b)
      ensures b in all
    {
      assert Present(t, b);
    }
    RoomForOneMore(t, iface, all, n);
  }

  lemma EightFill(t: Table, iface: nat -> nat)
    requires TableOk(t, iface) && forall b :: 0 <= b < MPTCP_MAX_ADDR ==> Present(t, b)
    ensures Full(t.bits)
  {
    var held := SlotsOf(t, iface, MPTCP_MAX_ADDR);
    hide TableOk, Present, SlotsOf;
    forall k | 0 <= k < MPTCP_MAX_ADDR
      ensures t.bits[k]
    {
      if !t.bits[k] {
        OneLeftOut(held, k);
      }
    }
  }

  lemma OneLeftOut(s: set<int>, k: int)
    requires 0 <= k < 8 && k !in s && forall i :: i in s ==> 0 <= i < 8
    ensures |s| < 8
  {
    forall i | i in s + {k}
      ensures i in {0, 1, 2, 3, 4, 5, 6, 7}
    {
    }
    SubsetSize(s + {k}, {0, 1, 2, 3, 4, 5, 6, 7});
  }

  /**
   Nine IPv4 addresses are announced, one after the other, and each event is handled at once: the ninth is lost.
   The log says that it is there, the table says that it is not.
   */
  method NinthAddressLost() returns (ns: FmNs)
    ensures ns.Valid() && ns.events == [] && !Present(ns.local4, 8)
    ensures forall b :: 0 <= b < 8 ==> Present(ns.local4, b)
  {
    hide Prio, Full, After, Result;
    ghost var zero := (b: nat) => 0;
    ns := new FmNs(zero, zero);
    for n := 0 to 9
      invariant fresh(ns) && ns.Valid() && ns.events == [] && ns.iface4 == zero
      invariant forall b: nat :: Present(ns.local4, b) <==> b < (if n < 8 then n else 8)
    {
      var e := Event(Addr(V4, n), 0, false, Add);
      ns.AddPmEvent(e);
      if n < 8 {
        RoomForNext(ns.local4, ns.iface4, n);
      } else {
        EightFill(ns.local4, ns.iface4);
      }
      ghost var before := ns.local4;
      var success, dropped, done := ns.HandleEvent();
      assert dropped == (n == 8);
      forall b: nat
        ensures Present(ns.local4, b) <==> Present(before, b) || (b == n && !dropped)
      {
        assert ns.Local(V4) == ns.local4;
        PrioIsPresent(ns.local4, b);
        PrioIsPresent(before, b);
        Announced(e);
      }
    }
  }

  lemma PrioIsPresent(t: Table, bytes: nat)
    requires Shape(t)
    ensures Prio(t, bytes).Some? <==> Present(t, bytes)
  {
  }

  lemma Announced(e: Event)
    requires e.code == Add
    ensures Result(e).Some?
  {
  }
}
