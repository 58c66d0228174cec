/**
 The failure machine of the scheduler: Open, Timeout, Congestion and Recovery, the Cong and Sub bits of the
 subflows, and the time a run needs from a congestion back to Open.
 */
module FailureMachine {
  import opened Common
  import opened SeqArith
  import opened RedundancyLoop
  import opened Scheduler

  datatype State = Open | Recovery | Timeout | Congestion

  const TCP_CA_LOSS: nat := 4
  const S64_MAX: int := 0x7FFF_FFFF_FFFF_FFFF

  /** What one decision of `rmptcp_check_failure` is made on; `event` is the worst socket state, 0 without one. */
  datatype Call = Call(timeout: nat, periodMax: nat, event: nat, collapsed: bool, inTime: bool)

  /** The state after one call, with the times the machine waits on; `call` is empty if nothing could be sent. */
  datatype Snap = Snap(state: State, now: int, lastCa: int, startRecovery: int, reset: bool, call: Option<Call>)

  /** When the state must change, and when it must stay; the two times are those from before the decision. */
  ghost predicate Reacts(from: State, b: Snap, c: Call, lastCa: int, startRecovery: int, hold: nat) {
    && (from in {Open, Recovery} && c.timeout > 0 ==>
          b.state == if c.timeout > 2 * c.periodMax then Congestion else Timeout)
    && (from == Timeout && c.timeout > 0 ==> b.state == Congestion)
    && (from == Timeout && c.timeout == 0 && c.inTime ==> b.state == Recovery)
    && (from in {Open, Timeout} && c.timeout == 0 && (from == Timeout ==> !c.inTime) ==>
          b.state == if c.event >= TCP_CA_RECOVERY && c.collapsed then Congestion else from)
    && (from == Recovery && c.timeout == 0 && c.collapsed ==> b.state == Congestion)
    && (from == Recovery && c.timeout == 0 && !c.collapsed ==>
          b.state == if c.event != TCP_CA_LOSS && startRecovery + 2 * hold < b.now then Open else Recovery)
    && (from == Recovery == b.state ==> b.startRecovery == if c.event == TCP_CA_LOSS then b.now else startRecovery)
    && (from == Congestion ==> b.state == if lastCa + hold < b.now then Recovery else Congestion)
    && (from == Congestion == b.state ==> b.lastCa == if c.event == TCP_CA_LOSS then b.now else lastCa)
  }

  /** One call on the machine, seen from outside; `hold` is `CS_hold` in ns. */
  ghost predicate StepOk(a: Snap, b: Snap, hold: nat) {
    && a.now <= b.now
    && (var from := if b.reset then Open else a.state;
        match b.call
        case None => b.state == from && (b.reset || (b.lastCa == a.lastCa && b.startRecovery == a.startRecovery))
        case Some(c) => Reacts(from, b, c, a.lastCa, a.startRecovery, hold))
    && (if b.reset then b.state != Recovery && (b.state == Congestion ==> b.lastCa == b.now)
        else
          && (b.state != a.state ==> (a.state, b.state) in {
                (Open, Timeout), (Open, Congestion), (Recovery, Open), (Recovery, Timeout), (Recovery, Congestion),
                (Timeout, Recovery), (Timeout, Congestion), (Congestion, Recovery)})
          && (b.state == Congestion && a.state != Congestion ==> b.lastCa == b.now)
          && (b.state == Congestion && a.state == Congestion ==> b.lastCa == a.lastCa || b.lastCa == b.now)
          && (b.state == Recovery && a.state != Recovery ==> b.startRecovery == b.now)
          && (b.state == Recovery && a.state == Recovery ==>
                b.startRecovery == a.startRecovery || b.startRecovery == b.now)
          && (a.state == Congestion && b.state == Recovery ==> a.lastCa + hold < b.now)
          && (a.state == Recovery && b.state == Open ==> a.startRecovery + 2 * hold < b.now))
  }

  ghost predicate History(h: seq<Snap>, hold: nat) {
    forall i :: 0 < i < |h| ==> StepOk(h[i - 1], h[i], hold)
  }

  /** Entry number `i` of a history is the call that enters the congestion state. */
  ghost predicate EntersCongestion(h: seq<Snap>, i: int) {
    0 < i < |h| && h[i].state == Congestion && (h[i - 1].state != Congestion || h[i].reset)
  }

  ghost predicate NoReset(h: seq<Snap>, i: int, j: int) {
    forall k :: i < k <= j && 0 <= k < |h| ==> !h[k].reset
  }

  /** What the time must be, in each state, since the congestion entered at time `t0`. */
  ghost predicate Waiting(s: Snap, t0: int, hold: nat) {
    match s.state
    case Congestion => s.lastCa >= t0 && s.now >= t0
    case Recovery => s.startRecovery > t0 + hold && s.now > t0 + hold
    case Timeout => s.now > t0 + hold
    case Open => s.now > t0 + 3 * hold
  }

  lemma {:induction false} WaitingSince(h: seq<Snap>, hold: nat, i: nat, j: nat)
    requires History(h, hold) && EntersCongestion(h, i) && i <= j < |h| && NoReset(h, i, j)
    ensures Waiting(h[j], h[i].now, hold)
  {
    assert StepOk(h[i - 1], h[i], hold);
    if j > i {
      WaitingSince(h, hold, i, j - 1);
      assert StepOk(h[j - 1], h[j], hold);
    }
  }

  /** A run that enters Congestion needs more than three hold times to be Open again, unless it is reset. */
  lemma BackToOpenTakesThreeHolds(h: seq<Snap>, hold: nat, i: nat, j: nat)
    requires History(h, hold) && EntersCongestion(h, i) && i <= j < |h| && NoReset(h, i, j)
    requires h[j].state == Open
    ensures h[j].now > h[i].now + 3 * hold
  {
    WaitingSince(h, hold, i, j);
  }

  /** ... and it is in Recovery in between. */
  lemma {:induction false} BackToOpenThroughRecovery(h: seq<Snap>, hold: nat, i: nat, j: nat)
    requires History(h, hold) && i <= j < |h| && NoReset(h, i, j)
    requires h[i].state == Congestion && h[j].state == Open
    ensures exists k :: i < k < j && h[k].state == Recovery
  {
    assert StepOk(h[j - 1], h[j], hold);
    if h[j - 1].state == Open {
      BackToOpenThroughRecovery(h, hold, i, j - 1);
    }
  }

  /** The bound cannot be improved: with a hold of `hold` ns, `3 * hold + 2` ns are enough. */
  lemma ThreeHoldsIsTight(hold: nat)
    ensures var silent, quiet := Some(Call(1, 0, 0, false, false)), Some(Call(0, 0, 0, false, false));
            var h := [Snap(Open, 0, 0, 0, false, None), Snap(Congestion, 0, 0, 0, false, silent),
                      Snap(Recovery, hold + 1, 0, hold + 1, false, quiet),
                      Snap(Open, 3 * hold + 2, 0, hold + 1, false, quiet)];
            History(h, hold) && EntersCongestion(h, 1) && h[3].now == h[1].now + 3 * hold + 2
  {
  }

  /** Call `j` is the first after call `i` that sends. */
  ghost predicate NextSend(h: seq<Snap>, i: nat, j: nat) {
    i < j < |h| && NoReset(h, i, j) && h[j].call.Some? && forall k :: i < k < j ==> h[k].call.None?
  }

  lemma {:induction false} IdleUntil(h: seq<Snap>, hold: nat, i: nat, j: nat)
    requires History(h, hold) && i <= j < |h| && NoReset(h, i, j) && forall k :: i < k <= j ==> h[k].call.None?
    ensures h[j].state == h[i].state && h[j].lastCa == h[i].lastCa && h[j].startRecovery == h[i].startRecovery
  {
    if i < j {
      IdleUntil(h, hold, i, j - 1);
      assert StepOk(h[j - 1], h[j], hold);
    }
  }

  /** Outside Congestion a timed-out send is noticed, and the next one, timed out too, finds or makes a congestion. */
  lemma {:induction false} SecondTimeoutIsCongestion(h: seq<Snap>, hold: nat, i: nat, j: nat)
    requires History(h, hold) && 0 < i < |h| && NextSend(h, i, j) && !h[i].reset
    requires h[i - 1].state != Congestion && h[i].call.Some? && h[i].call.value.timeout > 0
    requires h[j].call.value.timeout > 0
    ensures h[i].state in {Timeout, Congestion}
    ensures h[i].state == Timeout ==> h[j].state == Congestion
    ensures h[j].state == Congestion <==> !(h[i].state == Congestion && h[i].now + hold < h[j].now)
  {
    assert StepOk(h[i - 1], h[i], hold);
    IdleUntil(h, hold, i, j - 1);
    assert StepOk(h[j - 1], h[j], hold);
  }

  /** A send without a timeout, a loss or a collapse. */
  ghost predicate Quiet(s: Snap) {
    s.call.Some? && s.call.value.timeout == 0 && s.call.value.event != TCP_CA_LOSS && !s.call.value.collapsed
  }

  /** From call `i` to call `j` every call sends quietly, at most `gap` ns after the one before. */
  ghost predicate QuietRun(h: seq<Snap>, gap: nat, i: nat, j: nat) {
    i <= j < |h| && NoReset(h, i, j) && forall k :: i < k <= j ==> Quiet(h[k]) && h[k].now <= h[k - 1].now + gap
  }

  lemma {:induction false} QuietSince(h: seq<Snap>, hold: nat, gap: nat, i: nat, j: nat)
    requires History(h, hold) && EntersCongestion(h, i) && QuietRun(h, gap, i, j)
    ensures h[j].state == Congestion ==> h[j].lastCa == h[i].now && h[j].now <= h[i].now + hold
    ensures h[j].state == Recovery ==>
              && h[j].startRecovery <= h[i].now + hold + gap
              && h[j].now <= h[j].startRecovery + 2 * hold
    ensures h[j].state != Timeout
  {
    if i == j {
      assert StepOk(h[i - 1], h[i], hold);
    } else {
      QuietSince(h, hold, gap, i, j - 1);
      assert StepOk(h[j - 1], h[j], hold) && Quiet(h[j]);
    }
  }

  /**
   The bound from above: after a congestion, quiet sends at most `gap` ns apart open the connection again by
   three hold times and a gap.  With a gap of 1 ns that is the bound from below.
   */
  lemma QuietRunOpens(h: seq<Snap>, hold: nat, gap: nat, i: nat, j: nat)
    requires History(h, hold) && EntersCongestion(h, i) && QuietRun(h, gap, i, j)
    requires h[j].now > h[i].now + 3 * hold + gap
    ensures h[j].state == Open
  {
    QuietSince(h, hold, gap, i, j);
  }

  /** Which of the two bits may be set anywhere in the register. */
  predicate Bits(s: seq<RedSk>, cong: bool, sub: bool) {
    forall i :: 0 <= i < |s| ==> (s[i].cong ==> cong) && (s[i].sub ==> sub)
  }

  lemma ScanBits(s: seq<RedSk>, now: int, noshow: nat, cong: bool, sub: bool)
    requires Bits(s, cong, sub)
    ensures Bits(Scan(s, now, noshow), cong, sub)
  {
    var t := Scan(s, now, noshow);
    forall i | 0 <= i < |t| ensures (t[i].cong ==> cong) && (t[i].sub ==> sub) {
      ScanEntries(s, now, noshow, t[i]);
      var o :| o in s && !Forgotten(o, now, noshow) && t[i] == Refresh(o);
    }
  }

  lemma KickBits(s: seq<RedSk>, t: seq<RedSk>, cong: bool, sub: bool)
    requires Bits(s, cong, sub) && LatestKicked(s, t)
    ensures Bits(t, cong, sub)
  {
    forall i | 0 <= i < |t| ensures (t[i].cong ==> cong) && (t[i].sub ==> sub) {
      assert SameBut(s, t, i);
    }
  }

  lemma {:induction false} SendBits(s: seq<RedSk>, now: int, cong: bool, sub: bool)
    requires Bits(s, cong, sub)
    ensures Bits(AfterSend(s, now), cong, sub)
  {
    if s != [] {
      SendBits(s[1..], now, cong, sub);
    }
  }

  /** The measurements of one call that come from outside the machine. */
  datatype Input = Input(
    now: int,
    newMeta: bool,
    seen: nat -> Sock,
    update: bool, newcomers: seq<Sock>, mask: nat -> bool,
    bandwidth: nat -> nat,
    utilMean: nat, utilMeanMean: nat,
    periodMax: nat)

  class Monitor {
    const reg: Register
    const csHold: nat            // ms
    const varPeriod: int
    const numInTime: nat
    const ratio: nat
    const kick: bool
    const collapseTh: nat
    const quota: nat

    var state: State
    var congFlag: bool
    var lastCa: int
    var startRecovery: int
    var inTimeCnt: nat
    var previousEvent: nat
    var periodMaxBefore: nat
    var utilMean: nat
    var utilMeanMean: nat
    var utilBefore: nat

    function Hold(): nat {
      csHold * NS_PER_MS
    }

    ghost predicate Valid()
      reads this, reg
    {
      reg.Valid() && previousEvent < MAX_NUM_RED_SK
    }

    /** A Cong bit needs the congestion state; a Sub bit needs it too, or a recovery not yet noticed. */
    ghost predicate BitsOk()
      reads this, reg, reg.skList
      requires reg.Valid()
    {
      Bits(reg.Known(), state == Congestion, state == Congestion || (state == Recovery && congFlag))
    }

    ghost function View(now: int, reset: bool, call: Option<Call>): Snap
      reads this
    {
      Snap(state, now, lastCa, startRecovery, reset, call)
    }

    /** `rmptcp_statechange_cong` */
    method ToCongestion(culprit: nat, now: int)
      requires Valid() && culprit < MAX_NUM_RED_SK && Bits(reg.Known(), false, false)
      modifies this`state, this`congFlag, this`lastCa, reg.skList
      ensures Valid() && state == Congestion && congFlag && lastCa == now && BitsOk()
      ensures |reg.Known()| == |old(reg.Known())|
      ensures forall i :: 0 <= i < reg.skListSize ==>
                reg.Known()[i] == if i == culprit then old(reg.Known())[i].(cong := true) else old(reg.Known())[i]
    {
      state, congFlag, lastCa := Congestion, true, now;
      reg.skList[culprit] := reg.skList[culprit].(cong := true);
    }

    /** An enabled subflow that is not among those chosen for this segment. */
    predicate Suspect(e: RedSk) {
      e.enabled && !e.available
    }

    /** The time (us) at which a subflow should have been usable again. */
    function Due(e: RedSk): int {
      TruncDiv(e.lastUsed, 1000) + e.periodMean + TruncDiv((100 + varPeriod) * e.periodVar, 100)
    }

    /** Microseconds after its last use, its period and (100 + margin) per cent of the variation have passed. */
    lemma DueIs(e: RedSk)
      requires e.lastUsed >= 0 && e.periodVar >= 0 && varPeriod >= -100
      ensures exists used: nat, slack: nat ::
                && used * 1000 <= e.lastUsed < used * 1000 + 1000
                && slack * 100 <= (100 + varPeriod) * e.periodVar < slack * 100 + 100
                && Due(e) == used + e.periodMean + slack
    {
      var used, slack := TruncDiv(e.lastUsed, 1000), TruncDiv((100 + varPeriod) * e.periodVar, 100);
      assert (100 + varPeriod) * e.periodVar >= 0;
      assert used * 1000 <= e.lastUsed < used * 1000 + 1000;
      assert slack * 100 <= (100 + varPeriod) * e.periodVar < slack * 100 + 100;
      assert Due(e) == used + e.periodMean + slack;
    }

    function LastUse(e: RedSk): int {
      TruncDiv(e.lastUsed, 1000)
    }

    /** The loop of the culprit search: the first suspect with the smallest key below `S64_MAX`. */
    method EarliestSuspect(key: RedSk -> int) returns (found: bool, at: nat)
      requires Valid()
      ensures !found ==> at == 0
      ensures !found ==>
                forall i :: 0 <= i < reg.skListSize && Suspect(reg.skList[i]) ==> key(reg.skList[i]) >= S64_MAX
      ensures found ==>
                && at < reg.skListSize && Suspect(reg.skList[at])
                && (forall i :: 0 <= i < reg.skListSize && Suspect(reg.skList[i]) ==>
                      key(reg.skList[at]) <= key(reg.skList[i]))
                && (forall i :: 0 <= i < at && Suspect(reg.skList[i]) ==> key(reg.skList[at]) < key(reg.skList[i]))
    {
      var least := S64_MAX;
      found, at := false, 0;
      for i := 0 to reg.skListSize
        invariant !found ==> at == 0 && least == S64_MAX
        invariant found ==> at < i && Suspect(reg.skList[at]) && least == key(reg.skList[at]) < S64_MAX
        invariant forall k :: 0 <= k < i && Suspect(reg.skList[k]) ==> least <= key(reg.skList[k])
        invariant found ==> forall k :: 0 <= k < at && Suspect(reg.skList[k]) ==> least < key(reg.skList[k])
      {
        if Suspect(reg.skList[i]) && least > key(reg.skList[i]) {
          least, found, at := key(reg.skList[i]), true, i;
        }
      }
    }

    /** `rmptcp_statechange_timeout2cong`: blame the suspect that is due first. */
    method TimeoutToCongestion(now: int) returns (culprit: nat)
      requires Valid() && Bits(reg.Known(), false, false)
      modifies this`state, this`congFlag, this`lastCa, reg.skList
      ensures Valid() && state == Congestion && congFlag && lastCa == now && BitsOk()
      ensures |reg.Known()| == |old(reg.Known())|
      ensures forall i :: 0 <= i < reg.skListSize ==>
                reg.Known()[i] == if i == culprit then old(reg.Known())[i].(cong := true) else old(reg.Known())[i]
      ensures (exists i :: 0 <= i < reg.skListSize && old(reg.Known())[i].enabled && !old(reg.Known())[i].available
                && Due(old(reg.Known())[i]) < S64_MAX) ==>
                && culprit < reg.skListSize
                && old(reg.Known())[culprit].enabled && !old(reg.Known())[culprit].available
                && forall i :: 0 <= i < reg.skListSize
                               && old(reg.Known())[i].enabled && !old(reg.Known())[i].available ==>
                     Due(old(reg.Known())[culprit]) <= Due(old(reg.Known())[i])
    {
      var found;
      found, culprit := EarliestSuspect(Due);
      if !found {
        found, culprit := EarliestSuspect(LastUse);
      }
      ToCongestion(culprit, now);
    }

    /** What the socket states do to a substitute while the connection is congested. */
    function Marked(e: RedSk, now: int): RedSk
      reads this
    {
      if state != Congestion || !e.sub then e
      else if e.sk.caState > TCP_CA_RECOVERY then e.(cong := true, lastCong := now)
      else if e.sk.caState < TCP_CA_RECOVERY && e.lastCong + Hold() < now then e.(cong := false)
      else e
    }

    /** A congestion event on an enabled subflow. */
    predicate EventOn(e: RedSk) {
      e.enabled && e.sk.caState >= TCP_CA_RECOVERY
    }

    /** `event` is the worst socket state from TCP_CA_Recovery on among the enabled subflows, 0 without one. */
    ghost predicate WorstEvent(s: seq<RedSk>, event: nat) {
      && (forall e :: e in s && EventOn(e) ==> e.sk.caState <= event)
      && (event > 0 ==> exists e :: e in s && EventOn(e) && e.sk.caState == event)
    }

    /** The first loop of `rmptcp_check_failure`: the worst socket state among the enabled subflows. */
    method SocketEvents(now: int) returns (event: nat, at: nat)
      requires Valid()
      modifies reg.skList
      ensures Valid() && |reg.Known()| == |old(reg.Known())|
      ensures forall i :: 0 <= i < reg.skListSize ==>
                reg.Known()[i] == var e := old(reg.Known())[i];
                  if state == Congestion && e.sub && e.sk.caState > TCP_CA_RECOVERY
                  then e.(cong := true, lastCong := now)
                  else if state == Congestion && e.sub && e.sk.caState < TCP_CA_RECOVERY
                          && e.lastCong + csHold * 1_000_000 < now then e.(cong := false)
                  else e
      ensures WorstEvent(old(reg.Known()), event)
      ensures event > 0 ==>
                at < reg.skListSize && EventOn(old(reg.Known())[at]) && old(reg.Known())[at].sk.caState == event
      ensures event == 0 ==> at == 0
      ensures Bits(old(reg.Known()), state == Congestion, state == Congestion) ==>
                Bits(reg.Known(), state == Congestion, state == Congestion)
    {
      ghost var was := reg.Known();
      event, at := 0, 0;
      for i := 0 to reg.skListSize
        invariant Valid() && reg.skListSize == |was|
        invariant forall k :: 0 <= k < i ==> reg.skList[k] == Marked(was[k], now)
        invariant forall k :: i <= k < |was| ==> reg.skList[k] == was[k]
        invariant forall k :: 0 <= k < i && EventOn(was[k]) ==> was[k].sk.caState <= event
        invariant event > 0 ==> at < i && EventOn(was[at]) && was[at].sk.caState == event
        invariant event == 0 ==> at == 0
      {
        var e := reg.skList[i];
        if e.sk.caState >= TCP_CA_RECOVERY {
          if e.sk.caState > event && e.enabled {
            event, at := e.sk.caState, i;
          }
          if state == Congestion && e.sub && e.sk.caState > TCP_CA_RECOVERY {
            reg.skList[i] := e.(cong := true, lastCong := now);
          }
        } else if state == Congestion && e.sub && e.lastCong + Hold() < now {
          reg.skList[i] := e.(cong := false);
        }
      }
    }

    /** Clears the Cong bits when the congestion state is left for good. */
    method ClearCong()
      requires Valid()
      modifies reg.skList
      ensures Valid() && |reg.Known()| == |old(reg.Known())|
      ensures forall i :: 0 <= i < reg.skListSize ==> reg.Known()[i] == old(reg.Known())[i].(cong := false)
      ensures Bits(reg.Known(), false, true)
      ensures Bits(old(reg.Known()), false, false) ==> Bits(reg.Known(), false, false)
    {
      ghost var was := reg.Known();
      for i := 0 to reg.skListSize
        invariant Valid() && reg.skListSize == |was|
        invariant forall k :: 0 <= k < i ==> reg.skList[k] == was[k].(cong := false)
        invariant forall k :: i <= k < |was| ==> reg.skList[k] == was[k]
      {
        reg.skList[i] := reg.skList[i].(cong := false);
      }
    }

    /** The utilisation has fallen below `collapse_th` per cent of what it was; the product is taken in 64 bits. */
    predicate Collapsed()
      reads this
    {
      utilMean < Low64(utilBefore * collapseTh) / 100
    }

    ghost function Measured(event: nat): Call
      reads this, reg
    {
      Call(reg.timeout, reg.sendPeriodMax, event, Collapsed(), inTimeCnt >= numInTime)
    }

    /** Entering Timeout, or Congestion at once after a long silence: the same in Open and Recovery. */
    method OnSilence(event: nat, now: int, ghost before: int)
      requires Valid() && (state == Open || state == Recovery) && before <= now && Bits(reg.Known(), false, false)
      requires reg.timeout > 0
      modifies this, reg.skList
      ensures Valid() && BitsOk()
      ensures StepOk(old(View(before, false, None)), View(now, false, Some(old(Measured(event)))), Hold())
    {
      if reg.timeout > 2 * reg.sendPeriodMax {
        var _ := TimeoutToCongestion(now);
      } else {
        state, periodMaxBefore := Timeout, reg.sendPeriodMax;
      }
    }

    method OnOpen(event: nat, at: nat, now: int, ghost before: int)
      requires Valid() && state == Open && before <= now && (event > 0 ==> at < reg.skListSize)
      requires Bits(reg.Known(), false, false)
      modifies this, reg.skList
      ensures Valid() && BitsOk()
      ensures StepOk(old(View(before, false, None)), View(now, false, Some(old(Measured(event)))), Hold())
    {
      if reg.timeout > 0 {
        OnSilence(event, now, before);
      } else if event >= TCP_CA_RECOVERY && Collapsed() {
        ToCongestion(at, now);
        previousEvent := at;
      } else {
        utilBefore := utilMeanMean;
      }
    }

    method OnRecovery(event: nat, at: nat, now: int, ghost before: int)
      requires Valid() && state == Recovery && before <= now && (event > 0 ==> at < reg.skListSize)
      requires Bits(reg.Known(), false, false)
      modifies this, reg.skList
      ensures Valid() && BitsOk()
      ensures StepOk(old(View(before, false, None)), View(now, false, Some(old(Measured(event)))), Hold())
    {
      if reg.timeout > 0 {
        OnSilence(event, now, before);
      } else if event >= TCP_CA_RECOVERY && Collapsed() {
        ToCongestion(at, now);
        previousEvent := at;
      } else if Collapsed() {
        ToCongestion(previousEvent, now);
      } else if event == TCP_CA_LOSS {
        startRecovery := now;
      } else if startRecovery + 2 * Hold() < now {
        state, congFlag := Open, true;
        ClearCong();
      } else if event == 0 && startRecovery + Hold() < now {
        utilBefore := utilMeanMean;
      }
    }

    method OnTimeout(event: nat, at: nat, now: int, ghost before: int)
      requires Valid() && state == Timeout && before <= now && (event > 0 ==> at < reg.skListSize)
      requires Bits(reg.Known(), false, false)
      modifies this, reg`sendPeriodMax, reg.skList
      ensures Valid() && BitsOk()
      ensures StepOk(old(View(before, false, None)), View(now, false, Some(old(Measured(event)))), Hold())
    {
      if reg.timeout > 0 {
        var _ := TimeoutToCongestion(now);
      } else if inTimeCnt >= numInTime {
        inTimeCnt, state, startRecovery := 0, Recovery, now;
        reg.sendPeriodMax := periodMaxBefore;
      } else if event >= TCP_CA_RECOVERY && Collapsed() {
        ToCongestion(at, now);
        previousEvent := at;
      }
    }

    method OnCongestion(event: nat, now: int, ghost before: int)
      requires Valid() && state == Congestion && before <= now && Bits(reg.Known(), true, true)
      modifies this, reg`sendPeriodMax, reg.skList
      ensures Valid() && BitsOk()
      ensures StepOk(old(View(before, false, None)), View(now, false, Some(old(Measured(event)))), Hold())
    {
      if lastCa + Hold() < now {
        state, startRecovery, congFlag := Recovery, now, true;
        reg.sendPeriodMax := periodMaxBefore;
        if 0 < utilMean < utilMeanMean {
          utilMeanMean := utilMean;
        }
        ClearCong();
      } else if event == TCP_CA_LOSS {
        lastCa := now;
      }
    }

    /**
     `rmptcp_check_failure`: what is measured, and what each measurement makes of the state.
     The clauses about the state cover every case, so the machine can neither miss a failure nor invent one.
     */
    method CheckFailure(now: int, ghost before: int) returns (ghost c: Call)
      requires Valid() && before <= now && Bits(reg.Known(), state == Congestion, state == Congestion)
      modifies this, reg`sendPeriodMax, reg.skList
      ensures Valid() && BitsOk()
      ensures c.timeout == old(reg.timeout) && c.periodMax == old(reg.sendPeriodMax)
      ensures c.collapsed == (old(utilMean) < Low64(old(utilBefore) * collapseTh) / 100)
      ensures c.inTime == (old(inTimeCnt) >= numInTime)
      ensures WorstEvent(old(reg.Known()), c.event)
      ensures forall e :: e in old(reg.Known()) && e.enabled && e.sk.caState >= TCP_CA_RECOVERY ==>
                e.sk.caState <= c.event
      ensures c.event > 0 ==>
                c.event >= TCP_CA_RECOVERY && exists e :: e in old(reg.Known()) && e.enabled && e.sk.caState == c.event
      ensures old(state) in {Open, Recovery} && c.timeout > 2 * c.periodMax ==> state == Congestion
      ensures old(state) in {Open, Recovery} && 0 < c.timeout <= 2 * c.periodMax ==> state == Timeout
      ensures old(state) == Timeout && c.timeout > 0 ==> state == Congestion
      ensures old(state) == Timeout && c.timeout == 0 && c.inTime ==> state == Recovery
      ensures old(state) in {Open, Recovery} || (old(state) == Timeout && !c.inTime) ==>
                (c.timeout == 0 && c.event >= TCP_CA_RECOVERY && c.collapsed ==> state == Congestion)
      ensures old(state) == Open || (old(state) == Timeout && !c.inTime) ==>
                (c.timeout == 0 && (c.event < TCP_CA_RECOVERY || !c.collapsed) ==> state == old(state))
      ensures old(state) == Recovery && c.timeout == 0 && c.collapsed ==> state == Congestion
      ensures old(state) == Recovery && c.timeout == 0 && !c.collapsed ==>
                && (state == Open <==> c.event != TCP_CA_LOSS && old(startRecovery) + 2 * Hold() < now)
                && (state != Open ==>
                      && state == Recovery
                      && startRecovery == if c.event == TCP_CA_LOSS then now else old(startRecovery))
      ensures old(state) == Congestion ==>
                if old(lastCa) + Hold() < now then state == Recovery && startRecovery == now
                else state == Congestion && lastCa == if c.event == TCP_CA_LOSS then now else old(lastCa)
      ensures old(state) != Congestion && state == Congestion ==> lastCa == now
      ensures StepOk(old(View(before, false, None)), View(now, false, Some(c)), Hold())
    {
      hide Bits, Marked;
      var event, at := SocketEvents(now);
      c := Measured(event);
      match state
      case Open => OnOpen(event, at, now, before);
      case Recovery => OnRecovery(event, at, now, before);
      case Timeout => OnTimeout(event, at, now, before);
      case Congestion => OnCongestion(event, now, before);
    }

    constructor (csHold: nat, varPeriod: int, numInTime: nat, ratio: nat, kick: bool, collapseTh: nat,
                 quota: nat)
      ensures Valid() && BitsOk() && state == Open && fresh(reg) && fresh(reg.skList)
      ensures this.csHold == csHold
      ensures lastCa == 0 && startRecovery == 0
    {
      this.csHold, this.varPeriod, this.numInTime, this.ratio := csHold, varPeriod, numInTime, ratio;
      this.kick, this.collapseTh, this.quota := kick, collapseTh, quota;
      reg := new Register();
      state, congFlag, lastCa, startRecovery, inTimeCnt, previousEvent := Open, false, 0, 0, 0, 0;
      periodMaxBefore, utilMean, utilMeanMean, utilBefore := 50000, 0, 0, 0;
    }

    /** The first congested entry; entry 0 if there is none. */
    method FirstCongested() returns (c: nat)
      requires Valid()
      ensures (exists i :: 0 <= i < reg.skListSize && reg.Known()[i].cong) ==>
                c < reg.skListSize && reg.Known()[c].cong && forall i :: 0 <= i < c ==> !reg.Known()[i].cong
      ensures c < MAX_NUM_RED_SK
    {
      c := 0;
      for i := 0 to reg.skListSize
        invariant c == 0 && forall k :: 0 <= k < i ==> !reg.skList[k].cong
      {
        if reg.skList[i].cong {
          return i;
        }
      }
    }

    predicate Healthy(e: RedSk) {
      e.enabled && !e.cong
    }

    /** The healthy enabled entry with the highest bandwidth, which the source keeps in a 32-bit word. */
    method BestHealthy() returns (best: nat)
      requires Valid()
      ensures best < MAX_NUM_RED_SK
      ensures (forall i :: 0 <= i < reg.skListSize ==> reg.Known()[i].bandwidth < TWO_32) ==>
                forall i :: 0 <= i < reg.skListSize && reg.Known()[i].enabled && !reg.Known()[i].cong
                            && reg.Known()[i].bandwidth > 0 ==>
                  && best < reg.skListSize && reg.Known()[best].enabled && !reg.Known()[best].cong
                  && reg.Known()[i].bandwidth <= reg.Known()[best].bandwidth
    {
      var highest := 0;
      best := 0;
      ghost var narrow := forall i :: 0 <= i < reg.skListSize ==> reg.Known()[i].bandwidth < TWO_32;
      for i := 0 to reg.skListSize
        invariant best < MAX_NUM_RED_SK && highest >= 0
        invariant narrow && highest > 0 ==>
                    best < i && Healthy(reg.skList[best]) && reg.skList[best].bandwidth == highest
        invariant narrow ==>
                    forall k :: 0 <= k < i && Healthy(reg.skList[k]) ==> reg.skList[k].bandwidth <= highest
      {
        var e := reg.skList[i];
        if e.enabled && !e.cong && e.bandwidth > highest {
          assert narrow ==> reg.Known()[i].bandwidth < TWO_32;
          highest, best := Low32(e.bandwidth), i;
        }
      }
    }

    /** A path that avoids one end of the congested path by taking the healthy path's end instead. */
    predicate Detour(e: Sock, congested: Sock, healthy: Sock) {
      || (e.saddr == congested.saddr && e.daddr == healthy.daddr)
      || (e.daddr == congested.daddr && e.saddr == healthy.saddr)
    }

    method MarkDetours(congested: Sock, healthy: Sock)
      requires Valid()
      modifies reg.skList
      ensures Valid() && |reg.Known()| == |old(reg.Known())|
      ensures forall i :: 0 <= i < reg.skListSize ==>
                reg.Known()[i] == var e := old(reg.Known())[i];
                  if !e.cong && Detour(e.sk, congested, healthy) then e.(sub := true) else e
    {
      ghost var was := reg.Known();
      for i := 0 to reg.skListSize
        invariant Valid() && reg.skListSize == |was|
        invariant forall k :: 0 <= k < i ==>
                    reg.skList[k] == if !was[k].cong && Detour(was[k].sk, congested, healthy)
                                     then was[k].(sub := true) else was[k]
        invariant forall k :: i <= k < |was| ==> reg.skList[k] == was[k]
      {
        if !reg.skList[i].cong && Detour(reg.skList[i].sk, congested, healthy) {
          reg.skList[i] := reg.skList[i].(sub := true);
        }
      }
    }

    /**
     `rmptcp_adaptPath`: the substitutes are the paths from one end of the first congested path `c` to the other end
     of the healthy path `best` with the highest bandwidth; they exist in the congestion state alone.
     */
    method AdaptPath() returns (ghost c: nat, ghost best: nat)
      requires Valid() && BitsOk()
      modifies reg.skList
      ensures Valid() && |reg.Known()| == |old(reg.Known())|
      ensures Bits(reg.Known(), state == Congestion, state == Congestion)
      ensures c < MAX_NUM_RED_SK && best < MAX_NUM_RED_SK
      ensures congFlag && state == Congestion && (exists i :: 0 <= i < reg.skListSize && old(reg.Known())[i].cong) ==>
                c < reg.skListSize && old(reg.Known())[c].cong && forall i :: 0 <= i < c ==> !old(reg.Known())[i].cong
      ensures congFlag && state == Congestion
              && (forall i :: 0 <= i < reg.skListSize ==> old(reg.Known())[i].bandwidth < TWO_32) ==>
                forall i :: 0 <= i < reg.skListSize && old(reg.Known())[i].bandwidth > 0
                            && old(reg.Known())[i].enabled && !old(reg.Known())[i].cong ==>
                  && best < reg.skListSize && old(reg.Known())[best].enabled && !old(reg.Known())[best].cong
                  && old(reg.Known())[i].bandwidth <= old(reg.Known())[best].bandwidth
      ensures forall i :: 0 <= i < reg.skListSize ==>
                var e, from, to := old(reg.Known())[i], old(reg.skList[c]).sk, old(reg.skList[best]).sk;
                reg.Known()[i] ==
                  if congFlag && state == Recovery then e.(sub := false)
                  else if congFlag && state == Congestion && !e.cong
                          && ((e.sk.saddr == from.saddr && e.sk.daddr == to.daddr)
                              || (e.sk.daddr == from.daddr && e.sk.saddr == to.saddr)) then e.(sub := true)
                  else e
    {
      ghost var was := reg.Known();
      c, best := 0, 0;
      if congFlag && state == Congestion {
        var cong := FirstCongested();
        var healthy := BestHealthy();
        c, best := cong, healthy;
        MarkDetours(reg.skList[cong].sk, reg.skList[healthy].sk);
      } else if congFlag && state == Recovery {
        for i := 0 to reg.skListSize
          invariant Valid() && reg.skListSize == |was|
          invariant forall k :: 0 <= k < i ==> reg.skList[k] == was[k].(sub := false)
          invariant forall k :: i <= k < |was| ==> reg.skList[k] == was[k]
        {
          reg.skList[i] := reg.skList[i].(sub := false);
        }
      }
    }

    /** `rmptcp_update_sk_list`: unknown usable sockets enter the register, unless congested. */
    method UpdateList(now: int, newcomers: seq<Sock>, mask: nat -> bool)
      requires Valid() && BitsOk()
      modifies reg`skListSize, reg`numEnabled, reg.skList
      ensures Valid() && BitsOk()
      ensures if state == Congestion then reg.Known() == old(reg.Known())
              else reg.numEnabled == CountEnabled(reg.Known())
    {
      if state == Congestion {
        return;
      }
      for k := 0 to |newcomers|
        invariant Valid() && BitsOk()
      {
        if !newcomers[k].blocked && reg.skListSize < MAX_NUM_RED_SK {
          var known := Knows(newcomers[k].id);
          if !known {
            ghost var p := reg.InsertSk(now, newcomers[k]);
          }
        }
      }
      reg.SetEnableFlag(mask);
    }

    method Knows(id: nat) returns (known: bool)
      requires Valid()
      ensures known <==> exists i :: 0 <= i < reg.skListSize && reg.Known()[i].sk.id == id
    {
      for i := 0 to reg.skListSize
        invariant forall k :: 0 <= k < i ==> reg.skList[k].sk.id != id
      {
        if reg.skList[i].sk.id == id {
          assert reg.Known()[i].sk.id == id;
          return true;
        }
      }
      return false;
    }

    /** The bandwidth means of `rmptcp_update_bw`, as measured. */
    method SetBandwidth(measured: nat -> nat)
      requires Valid() && BitsOk()
      modifies reg.skList
      ensures Valid() && BitsOk()
    {
      ghost var was := reg.Known();
      for i := 0 to reg.skListSize
        invariant Valid() && reg.skListSize == |was|
        invariant forall k :: 0 <= k < i ==> reg.skList[k] == was[k].(bandwidth := measured(was[k].sk.id))
        invariant forall k :: i <= k < |was| ==> reg.skList[k] == was[k]
      {
        reg.skList[i] := reg.skList[i].(bandwidth := measured(reg.skList[i].sk.id));
      }
    }

    /** `rmptcp_reset_meta` */
    method NewMeta()
      requires Valid()
      modifies this, reg
      ensures Valid() && BitsOk() && state == Open && utilMean == utilBefore == 0 && inTimeCnt == old(inTimeCnt)
      ensures reg.qActual == reg.qTarget == reg.sendPeriodMax == 0
      ensures reg.timeout == old(reg.timeout) && reg.timeoutStart == old(reg.timeoutStart)
      ensures reg.maxSkNoshow == old(reg.maxSkNoshow)
    {
      state, congFlag, periodMaxBefore := Open, false, 50000;
      utilMean, utilMeanMean, utilBefore := 0, 0, 0;
      reg.skListSize, reg.numEnabled, reg.sendPeriodMax := 0, 0, 0;
      reg.qControl, reg.qActual, reg.qTarget := 0, 0, 0;
    }

    /** The part of a call before the subflows are chosen, up to and with `rmptcp_adaptPath`. */
    method Prepare(inp: Input)
      requires Valid() && BitsOk() && forall id :: Kept(inp.seen, id)
      modifies this, reg, reg.skList
      ensures Valid() && Bits(reg.Known(), state == Congestion, state == Congestion)
      ensures if inp.newMeta then state == Open else
                state == old(state) && lastCa == old(lastCa) && startRecovery == old(startRecovery)
      ensures reg.timeout == old(reg.timeout) && reg.timeoutStart == old(reg.timeoutStart)
      ensures reg.maxSkNoshow == old(reg.maxSkNoshow) && inTimeCnt == old(inTimeCnt)
      ensures reg.sendPeriodMax == if inp.newMeta then 0 else old(reg.sendPeriodMax)
      ensures reg.qActual == if inp.newMeta then 0 else old(reg.qActual)
      ensures reg.qTarget == if inp.update then Max(quota, 100) else if inp.newMeta then 0 else old(reg.qTarget)
      ensures !inp.update && !inp.newMeta ==> reg.numEnabled == old(reg.numEnabled)
      ensures utilMean == if inp.update then inp.utilMean else if inp.newMeta then 0 else old(utilMean)
      ensures utilBefore == if inp.newMeta then 0 else old(utilBefore)
    {
      hide SomeMain, CountEnabled, UncongestedMain, AfterMark, LowestRtt, HighestBw;
      if inp.newMeta {
        NewMeta();
      }
      reg.Observe(inp.seen);
      if inp.update {
        UpdateList(inp.now, inp.newcomers, inp.mask);
        reg.qTarget := Max(quota, 100);
        SetBandwidth(inp.bandwidth);
        utilMean, utilMeanMean := inp.utilMean, inp.utilMeanMean;
        ghost var _, _ := reg.UpdateMain(state == Recovery, state == Congestion, ratio);
      }
      var _, _ := AdaptPath();
    }

    /** A kick changes no socket state, so the worst event stays the same. */
    lemma KickEvents(s: seq<RedSk>, t: seq<RedSk>, event: nat)
      requires LatestKicked(s, t) && WorstEvent(t, event)
      ensures WorstEvent(s, event)
    {
      forall e | e in s && EventOn(e) ensures e.sk.caState <= event {
        var i :| 0 <= i < |s| && s[i] == e;
        assert SameBut(s, t, i) && t[i] in t;
      }
      if event > 0 {
        var i :| 0 <= i < |t| && EventOn(t[i]) && t[i].sk.caState == event;
        assert SameBut(s, t, i) && s[i] in s;
      }
    }

    /** `rmptcp_check_avail_sk`: the timeout flag, and the two bits that it leaves alone. */
    method Choose(now: int) returns (go: bool, ghost asked: nat)
      requires Valid() && Bits(reg.Known(), state == Congestion, state == Congestion)
      modifies reg, reg.skList
      ensures Valid() && Bits(reg.Known(), state == Congestion, state == Congestion)
      ensures asked == Clamp(Control(old(reg.qActual), old(reg.qTarget)), reg.numEnabled)
      ensures reg.numEnabled == old(reg.numEnabled)
      ensures var s := Scan(old(reg.Known()), now, old(reg.maxSkNoshow));
              var met := Count(s, false) >= asked && Count(s, true) > 0;
              var late := old(reg.Waited(now)) > old(reg.Deadline(varPeriod, state == Congestion));
              && go == (Count(s, false) > 0 && (met || late))
              && (reg.timeout ==
                    if !met && late && state != Congestion then Low32(old(reg.Waited(now))) else old(reg.timeout))
              && forall event :: WorstEvent(reg.Known(), event) ==> WorstEvent(s, event)
    {
      hide Scan, LatestKicked, Bits, Count, Clamp, Control, WorstEvent;
      ghost var was := reg.Known();
      ghost var noshow := reg.maxSkNoshow;
      ScanBits(was, now, noshow, state == Congestion, state == Congestion);
      reg.qControl := Control(reg.qActual, reg.qTarget);
      asked := Clamp(reg.qControl, reg.numEnabled);
      go := reg.CheckAvail(now, varPeriod, kick, state == Congestion);
      if LatestKicked(Scan(was, now, noshow), reg.Known()) {
        KickBits(Scan(was, now, noshow), reg.Known(), state == Congestion, state == Congestion);
        forall event | WorstEvent(reg.Known(), event) ensures WorstEvent(Scan(was, now, noshow), event) {
          KickEvents(Scan(was, now, noshow), reg.Known(), event);
        }
      }
    }

    /** The part of a call after the subflows are chosen: the periods, the failure machine and the sending. */
    method Act(inp: Input, ghost before: int) returns (ghost c: Call)
      requires Valid() && before <= inp.now && Bits(reg.Known(), state == Congestion, state == Congestion)
      modifies this, reg, reg.skList
      ensures Valid() && BitsOk() && reg.timeout == 0 && reg.timeoutStart == 0 && reg.numEnabled == old(reg.numEnabled)
      ensures c.timeout == old(reg.timeout) && c.periodMax == inp.periodMax
      ensures WorstEvent(old(reg.Known()), c.event)
      ensures c.collapsed == (old(utilMean) < Low64(old(utilBefore) * collapseTh) / 100)
      ensures c.inTime == (old(inTimeCnt) + (if c.timeout == 0 && old(state) == Timeout then 1 else 0) >= numInTime)
      ensures StepOk(old(View(before, false, None)), View(inp.now, false, Some(c)), Hold())
    {
      hide Bits, WorstEvent, StepOk;
      if reg.timeout == 0 && state == Timeout {
        inTimeCnt := inTimeCnt + 1;
      }
      reg.sendPeriodMax, reg.timeoutStart := inp.periodMax, 0;
      c := CheckFailure(inp.now, before);
      reg.timeout := 0;
      SendBits(reg.Known(), inp.now, state == Congestion, state == Congestion || (state == Recovery && congFlag));
      var _, _ := reg.SendSkb(inp.now);
    }

    /**
     `rmptcp_send_next_segment`, with adaptive paths on and the path checker off.  `adapted` is the register when the
     subflows are chosen and `during` the state then.  A segment that has waited longer than the largest sending
     period plus its margin, with fewer subflows usable than asked for, is a timeout, and what the failure machine
     does on a timeout, on the worst socket event and on a collapse is stated outright.
     */
    method SendNextSegment(inp: Input, ghost before: int)
      returns (ghost adapted: seq<RedSk>, ghost during: State, ghost asked: nat, ghost call: Option<Call>)
      requires Valid() && BitsOk() && before <= inp.now && forall id :: Kept(inp.seen, id)
      modifies this, reg, reg.skList
      ensures Valid() && BitsOk()
      ensures Bits(adapted, during == Congestion, during == Congestion)
      ensures during == if inp.newMeta then Open else old(state)
      ensures asked == Clamp(Control(if inp.newMeta then 0 else old(reg.qActual),
                                     if inp.update then Max(quota, 100) else
                                     if inp.newMeta then 0 else old(reg.qTarget)), reg.numEnabled)
      ensures !inp.update && !inp.newMeta ==> reg.numEnabled == old(reg.numEnabled)
      ensures var s := Scan(adapted, inp.now, old(reg.maxSkNoshow));
              var met := Count(s, false) >= asked && Count(s, true) > 0;
              var waited := if old(reg.timeoutStart) == 0 then 0
                            else TruncDiv(inp.now - old(reg.timeoutStart), 1000);
              var period := if inp.newMeta then 0 else old(reg.sendPeriodMax);
              var late := waited > TruncDiv((100 + varPeriod) * (if during == Congestion then 2 else 1) * period, 100);
              var timeout := if !met && late && during != Congestion then Low32(waited) else old(reg.timeout);
              && (call.Some? <==> Count(s, false) > 0 && (met || late))
              && (if call.Some? then
                    call.value.timeout == timeout && WorstEvent(s, call.value.event)
                    && reg.timeout == 0 && reg.timeoutStart == 0
                  else reg.timeout == timeout)
      ensures call.Some? ==>
                && call.value.periodMax == inp.periodMax
                && call.value.collapsed ==
                     ((if inp.update then inp.utilMean else if inp.newMeta then 0 else old(utilMean)) <
                      Low64((if inp.newMeta then 0 else old(utilBefore)) * collapseTh) / 100)
                && call.value.inTime ==
                     (old(inTimeCnt) + (if call.value.timeout == 0 && during == Timeout then 1 else 0) >= numInTime)
      ensures StepOk(old(View(before, false, None)), View(inp.now, inp.newMeta, call), Hold())
      ensures call.None? ==> state == during
      ensures call.Some? && during in {Open, Recovery} && call.value.timeout > 0 ==>
                state == if call.value.timeout > 2 * inp.periodMax then Congestion else Timeout
      ensures call.Some? && during == Timeout && call.value.timeout > 0 ==> state == Congestion
      ensures call.Some? && during == Timeout && call.value.timeout == 0 && call.value.inTime ==> state == Recovery
      ensures during != Congestion && (during == Timeout ==> call.Some? && !call.value.inTime) ==>
                (call.Some? && call.value.timeout == 0 && call.value.event >= TCP_CA_RECOVERY && call.value.collapsed
                 ==> state == Congestion)
      ensures call.Some? && during == Congestion ==>
                state == if old(lastCa) + Hold() < inp.now then Recovery else Congestion
    {
      hide Scan, Count, Clamp, Control, Bits, WorstEvent, Due, Marked;
      Prepare(inp);
      adapted, during, call := reg.Known(), state, None;
      congFlag := false;
      var go;
      go, asked := Choose(inp.now);
      if !go {
        return;
      }
      ghost var c := Act(inp, before);
      call := Some(c);
    }
  }

  ghost predicate Clocked(inputs: seq<Input>) {
    && (forall i :: 0 <= i < |inputs| ==> inputs[i].now >= 0 && forall id :: Kept(inputs[i].seen, id))
    && (forall i, j :: 0 <= i < j < |inputs| ==> inputs[i].now <= inputs[j].now)
  }

  /**
   Every run, whatever the measurements and the order of events: its history is one that
   `BackToOpenTakesThreeHolds`, `SecondTimeoutIsCongestion` and `QuietRunOpens` speak about, and the bits of the
   subflows never disagree with the state of the connection.
   */
  method Run(csHold: nat, varPeriod: int, numInTime: nat, ratio: nat, kick: bool, collapseTh: nat, quota: nat,
             inputs: seq<Input>) returns (m: Monitor, ghost h: seq<Snap>)
    requires Clocked(inputs)
    ensures m.Valid() && m.BitsOk()
    ensures |h| == |inputs| + 1 && h[0] == Snap(Open, 0, 0, 0, false, None)
    ensures History(h, csHold * NS_PER_MS)
    ensures h[|inputs|].state == m.state
    ensures forall i :: 0 <= i < |inputs| ==>
              && h[i + 1].now == inputs[i].now && h[i + 1].reset == inputs[i].newMeta
              && (h[i + 1].call.Some? ==> h[i + 1].call.value.periodMax == inputs[i].periodMax)
  {
    m := new Monitor(csHold, varPeriod, numInTime, ratio, kick, collapseTh, quota);
    h := [m.View(0, false, None)];
    for i := 0 to |inputs|
      invariant m.Valid() && m.BitsOk() && m.csHold == csHold && fresh(m) && fresh(m.reg) && fresh(m.reg.skList)
      invariant |h| == i + 1 && History(h, csHold * NS_PER_MS) && h[0] == Snap(Open, 0, 0, 0, false, None)
      invariant h[i] == m.View(h[i].now, h[i].reset, h[i].call)
      invariant h[i].now == if i == 0 then 0 else inputs[i - 1].now
      invariant forall k :: 0 <= k < i ==>
                  && h[k + 1].now == inputs[k].now && h[k + 1].reset == inputs[k].newMeta
                  && (h[k + 1].call.Some? ==> h[k + 1].call.value.periodMax == inputs[k].periodMax)
    {
      ghost var last := h[i];
      assert i > 0 ==> inputs[i - 1].now <= inputs[i].now;
      ghost var _, _, _, call := m.SendNextSegment(inputs[i], last.now);
      ghost var next := m.View(inputs[i].now, inputs[i].newMeta, call);
      StepIgnoresOldReset(last, next, m.Hold());
      ExtendHistory(h, next, m.Hold());
      h := h + [next];
    }
  }

  lemma StepIgnoresOldReset(a: Snap, b: Snap, hold: nat)
    requires StepOk(a.(reset := false, call := None), b, hold)
    ensures StepOk(a, b, hold)
  {
  }

  lemma ExtendHistory(h: seq<Snap>, next: Snap, hold: nat)
    requires |h| > 0 && History(h, hold) && StepOk(h[|h| - 1], next, hold)
    ensures History(h + [next], hold)
  {
    var t := h + [next];
    forall i | 0 < i < |t| ensures StepOk(t[i - 1], t[i], hold) {
      if i < |h| {
        assert StepOk(h[i - 1], h[i], hold);
      }
    }
  }
}
