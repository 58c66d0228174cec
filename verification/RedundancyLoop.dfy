/**
 The redundancy controller: measured redundancy `q_actual` (in percent) is steered toward `q_target` by
 sending each segment on one of two numbers of subflows.
 */
module RedundancyLoop {
  import opened Common
  import opened SeqArith

  /** `rmptcp_setQActual`: the running mean after a send on `used` subflows, in C's `int` arithmetic. */
  function NextActual(actual: nat, used: nat): (r: nat)
    requires actual < TWO_31 && used < 0x1_0000
  {
    if actual == 0 then used * 100
    else
      var err := ToInt32(used * 100 - actual);
      if 0 < err < 16 then actual + 1
      else if -16 < err < 0 then actual - 1
      else actual + TruncDiv(err, 16)
  }

  /** `rmptcp_setQ`: the two numbers of subflows around the target. */
  function ControlLow(target: nat): nat {
    target / 100
  }

  function ControlHigh(target: nat): nat
    requires target > 0
  {
    (target - 1) / 100 + 1
  }

  /** `rmptcp_calc_controlQ` */
  function Control(actual: nat, target: nat): (c: nat)
    ensures c >= 1
  {
    var c := if actual >= target then ControlLow(target) else ControlHigh(target);
    if c < 1 then 1 else c
  }

  /** The clamp of `rmptcp_check_avail_sk`: no more than the enabled subflows, but at least one. */
  function Clamp(control: nat, enabled: nat): (c: nat)
    ensures c >= 1
  {
    var c := if control > enabled then enabled else control;
    if c < 1 then 1 else c
  }

  predicate Setting(actual: nat, target: nat, enabled: nat) {
    actual < TWO_31 && 100 <= target < TWO_31 && 1 <= enabled <= MAX_NUM_RED_SK
  }

  /** One send that uses exactly the number of subflows asked for. */
  function LoopStep(actual: nat, target: nat, enabled: nat): nat
    requires Setting(actual, target, enabled)
  {
    NextActual(actual, Clamp(Control(actual, target), enabled))
  }

  /** What the loop can reach: the target, or every enabled subflow when the target asks for more. */
  function Goal(target: nat, enabled: nat): nat {
    if target > 100 * enabled then 100 * enabled else target
  }

  predicate InBand(actual: int, goal: int) {
    goal - 6 <= actual <= goal + 5
  }

  /** Above the band the mean falls, but not below it; below it the mean rises, but not above; inside it stays. */
  lemma StepApproaches(actual: nat, target: nat, enabled: nat)
    requires Setting(actual, target, enabled) && actual > 0
    ensures var goal, next := Goal(target, enabled), LoopStep(actual, target, enabled);
            && (actual > goal + 5 ==> goal - 6 <= next < actual)
            && (actual < goal - 6 ==> actual < next <= goal + 5)
            && (InBand(actual, goal) ==> InBand(next, goal))
    ensures 0 < LoopStep(actual, target, enabled) < TWO_31
  {
  }

  /** A goal that is a number of subflows is never overshot, and kept once reached. */
  lemma StepApproachesExactly(actual: nat, target: nat, enabled: nat)
    requires Setting(actual, target, enabled) && actual > 0 && Goal(target, enabled) % 100 == 0
    ensures var goal, next := Goal(target, enabled), LoopStep(actual, target, enabled);
            && (actual > goal ==> goal <= next < actual)
            && (actual < goal ==> actual < next <= goal)
            && (actual == goal ==> next == goal)
  {
    if target <= 100 * enabled {
      assert (target - 1) / 100 + 1 == target / 100;
    }
  }

  /** The mean after `n` sends. */
  function Iterate(actual: nat, target: nat, enabled: nat, n: nat): (r: nat)
    requires Setting(actual, target, enabled) && actual > 0
    ensures 0 < r < TWO_31
    decreases n
  {
    if n == 0 then actual
    else
      StepApproaches(actual, target, enabled);
      Iterate(LoopStep(actual, target, enabled), target, enabled, n - 1)
  }

  function Distance(actual: nat, goal: nat): nat {
    if actual < goal then goal - actual else actual - goal
  }

  /**
   From any non-zero start the mean is in the band after at most |start - goal| sends, and stays there:
   the statement holds for every later `n`.
   */
  lemma {:induction false} Converges(actual: nat, target: nat, enabled: nat, n: nat)
    requires Setting(actual, target, enabled) && actual > 0
    requires n >= Distance(actual, Goal(target, enabled)) || InBand(actual, Goal(target, enabled))
    ensures InBand(Iterate(actual, target, enabled, n), Goal(target, enabled))
    decreases n
  {
    if n > 0 {
      StepApproaches(actual, target, enabled);
      Converges(LoopStep(actual, target, enabled), target, enabled, n - 1);
    }
  }

  /** On a multiple of 100 it settles exactly; so it does on all enabled subflows when the target is out of reach. */
  lemma {:induction false} ConvergesExactly(actual: nat, target: nat, enabled: nat, n: nat)
    requires Setting(actual, target, enabled) && actual > 0
    requires target % 100 == 0 || target > 100 * enabled
    requires n >= Distance(actual, Goal(target, enabled))
    ensures Iterate(actual, target, enabled, n) == Goal(target, enabled)
    decreases n
  {
    if n > 0 {
      StepApproaches(actual, target, enabled);
      StepApproachesExactly(actual, target, enabled);
      ConvergesExactly(LoopStep(actual, target, enabled), target, enabled, n - 1);
    }
  }

  /** From zero the first send already gives a non-zero mean, less than one subflow above the goal. */
  lemma ZeroStart(target: nat, enabled: nat)
    requires Setting(0, target, enabled)
    ensures Goal(target, enabled) <= LoopStep(0, target, enabled) <= Goal(target, enabled) + 99
  {
  }

  /** The band cannot be narrowed: both of its ends are reached from inside it. */
  lemma BandIsTight()
    ensures exists a: nat :: InBand(a, 199) && 0 < a < TWO_31 && LoopStep(a, 199, 24) == 199 - 6
    ensures exists a: nat :: InBand(a, 101) && 0 < a < TWO_31 && LoopStep(a, 101, 24) == 101 + 5
  {
    assert LoopStep(199, 199, 24) == 193;
    assert LoopStep(100, 101, 24) == 106;
  }

  /** A target that is no multiple of 100 is never settled on: the mean always moves again. */
  lemma NeverSettlesBetween(actual: nat, target: nat, enabled: nat)
    requires Setting(actual, target, enabled) && actual > 0
    requires target % 100 != 0 && target < 100 * enabled
    ensures LoopStep(actual, target, enabled) != actual
  {
  }
}
