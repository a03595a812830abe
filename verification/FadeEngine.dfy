/** The fade engine of apps/pwm5ch/pwm5ch_ctrl.c: five duty values move towards their targets
    by at most 20 ticks per timer callback, and the timer stops when all have arrived. */
module FadeEngine {
  const PWM_MAX_TICK: nat := 2000
  const LEVEL_MAX: nat := 254
  const STEP: nat := 20
  const CHANNELS: nat := 5

  /** LEVEL_TO_TICK. */
  function LevelToTick(level: nat): nat {
    (level * PWM_MAX_TICK + 127) / 254
  }

  datatype Fade = Fade(cur: seq<nat>, target: seq<nat>, armed: bool)

  /** All off, nothing to do. */
  const DARK: Fade := Fade([0, 0, 0, 0, 0], [0, 0, 0, 0, 0], false)

  /** One channel in one callback. */
  function Toward(cur: nat, target: nat): nat {
    if cur < target then cur + (if target - cur < STEP then target - cur else STEP)
    else cur - (if cur - target < STEP then cur - target else STEP)
  }

  ghost predicate Sized(f: Fade) {
    |f.cur| == |f.target| == CHANNELS
  }

  ghost predicate AtTarget(f: Fade)
    requires Sized(f)
  {
    forall i :: 0 <= i < CHANNELS ==> f.cur[i] == f.target[i]
  }

  /** pwm_fade_cb. */
  ghost function FadeStep(f: Fade): (r: Fade)
    requires Sized(f)
    ensures Sized(r) && r.target == f.target
  {
    f.(cur := seq(CHANNELS, i requires 0 <= i < CHANNELS => Toward(f.cur[i], f.target[i])),
       armed := f.armed && !AtTarget(f))
  }

  /** New targets, and pwm_fade_kick. */
  function Retarget(f: Fade, target: seq<nat>): Fade {
    f.(target := target, armed := true)
  }

  // ----- levels and ticks -----

  /** Every level has its own duty, within half a tick of exact scaling. */
  lemma TicksAreFaithful(a: nat, b: nat)
    requires a <= LEVEL_MAX && b <= LEVEL_MAX
    ensures LevelToTick(a) <= PWM_MAX_TICK
    ensures a < b ==> LevelToTick(a) < LevelToTick(b)
    ensures -127 <= 254 * LevelToTick(a) - PWM_MAX_TICK * a <= 127
    ensures LevelToTick(0) == 0 && LevelToTick(LEVEL_MAX) == PWM_MAX_TICK
  {
  }

  // ----- convergence -----

  /** Callbacks until a channel arrives. */
  function CallbacksLeft(cur: nat, target: nat): nat {
    (if cur < target then target - cur + STEP - 1 else cur - target + STEP - 1) / STEP
  }

  /** A callback takes a channel closer, never past its target. */
  lemma TowardFollows(cur: nat, target: nat)
    ensures var c := Toward(cur, target);
            && (cur <= target ==> cur <= c <= target) && (target <= cur ==> target <= c <= cur)
            && CallbacksLeft(c, target)
                == (if CallbacksLeft(cur, target) == 0 then 0 else CallbacksLeft(cur, target) - 1)
            && (CallbacksLeft(cur, target) == 0 <==> cur == target)
  {
  }

  function Max(a: nat, b: nat): nat {
    if a < b then b else a
  }

  /** Callbacks until all channels have arrived. */
  ghost function Remaining(f: Fade): (n: nat)
    requires Sized(f)
    ensures forall i :: 0 <= i < CHANNELS ==> CallbacksLeft(f.cur[i], f.target[i]) <= n
    ensures exists i :: 0 <= i < CHANNELS && CallbacksLeft(f.cur[i], f.target[i]) == n
  {
    Max(Max(Max(Max(CallbacksLeft(f.cur[0], f.target[0]), CallbacksLeft(f.cur[1], f.target[1])),
                CallbacksLeft(f.cur[2], f.target[2])), CallbacksLeft(f.cur[3], f.target[3])),
        CallbacksLeft(f.cur[4], f.target[4]))
  }

  lemma StepFollows(f: Fade)
    requires Sized(f)
    ensures AtTarget(f) <==> Remaining(f) == 0
    ensures Remaining(FadeStep(f)) == if Remaining(f) == 0 then 0 else Remaining(f) - 1
  {
    forall i | 0 <= i < CHANNELS
      ensures FadeStep(f).cur[i] == Toward(f.cur[i], f.target[i])
      ensures CallbacksLeft(FadeStep(f).cur[i], f.target[i])
           == if CallbacksLeft(f.cur[i], f.target[i]) == 0 then 0 else CallbacksLeft(f.cur[i], f.target[i]) - 1
      ensures CallbacksLeft(f.cur[i], f.target[i]) == 0 <==> f.cur[i] == f.target[i]
    {
      TowardFollows(f.cur[i], f.target[i]);
    }
    hide CallbacksLeft, Toward, Max;
    var d := Remaining(f);
    if d == 0 {
      assert forall i :: 0 <= i < CHANNELS ==> CallbacksLeft(f.cur[i], f.target[i]) == 0;
    }
  }

  ghost function Callbacks(f: Fade, n: nat): (r: Fade)
    requires Sized(f)
    ensures Sized(r)
  {
    if n == 0 then f else FadeStep(Callbacks(f, n - 1))
  }

  /** After the last retarget the timer runs for exactly one callback more than the channel
      farthest away needs, at most 101 in all; then every channel is at its target. */
  lemma {:induction false} StopsInTime(f: Fade, n: nat)
    requires Sized(f) && f.armed
    ensures var r := Callbacks(f, n);
            && (r.armed <==> n <= Remaining(f))
            && Remaining(r) == (if n <= Remaining(f) then Remaining(f) - n else 0)
            && (n >= Remaining(f) ==> AtTarget(r)) && r.target == f.target
  {
    hide FadeStep, Remaining;
    StepFollows(f);
    if n > 0 {
      StopsInTime(f, n - 1);
      var before := Callbacks(f, n - 1);
      StepFollows(before);
      StepFollows(FadeStep(before));
      assert FadeStep(before).armed == (before.armed && !AtTarget(before)) by { StepArms(before); }
    }
  }

  lemma StepArms(f: Fade)
    requires Sized(f)
    ensures FadeStep(f).armed == (f.armed && !AtTarget(f))
  {
  }

  ghost predicate InRange(f: Fade) {
    Sized(f) && forall i :: 0 <= i < CHANNELS ==> f.cur[i] <= PWM_MAX_TICK && f.target[i] <= PWM_MAX_TICK
  }

  lemma AtMostHundred(f: Fade)
    requires InRange(f)
    ensures Remaining(f) <= 100
  {
  }

  /** Along the way each channel stays between where it was and its target, nearer and
      nearer. */
  lemma {:induction false} NeverOvershoots(f: Fade, n: nat, i: nat)
    requires Sized(f) && i < CHANNELS
    ensures var c := Callbacks(f, n).cur[i];
            && (f.cur[i] <= f.target[i] ==> f.cur[i] <= c <= f.target[i])
            && (f.target[i] <= f.cur[i] ==> f.target[i] <= c <= f.cur[i])
            && Callbacks(f, n).target == f.target
  {
    if n > 0 {
      NeverOvershoots(f, n - 1, i);
      TowardFollows(Callbacks(f, n - 1).cur[i], f.target[i]);
      hide Toward;
    }
  }

  // ----- what is kept whatever happens -----

  /** Duties and targets are in range, and a stopped timer means that all have arrived. */
  ghost predicate Inv(f: Fade) {
    InRange(f) && (!f.armed ==> AtTarget(f))
  }

  lemma FadeKeeps(f: Fade)
    requires Inv(f) && f.armed
    ensures Inv(FadeStep(f))
  {
  }

  lemma RetargetKeeps(f: Fade, target: seq<nat>)
    requires Inv(f) && |target| == CHANNELS && forall i :: 0 <= i < CHANNELS ==> target[i] <= PWM_MAX_TICK
    ensures Inv(Retarget(f, target))
  {
  }

  // ----- the firmware -----

  class Engine {
    const curTick: array<nat>
    const targetTick: array<nat>
    var armed: bool

    ghost predicate Valid()
      reads this
    {
      curTick.Length == targetTick.Length == CHANNELS && curTick != targetTick
    }

    ghost function Value(): (f: Fade)
      requires Valid()
      reads this, curTick, targetTick
      ensures Sized(f)
    {
      Fade(curTick[..], targetTick[..], armed)
    }

    constructor ()
      ensures Valid() && Value() == DARK && Inv(Value()) && fresh(curTick) && fresh(targetTick)
    {
      curTick := new nat[CHANNELS](_ => 0);
      targetTick := new nat[CHANNELS](_ => 0);
      armed := false;
      new;
      assert curTick[..] == DARK.cur && targetTick[..] == DARK.target;
    }

    /** pwm_fade_cb; the timer runs on when `again`. */
    method FadeCallback() returns (again: bool)
      requires Valid() && armed
      modifies this, curTick
      ensures Valid() && Value() == FadeStep(old(Value())) && again == armed
    {
      var anyActive := false;
      ghost var before := Value();
      var i := 0;
      while i < CHANNELS
        invariant 0 <= i <= CHANNELS && armed && targetTick[..] == before.target
        invariant forall k :: 0 <= k < i ==> curTick[k] == Toward(before.cur[k], before.target[k])
        invariant forall k :: i <= k < CHANNELS ==> curTick[k] == before.cur[k]
        invariant anyActive <==> exists k :: 0 <= k < i && before.cur[k] != before.target[k]
      {
        if curTick[i] != targetTick[i] {
          if curTick[i] < targetTick[i] {
            var diff := targetTick[i] - curTick[i];
            curTick[i] := curTick[i] + if diff < STEP then diff else STEP;
          } else {
            var diff := curTick[i] - targetTick[i];
            curTick[i] := curTick[i] - if diff < STEP then diff else STEP;
          }
          anyActive := true;
        }
        i := i + 1;
      }
      assert anyActive <==> !AtTarget(before);
      assert curTick[..] == FadeStep(before).cur;
      if !anyActive {
        armed := false;
      }
      again := armed;
      assert Value() == FadeStep(before);
    }
  }
}
