/** The callbacks of the dimmer as they are written, over arrays of channel records; each is
    proved to take exactly the step Dimmer gives for it. */
module DimmerDevice {
  import opened Words
  import opened FadeEngine
  import opened Dimmer

  datatype OnOffCommand = TurnOff | TurnOn | ToggleIt

  function Command(i: nat, cmd: OnOffCommand): Event {
    match cmd
    case TurnOff => Off(i)
    case TurnOn => On(i)
    case ToggleIt => Toggle(i)
  }

  class Device {
    const attrs: array<Channel>
    const moves: array<Move>
    const ramps: array<Ramp>
    const nv: array<Option<Channel>>
    const fade: Engine

    ghost predicate Valid()
      reads fade
    {
      attrs.Length == moves.Length == ramps.Length == nv.Length == COUNT && fade.Valid()
    }

    ghost function Value(): (st: State)
      requires Valid()
      reads attrs, moves, ramps, nv, fade, fade.curTick, fade.targetTick
      ensures Shaped(st)
    {
      State(attrs[..], moves[..], ramps[..], nv[..], fade.Value())
    }

    /** The device with nothing stored, before the start-up code runs. */
    constructor ()
      ensures Valid() && Value() == Booted(seq(COUNT, i => None)) && Dimmer.Inv(Value())
    {
      attrs := new Channel[COUNT](_ => DEFAULT);
      moves := new Move[COUNT](_ => Move(false, false, 0, false));
      ramps := new Ramp[COUNT](_ => Ramp(false, 0, 0, false));
      nv := new Option<Channel>[COUNT](_ => None);
      fade := new Engine();
      new;
      assert attrs[..] == Booted(seq(COUNT, i => None)).ch && nv[..] == seq(COUNT, i => None);
      assert moves[..] == seq(COUNT, i => Move(false, false, 0, false));
      assert ramps[..] == seq(COUNT, i => Ramp(false, 0, 0, false));
      BootedIsInv(seq(COUNT, i => None));
    }

    /** pwm_hw_apply. */
    method Apply(i: nat)
      requires Valid() && i < COUNT
      modifies fade, fade.targetTick
      ensures Valid() && Value() == HwApply(old(Value()), i)
      ensures Dimmer.Inv(old(Value())) ==> Dimmer.Inv(Value())
    {
      hide Dimmer.Inv, LevelToTick, Combined;
      if Dimmer.Inv(Value()) {
        HwApplyKeeps(Value(), i);
      }
      if i < CHANNELS {
        var tick := if attrs[i].onOff then LevelToTick(attrs[i].currentLevel) else 0;
        fade.targetTick[i] := tick;
      } else {
        var mst := attrs[MASTER];
        var k := 0;
        while k < CHANNELS
          invariant 0 <= k <= CHANNELS
          invariant forall j :: 0 <= j < k ==> fade.targetTick[j] == MasterTarget(attrs[..], j)
        {
          if !mst.onOff || !attrs[k].onOff {
            fade.targetTick[k] := 0;
          } else {
            fade.targetTick[k] := LevelToTick(Combined(attrs[k].currentLevel, mst.currentLevel));
          }
          k := k + 1;
        }
        assert i == MASTER;
      }
      fade.armed := true;
      assert fade.targetTick[..] == Targets(attrs[..], old(fade.targetTick[..]), i);
    }

    /** pwm_attrs_save. */
    method AttrsSave(i: nat)
      requires Valid() && i < COUNT
      modifies nv
      ensures Valid() && Value() == Save(old(Value()), i)
      ensures Dimmer.Inv(old(Value())) ==> Dimmer.Inv(Value())
    {
      hide Dimmer.Inv;
      if Dimmer.Inv(Value()) {
        SaveKeeps(Value(), i);
      }
      nv[i] := Some(attrs[i]);
    }

    method SetAttrs(i: nat, c: Channel)
      requires Valid() && i < COUNT
      modifies attrs
      ensures Valid() && Value() == SetChannel(old(Value()), i, c)
    {
      attrs[i] := c;
    }

    /** pwm_onOffCb. */
    method OnOff(i: nat, cmd: OnOffCommand)
      requires Valid() && i < COUNT
      modifies attrs, nv, fade, fade.targetTick
      ensures Valid()
      ensures Value() == Step(old(Value()), Command(i, cmd))
      ensures Dimmer.Inv(old(Value())) ==> Dimmer.Inv(Value())
    {
      hide Dimmer.Inv, HwApply, Save;
      if Dimmer.Inv(Value()) {
        StepKeeps(Value(), Command(i, cmd));
      }
      var c := attrs[i];
      match cmd {
        case TurnOff =>
          c := c.(onOff := false);
        case TurnOn =>
          c := c.(onOff := true);
          if c.onLevel != UNSET {
            c := c.(currentLevel := c.onLevel);
          }
        case ToggleIt =>
          c := c.(onOff := !c.onOff);
          if c.onOff && c.onLevel != UNSET {
            c := c.(currentLevel := c.onLevel);
          }
      }
      SetAttrs(i, c);
      Apply(i);
      AttrsSave(i);
    }

    /** level_move_stop. */
    method StopMove(i: nat)
      requires Valid() && i < COUNT
      modifies moves, nv
      ensures Valid() && Value() == MoveStop(old(Value()), i)
      ensures Dimmer.Inv(old(Value())) ==> Dimmer.Inv(Value())
    {
      hide Dimmer.Inv;
      if Dimmer.Inv(Value()) {
        MoveStopKeeps(Value(), i);
      }
      if moves[i].armed {
        moves[i] := moves[i].(armed := false);
        AttrsSave(i);
      }
    }

    /** level_move_start. */
    method StartMove(i: nat, up: bool, rate: byte, withOnOff: bool)
      requires Valid() && i < COUNT
      modifies attrs, moves, nv, fade, fade.targetTick
      ensures Valid() && Value() == MoveStart(old(Value()), i, up, rate, withOnOff)
      ensures Dimmer.Inv(old(Value())) ==> Dimmer.Inv(Value())
    {
      hide Dimmer.Inv, HwApply, MoveStop, MoveMs;
      if Dimmer.Inv(Value()) {
        MoveStartKeeps(Value(), i, up, rate, withOnOff);
      }
      StopMove(i);
      if withOnOff && up {
        SetAttrs(i, attrs[i].(onOff := true));
        Apply(i);
      }
      moves[i] := Move(true, up, MoveMs(rate), withOnOff);
    }

    /** level_move_cb; the timer runs on when `again`. */
    method MoveCallback(i: nat) returns (again: bool)
      requires Valid() && i < COUNT
      modifies attrs, moves, nv, fade, fade.targetTick
      ensures Valid() && Value() == MoveStep(old(Value()), i)
      ensures old(moves[i].armed) ==> again == moves[i].armed
      ensures Dimmer.Inv(old(Value())) ==> Dimmer.Inv(Value())
    {
      hide Dimmer.Inv, MoveOne, MoveEnd;
      if Dimmer.Inv(Value()) {
        MoveStepKeeps(Value(), i);
      }
      var ctx := moves[i];
      assert Value().moves[i] == ctx;
      var lv := OneLevel(i);
      if (!ctx.up && lv <= 1) || (ctx.up && lv >= 254) {
        ghost var moved := Value();
        EndMove(i);
        MoveEndIs(moved, i);
        assert Value().moves[i] == moves[i];
        return false;
      }
      return true;
    }

    method OneLevel(i: nat) returns (lv: byte)
      requires Valid() && i < COUNT
      modifies attrs, fade, fade.targetTick
      ensures Valid() && Value() == MoveOne(old(Value()), i) && lv == Value().ch[i].currentLevel
    {
      hide HwApply;
      var ctx, c := moves[i], attrs[i];
      lv := c.currentLevel;
      var changed := false;
      if ctx.up {
        if lv < 254 {
          lv := lv + 1;
          changed := true;
        }
      } else {
        if lv > 1 {
          lv := lv - 1;
          changed := true;
        }
      }
      if changed {
        c := c.(currentLevel := lv);
        if ctx.withOnOff && lv > 0 {
          c := c.(onOff := true);
        }
        SetAttrs(i, c);
        Apply(i);
      }
    }

    method EndMove(i: nat)
      requires Valid() && i < COUNT
      modifies attrs, moves, nv, fade, fade.targetTick
      ensures Valid() && Value() == MoveEnd(old(Value()), i)
      ensures Dimmer.Inv(old(Value())) ==> Dimmer.Inv(Value())
    {
      hide Dimmer.Inv, HwApply, Save;
      if Dimmer.Inv(Value()) {
        MoveEndKeeps(Value(), i);
      }
      var ctx := moves[i];
      if ctx.withOnOff && !ctx.up {
        SetAttrs(i, attrs[i].(onOff := false));
        Apply(i);
      }
      AttrsSave(i);
      moves[i] := moves[i].(armed := false);
    }

    /** level_move2lv. */
    method StartRamp(i: nat, target: byte, time: nat, withOnOff: bool)
      requires Valid() && i < COUNT
      modifies attrs, ramps, nv, fade, fade.targetTick
      ensures Valid() && Value() == RampStart(old(Value()), i, target, time, withOnOff)
      ensures Dimmer.Inv(old(Value())) && target <= LEVEL_MAX &&
              (target != old(attrs[i].currentLevel) ==> target >= 1) ==>
                Dimmer.Inv(Value())
    {
      hide Dimmer.Inv, HwApply, Save, StepMs;
      if Dimmer.Inv(Value()) && target <= LEVEL_MAX && (target != attrs[i].currentLevel ==> target >= 1) {
        RampStartKeeps(Value(), i, target, time, withOnOff);
      }
      ramps[i] := ramps[i].(armed := false);
      var c := attrs[i];
      var diff: nat := if target > c.currentLevel then target - c.currentLevel else c.currentLevel - target;
      if diff == 0 {
        if withOnOff {
          SetAttrs(i, c.(onOff := target > 0));
          Apply(i);
          AttrsSave(i);
        }
        return;
      }
      var stepMs := StepMs(time, diff);
      if withOnOff && target > 0 {
        SetAttrs(i, c.(onOff := true));
        Apply(i);
      }
      ramps[i] := Ramp(true, target, stepMs, withOnOff);
    }

    /** level_move2lv_cb; the timer runs on when `again`. */
    method RampCallback(i: nat) returns (again: bool)
      requires Valid() && i < COUNT
      modifies attrs, ramps, nv, fade, fade.targetTick
      ensures Valid() && Value() == RampStep(old(Value()), i)
      ensures old(ramps[i].armed) ==> again == ramps[i].armed
      ensures Dimmer.Inv(old(Value())) && old(ramps[i].armed) ==> Dimmer.Inv(Value())
    {
      hide Dimmer.Inv, NudgeStep, Save, Nudged;
      if Dimmer.Inv(Value()) && ramps[i].armed {
        assert Value().ramps[i].armed;
        RampStepKeeps(Value(), i);
      }
      assert Value().ramps[i] == ramps[i];
      var target := ramps[i].target;
      var lv := Nudge(i);
      if lv == target {
        EndRamp(i);
        return false;
      }
      return true;
    }

    method Nudge(i: nat) returns (lv: byte)
      requires Valid() && i < COUNT
      modifies attrs, fade, fade.targetTick
      ensures Valid() && Value() == NudgeStep(old(Value()), i)
      ensures lv == Nudged(old(Value()).ch[i], old(Value()).ramps[i]).currentLevel
    {
      hide HwApply;
      var ctx, c := ramps[i], attrs[i];
      lv := c.currentLevel;
      if lv < ctx.target {
        lv := lv + 1;
      } else if lv > ctx.target {
        lv := lv - 1;
      }
      c := c.(currentLevel := lv);
      if ctx.withOnOff {
        c := c.(onOff := lv > 0);
      }
      SetAttrs(i, c);
      Apply(i);
    }

    method EndRamp(i: nat)
      requires Valid() && i < COUNT
      modifies ramps, nv
      ensures Valid() && Value() == RampEnd(old(Value()), i)
      ensures !ramps[i].armed
    {
      hide Save;
      AttrsSave(i);
      ramps[i] := ramps[i].(armed := false);
    }

    /** pwm_levelCtrlCb for Move to Level, with and without On/Off. */
    method MoveToLevelCommand(i: nat, level: byte, time: nat, withOnOff: bool)
      requires Valid() && i < COUNT
      modifies attrs, ramps, nv, fade, fade.targetTick
      ensures Valid() && Value() == Step(old(Value()), MoveToLevel(i, level, time, withOnOff))
      ensures Dimmer.Inv(old(Value())) ==> Dimmer.Inv(Value())
    {
      hide Dimmer.Inv, RampStart;
      if Dimmer.Inv(Value()) {
        StepKeeps(Value(), MoveToLevel(i, level, time, withOnOff));
      }
      var lv := level;
      if lv < 1 {
        lv := 1;
      }
      if lv > 254 {
        lv := 254;
      }
      StartRamp(i, lv, time, withOnOff);
    }

    /** pwm_levelCtrlCb for Step, with and without On/Off. */
    method StepCommand(i: nat, up: bool, size: byte, time: nat, withOnOff: bool)
      requires Valid() && i < COUNT
      modifies attrs, ramps, nv, fade, fade.targetTick
      ensures Valid() && Value() == Step(old(Value()), LevelStep(i, up, size, time, withOnOff))
      ensures Dimmer.Inv(old(Value())) ==> Dimmer.Inv(Value())
    {
      hide Dimmer.Inv, RampStart;
      if Dimmer.Inv(Value()) {
        StepKeeps(Value(), LevelStep(i, up, size, time, withOnOff));
      }
      var lv: int := attrs[i].currentLevel;
      if up {
        lv := if lv + size > 254 then 254 else lv + size;
      } else {
        lv := if lv < size + 1 then 1 else lv - size;
      }
      StartRamp(i, lv, time, withOnOff);
    }

    /** The fade timer; it runs on when `again`. */
    method FadeTimer() returns (again: bool)
      requires Valid() && fade.armed
      modifies fade, fade.curTick
      ensures Valid() && Value() == Step(old(Value()), FadeTick) && again == fade.armed
      ensures Dimmer.Inv(old(Value())) ==> Dimmer.Inv(Value())
    {
      hide Dimmer.Inv;
      if Dimmer.Inv(Value()) {
        StepKeeps(Value(), FadeTick);
      }
      again := fade.FadeCallback();
    }

    /** ir_ch_adjust and, for the master, ir_master_adjust. */
    method IrAdjustLevel(i: nat, percent: int)
      requires Valid() && i < COUNT
      modifies attrs, nv, fade, fade.targetTick
      ensures Valid() && Value() == Step(old(Value()), IrAdjust(i, percent))
      ensures Dimmer.Inv(old(Value())) ==> Dimmer.Inv(Value())
    {
      hide Dimmer.Inv, HwApply, Save;
      if Dimmer.Inv(Value()) {
        StepKeeps(Value(), IrAdjust(i, percent));
      }
      var cur := attrs[i].currentLevel + Truncated(254 * percent, 100);
      if cur < 13 {
        cur := 13;
      }
      if cur > 254 {
        cur := 254;
      }
      SetAttrs(i, attrs[i].(currentLevel := cur, startUpLevel := cur, onOff := true));
      Apply(i);
      AttrsSave(i);
    }

    /** ir_ch_set_onoff. */
    method IrSetOnOff(i: nat, on: bool)
      requires Valid() && i < COUNT
      modifies attrs, nv, fade, fade.targetTick
      ensures Valid() && Value() == Step(old(Value()), IrOnOff(i, on))
      ensures Dimmer.Inv(old(Value())) ==> Dimmer.Inv(Value())
    {
      hide Dimmer.Inv, HwApply, Save;
      if Dimmer.Inv(Value()) {
        StepKeeps(Value(), IrOnOff(i, on));
      }
      SetAttrs(i, attrs[i].(onOff := on, startUpOnOff := if on then 1 else 0));
      Apply(i);
      AttrsSave(i);
    }

    /** RAM starts over: pwm_attrs_init, then the start-up code that applies all endpoints. */
    method PowerUp()
      requires Valid()
      modifies attrs, moves, ramps, fade, fade.curTick, fade.targetTick
      ensures Valid() && Value() == Step(old(Value()), PowerCycle)
      ensures Dimmer.Inv(old(Value())) ==> Dimmer.Inv(Value())
    {
      hide Dimmer.Inv;
      if Dimmer.Inv(Value()) {
        StepKeeps(Value(), PowerCycle);
      }
      Reset();
      ghost var booted := Value();
      hide HwApply, Booted;
      var i := 0;
      while i < COUNT
        invariant 0 <= i <= COUNT && Valid()
        invariant Value() == ApplyAll(booted, i)
      {
        Apply(i);
        i := i + 1;
      }
    }

    method Reset()
      requires Valid()
      modifies attrs, moves, ramps, fade, fade.curTick, fade.targetTick
      ensures Valid() && Value() == Booted(old(nv[..]))
    {
      hide Restored;
      forall k | 0 <= k < CHANNELS {
        fade.curTick[k] := 0;
      }
      forall k | 0 <= k < CHANNELS {
        fade.targetTick[k] := 0;
      }
      fade.armed := false;
      assert fade.Value() == DARK;
      forall k | 0 <= k < COUNT {
        moves[k] := Move(false, false, 0, false);
      }
      forall k | 0 <= k < COUNT {
        ramps[k] := Ramp(false, 0, 0, false);
      }
      var i := 0;
      while i < COUNT
        invariant 0 <= i <= COUNT
        invariant forall k :: 0 <= k < i ==> attrs[k] == Restored(nv[k], DEFAULT)
        modifies attrs
      {
        attrs[i] := Restored(nv[i], DEFAULT);
        i := i + 1;
      }
      assert attrs[..] == Booted(nv[..]).ch;
      assert moves[..] == Booted(nv[..]).moves && ramps[..] == Booted(nv[..]).ramps;
    }
  }
}
