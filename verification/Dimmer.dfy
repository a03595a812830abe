/** The dimmer of apps/pwm5ch (zcl_pwm5chCb.c, pwm5ch_ctrl.c, ir_recv_cmd.c, pwm5ch_epCfg.c):
    five channels and a master, changed by On/Off and Level commands, infrared commands,
    two kinds of level timers and power cycles, on top of the fade engine. */
module Dimmer {
  import opened Words
  import opened FadeEngine

  const COUNT: nat := 6
  const MASTER: nat := 5
  const UNSET: byte := 0xFF

  /** pwm_ch_attr_t, without the times that nothing here reads. */
  datatype Channel = Channel(onOff: bool, currentLevel: byte, onLevel: byte, startUpOnOff: byte, startUpLevel: byte)

  const DEFAULT: Channel := Channel(false, 254, UNSET, UNSET, UNSET)

  /** move_ctx_t and move2lv_ctx_t. */
  datatype Move = Move(armed: bool, up: bool, stepMs: nat, withOnOff: bool)
  datatype Ramp = Ramp(armed: bool, target: byte, stepMs: nat, withOnOff: bool)

  datatype State = State(ch: seq<Channel>, moves: seq<Move>, ramps: seq<Ramp>, nv: seq<Option<Channel>>, fade: Fade)

  /** `time` is in tenths of a second. */
  datatype Event = Off(i: nat) | On(i: nat) | Toggle(i: nat)
                 | MoveToLevel(i: nat, level: byte, time: nat, withOnOff: bool)
                 | LevelMove(i: nat, up: bool, rate: byte, withOnOff: bool)
                 | LevelStep(i: nat, up: bool, size: byte, time: nat, withOnOff: bool)
                 | Stop(i: nat) | WriteOnLevel(i: nat, level: byte)
                 | MoveTick(i: nat) | RampTick(i: nat) | FadeTick
                 | IrOnOff(i: nat, on: bool) | IrToggle(i: nat) | IrAdjust(i: nat, percent: int)
                 | PowerCycle

  ghost predicate Shaped(st: State) {
    |st.ch| == |st.moves| == |st.ramps| == |st.nv| == COUNT && Sized(st.fade)
  }

  // ----- output and storage -----

  /** A channel dimmed by the master. */
  function Combined(level: nat, master: nat): nat {
    level * master / 254
  }

  function MasterTarget(ch: seq<Channel>, j: nat): nat
    requires |ch| == COUNT && j < CHANNELS
  {
    if !ch[MASTER].onOff || !ch[j].onOff then 0
    else LevelToTick(Combined(ch[j].currentLevel, ch[MASTER].currentLevel))
  }

  /** The targets pwm_hw_apply sets for endpoint `i`. */
  function Targets(ch: seq<Channel>, target: seq<nat>, i: nat): seq<nat>
    requires |ch| == COUNT && |target| == CHANNELS && i < COUNT
  {
    if i < CHANNELS then target[i := if ch[i].onOff then LevelToTick(ch[i].currentLevel) else 0]
    else seq(CHANNELS, j requires 0 <= j < CHANNELS => MasterTarget(ch, j))
  }

  /** pwm_hw_apply. */
  ghost function HwApply(st: State, i: nat): (r: State)
    requires Shaped(st) && i < COUNT
    ensures Shaped(r)
  {
    st.(fade := Retarget(st.fade, Targets(st.ch, st.fade.target, i)))
  }

  /** pwm_attrs_save. */
  function Save(st: State, i: nat): State
    requires i < |st.nv| && i < |st.ch|
  {
    st.(nv := st.nv[i := Some(st.ch[i])])
  }

  function SetChannel(st: State, i: nat, c: Channel): State
    requires i < |st.ch|
  {
    st.(ch := st.ch[i := c])
  }

  // ----- On/Off -----

  function TurnedOn(c: Channel): Channel {
    c.(onOff := true, currentLevel := if c.onLevel != UNSET then c.onLevel else c.currentLevel)
  }

  /** pwm_onOffCb, with the attributes the command leaves. */
  ghost function OnOffStep(st: State, i: nat, c: Channel): (r: State)
    requires Shaped(st) && i < COUNT
    ensures Shaped(r)
  {
    Save(HwApply(SetChannel(st, i, c), i), i)
  }

  // ----- Move -----

  /** level_move_stop. */
  function MoveStop(st: State, i: nat): State
    requires i < |st.moves| && i < |st.ch| && i < |st.nv|
  {
    if st.moves[i].armed then Save(st.(moves := st.moves[i := st.moves[i].(armed := false)]), i) else st
  }

  /** Milliseconds per level of a Move. */
  function MoveMs(rate: byte): (ms: nat)
    ensures ms > 0
  {
    1000 / (if rate == 0 then 1 else rate)
  }

  /** level_move_start. */
  ghost function MoveStart(st: State, i: nat, up: bool, rate: byte, withOnOff: bool): (r: State)
    requires Shaped(st) && i < COUNT
    ensures Shaped(r)
  {
    var idle := MoveStop(st, i);
    var shown :=
      if withOnOff && up then HwApply(SetChannel(idle, i, idle.ch[i].(onOff := true)), i) else idle;
    shown.(moves := shown.moves[i := Move(true, up, MoveMs(rate), withOnOff)])
  }

  predicate CanMove(c: Channel, m: Move) {
    if m.up then c.currentLevel < 254 else c.currentLevel > 1
  }

  /** One level up or down. */
  function Moved(c: Channel, m: Move): (d: Channel)
    requires CanMove(c, m)
  {
    var lv: byte := if m.up then c.currentLevel + 1 else c.currentLevel - 1;
    c.(currentLevel := lv, onOff := c.onOff || (m.withOnOff && lv > 0))
  }

  /** The end of the range has been reached. */
  ghost function MoveEnd(st: State, i: nat): (r: State)
    requires Shaped(st) && i < COUNT
    ensures Shaped(r)
  {
    var m := st.moves[i];
    var ended := if m.withOnOff && !m.up then HwApply(SetChannel(st, i, st.ch[i].(onOff := false)), i) else st;
    var saved := Save(ended, i);
    saved.(moves := saved.moves[i := saved.moves[i].(armed := false)])
  }

  /** The level, one further if it can go further. */
  ghost function MoveOne(st: State, i: nat): (r: State)
    requires Shaped(st) && i < COUNT
    ensures Shaped(r)
  {
    var m, c := st.moves[i], st.ch[i];
    if CanMove(c, m) then HwApply(SetChannel(st, i, Moved(c, m)), i) else st
  }

  /** level_move_cb. */
  ghost function MoveStep(st: State, i: nat): (r: State)
    requires Shaped(st) && i < COUNT
    ensures Shaped(r)
  {
    var m, moved := st.moves[i], MoveOne(st, i);
    var lv := moved.ch[i].currentLevel;
    if (!m.up && lv <= 1) || (m.up && lv >= 254) then MoveEnd(moved, i) else moved
  }

  // ----- Move to Level -----

  function Distance(a: nat, b: nat): nat {
    if a > b then a - b else b - a
  }

  /** Milliseconds per level, truncated to 16 bits and at least 10. */
  function StepMs(time: nat, diff: nat): nat
    requires diff > 0
  {
    var ms := if time == 0 then 10 else time * 100 / diff % 0x1_0000;
    if ms < 10 then 10 else ms
  }

  /** level_move2lv. */
  ghost function RampStart(st: State, i: nat, target: byte, time: nat, withOnOff: bool): (r: State)
    requires Shaped(st) && i < COUNT
    ensures Shaped(r)
  {
    var idle := st.(ramps := st.ramps[i := st.ramps[i].(armed := false)]);
    var c := st.ch[i];
    var diff := Distance(target, c.currentLevel);
    if diff == 0 then
      if withOnOff then OnOffStep(idle, i, c.(onOff := target > 0)) else idle
    else
      var shown := if withOnOff && target > 0 then HwApply(SetChannel(idle, i, c.(onOff := true)), i) else idle;
      shown.(ramps := shown.ramps[i := Ramp(true, target, StepMs(time, diff), withOnOff)])
  }

  /** One level towards the target. */
  function Nudged(c: Channel, m: Ramp): Channel {
    var lv: byte :=
      if c.currentLevel < m.target then c.currentLevel + 1
      else if c.currentLevel > m.target then c.currentLevel - 1 else c.currentLevel;
    c.(currentLevel := lv, onOff := if m.withOnOff then lv > 0 else c.onOff)
  }

  ghost function NudgeStep(st: State, i: nat): (r: State)
    requires Shaped(st) && i < COUNT
    ensures Shaped(r)
  {
    HwApply(SetChannel(st, i, Nudged(st.ch[i], st.ramps[i])), i)
  }

  /** The target is reached. */
  ghost function RampEnd(st: State, i: nat): (r: State)
    requires Shaped(st) && i < COUNT
    ensures Shaped(r)
  {
    var saved := Save(st, i);
    saved.(ramps := saved.ramps[i := saved.ramps[i].(armed := false)])
  }

  /** level_move2lv_cb. */
  ghost function RampStep(st: State, i: nat): (r: State)
    requires Shaped(st) && i < COUNT
    ensures Shaped(r)
  {
    var nudged := NudgeStep(st, i);
    if Nudged(st.ch[i], st.ramps[i]).currentLevel == st.ramps[i].target then RampEnd(nudged, i) else nudged
  }

  function Clamped(level: byte): byte {
    if level < 1 then 1 else if level > 254 then 254 else level
  }

  /** The target of a Step command. */
  function Stepped(level: byte, up: bool, size: byte): byte {
    var l: int, s: int := level, size;
    if up then (if l + s > 254 then 254 else l + s)
    else if l < s + 1 then 1 else l - s
  }

  // ----- infrared -----

  /** C division truncates towards zero. */
  function Truncated(a: int, b: nat): int
    requires b > 0
  {
    if a >= 0 then a / b else -(-a / b)
  }

  /** The level an infrared key leads to. */
  function Adjusted(level: byte, percent: int): byte {
    var l: int := level + Truncated(254 * percent, 100);
    if l < 13 then 13 else if l > 254 then 254 else l
  }

  // ----- power -----

  /** pwm_attrs_init for one channel. */
  function Restored(saved: Option<Channel>, ram: Channel): Channel {
    match saved
    case None => ram.(onOff := false, currentLevel := 254, startUpOnOff := UNSET, startUpLevel := UNSET)
    case Some(c) =>
      c.(onOff := if c.startUpOnOff == 0 then false else if c.startUpOnOff == 1 then true
                  else if c.startUpOnOff == 2 then !c.onOff else c.onOff,
         currentLevel := if c.startUpLevel == UNSET then c.currentLevel else c.startUpLevel)
  }

  /** RAM starts over and the attributes come from storage. */
  function Booted(nv: seq<Option<Channel>>): (st: State)
    requires |nv| == COUNT
  {
    State(seq(COUNT, i requires 0 <= i < COUNT => Restored(nv[i], DEFAULT)),
          seq(COUNT, i => Move(false, false, 0, false)), seq(COUNT, i => Ramp(false, 0, 0, false)), nv, DARK)
  }

  /** The start-up code applies endpoints 0 to `n` - 1. */
  ghost function ApplyAll(st: State, n: nat): (r: State)
    requires Shaped(st) && n <= COUNT
    ensures Shaped(r)
  {
    if n == 0 then st else HwApply(ApplyAll(st, n - 1), n - 1)
  }

  // ----- events -----

  ghost predicate Enabled(st: State, e: Event)
    requires Shaped(st)
  {
    match e
    case FadeTick => st.fade.armed
    case PowerCycle => true
    case MoveTick(i) => i < COUNT && st.moves[i].armed
    case RampTick(i) => i < COUNT && st.ramps[i].armed
    case _ => e.i < COUNT
  }

  ghost function Step(st: State, e: Event): (r: State)
    requires Shaped(st) && Enabled(st, e)
    ensures Shaped(r)
  {
    match e
    case Off(i) => OnOffStep(st, i, st.ch[i].(onOff := false))
    case On(i) => OnOffStep(st, i, TurnedOn(st.ch[i]))
    case Toggle(i) => OnOffStep(st, i, if st.ch[i].onOff then st.ch[i].(onOff := false) else TurnedOn(st.ch[i]))
    case MoveToLevel(i, level, time, w) => RampStart(st, i, Clamped(level), time, w)
    case LevelMove(i, up, rate, w) => MoveStart(st, i, up, rate, w)
    case LevelStep(i, up, size, time, w) => RampStart(st, i, Stepped(st.ch[i].currentLevel, up, size), time, w)
    case Stop(i) => MoveStop(st, i)
    case WriteOnLevel(i, level) => SetChannel(st, i, st.ch[i].(onLevel := level))
    case MoveTick(i) => MoveStep(st, i)
    case RampTick(i) => RampStep(st, i)
    case FadeTick => st.(fade := FadeStep(st.fade))
    case IrOnOff(i, on) => OnOffStep(st, i, st.ch[i].(onOff := on, startUpOnOff := if on then 1 else 0))
    case IrToggle(i) =>
      OnOffStep(st, i, st.ch[i].(onOff := !st.ch[i].onOff, startUpOnOff := if st.ch[i].onOff then 0 else 1))
    case IrAdjust(i, percent) =>
      var lv := Adjusted(st.ch[i].currentLevel, percent);
      OnOffStep(st, i, st.ch[i].(currentLevel := lv, startUpLevel := lv, onOff := true))
    case PowerCycle => ApplyAll(Booted(st.nv), COUNT)
  }

  // ----- bounds over all runs -----

  /** No level above 254, in RAM or in storage; every duty within the period; running timers
      have a target and an interval; a stopped fade timer means every channel has arrived. */
  ghost predicate Inv(st: State) {
    && Shaped(st)
    && (forall i :: 0 <= i < COUNT ==> st.ch[i].currentLevel <= LEVEL_MAX)
    && (forall i :: 0 <= i < COUNT && st.nv[i].Some? ==> st.nv[i].value.currentLevel <= LEVEL_MAX)
    && (forall i :: 0 <= i < COUNT && st.moves[i].armed ==> st.moves[i].stepMs > 0)
    && (forall i :: 0 <= i < COUNT && st.ramps[i].armed ==>
          1 <= st.ramps[i].target <= LEVEL_MAX && st.ramps[i].stepMs >= 10)
    && FadeEngine.Inv(st.fade)
  }

  lemma CombinedInRange(level: nat, master: nat)
    requires level <= LEVEL_MAX && master <= LEVEL_MAX
    ensures Combined(level, master) <= LEVEL_MAX
    ensures master == LEVEL_MAX ==> Combined(level, master) == level
    ensures Combined(level, master) <= level
  {
    assert level * master <= level * 254 <= 254 * 254;
  }

  lemma TargetsInRange(ch: seq<Channel>, target: seq<nat>, i: nat)
    requires |ch| == COUNT && |target| == CHANNELS && i < COUNT
    requires forall k :: 0 <= k < COUNT ==> ch[k].currentLevel <= LEVEL_MAX
    requires forall k :: 0 <= k < CHANNELS ==> target[k] <= PWM_MAX_TICK
    ensures |Targets(ch, target, i)| == CHANNELS
    ensures forall k :: 0 <= k < CHANNELS ==> Targets(ch, target, i)[k] <= PWM_MAX_TICK
  {
    hide LevelToTick, Combined;
    if i < CHANNELS {
      TicksAreFaithful(ch[i].currentLevel, 0);
    }
    forall k | 0 <= k < CHANNELS
      ensures LevelToTick(Combined(ch[k].currentLevel, ch[MASTER].currentLevel)) <= PWM_MAX_TICK
    {
      CombinedInRange(ch[k].currentLevel, ch[MASTER].currentLevel);
      TicksAreFaithful(Combined(ch[k].currentLevel, ch[MASTER].currentLevel), 0);
    }
  }

  lemma HwApplyKeeps(st: State, i: nat)
    requires Inv(st) && i < COUNT
    ensures Inv(HwApply(st, i))
  {
    TargetsInRange(st.ch, st.fade.target, i);
    hide Targets;
    RetargetKeeps(st.fade, Targets(st.ch, st.fade.target, i));
    hide FadeEngine.Inv;
  }

  lemma SetChannelKeeps(st: State, i: nat, c: Channel)
    requires Inv(st) && i < COUNT && c.currentLevel <= LEVEL_MAX
    ensures Inv(SetChannel(st, i, c))
  {
  }

  lemma SaveKeeps(st: State, i: nat)
    requires Inv(st) && i < COUNT
    ensures Inv(Save(st, i))
  {
  }

  lemma ShowKeeps(st: State, i: nat, c: Channel)
    requires Inv(st) && i < COUNT && c.currentLevel <= LEVEL_MAX
    ensures Inv(HwApply(SetChannel(st, i, c), i)) && Inv(OnOffStep(st, i, c))
  {
    SetChannelKeeps(st, i, c);
    HwApplyKeeps(SetChannel(st, i, c), i);
    SaveKeeps(HwApply(SetChannel(st, i, c), i), i);
    hide Inv, HwApply;
  }

  lemma TimersKeep(st: State, r: State)
    requires Inv(st) && r == st.(moves := r.moves, ramps := r.ramps) && |r.moves| == |r.ramps| == COUNT
    requires forall i :: 0 <= i < COUNT && r.moves[i].armed ==> r.moves[i].stepMs > 0
    requires forall i :: 0 <= i < COUNT && r.ramps[i].armed ==>
               1 <= r.ramps[i].target <= LEVEL_MAX && r.ramps[i].stepMs >= 10
    ensures Inv(r)
  {
  }

  lemma MoveStopKeeps(st: State, i: nat)
    requires Inv(st) && i < COUNT
    ensures Inv(MoveStop(st, i))
  {
  }

  lemma MoveStartKeeps(st: State, i: nat, up: bool, rate: byte, w: bool)
    requires Inv(st) && i < COUNT
    ensures Inv(MoveStart(st, i, up, rate, w))
  {
    MoveStopKeeps(st, i);
    var idle := MoveStop(st, i);
    ShowKeeps(idle, i, idle.ch[i].(onOff := true));
    var shown := if w && up then HwApply(SetChannel(idle, i, idle.ch[i].(onOff := true)), i) else idle;
    hide HwApply, FadeEngine.Inv, MoveMs;
    assert Inv(shown);
    TimersKeep(shown, MoveStart(st, i, up, rate, w));
  }

  lemma MoveEndKeeps(st: State, i: nat)
    requires Inv(st) && i < COUNT
    ensures Inv(MoveEnd(st, i))
  {
  }

  lemma MoveStepKeeps(st: State, i: nat)
    requires Inv(st) && i < COUNT
    ensures Inv(MoveStep(st, i))
  {
    hide HwApply, FadeEngine.Inv, MoveEnd;
    var m, c := st.moves[i], st.ch[i];
    if CanMove(c, m) {
      ShowKeeps(st, i, Moved(c, m));
    }
    var moved := if CanMove(c, m) then HwApply(SetChannel(st, i, Moved(c, m)), i) else st;
    MoveEndKeeps(moved, i);
  }

  lemma RampStartKeeps(st: State, i: nat, target: byte, time: nat, w: bool)
    requires Inv(st) && i < COUNT && target <= LEVEL_MAX && (target != st.ch[i].currentLevel ==> target >= 1)
    ensures Inv(RampStart(st, i, target, time, w))
  {
    var idle := st.(ramps := st.ramps[i := st.ramps[i].(armed := false)]);
    TimersKeep(st, idle);
    var c := st.ch[i];
    ShowKeeps(idle, i, c.(onOff := target > 0));
    ShowKeeps(idle, i, c.(onOff := true));
    hide HwApply, FadeEngine.Inv;
    if target != c.currentLevel {
      var shown := if w && target > 0 then HwApply(SetChannel(idle, i, c.(onOff := true)), i) else idle;
      TimersKeep(shown, RampStart(st, i, target, time, w));
    }
  }

  lemma RampStepKeeps(st: State, i: nat)
    requires Inv(st) && i < COUNT && st.ramps[i].armed
    ensures Inv(RampStep(st, i))
  {
    var d := Nudged(st.ch[i], st.ramps[i]);
    ShowKeeps(st, i, d);
    var moved := HwApply(SetChannel(st, i, d), i);
    SaveKeeps(moved, i);
    hide HwApply, FadeEngine.Inv;
    var saved := Save(moved, i);
    TimersKeep(saved, saved.(ramps := saved.ramps[i := saved.ramps[i].(armed := false)]));
  }

  lemma {:induction false} ApplyAllKeeps(st: State, n: nat)
    requires Inv(st) && n <= COUNT
    ensures Inv(ApplyAll(st, n))
  {
    assert Shaped(st);
    hide Inv, HwApply;
    if n > 0 {
      ApplyAllKeeps(st, n - 1);
      HwApplyKeeps(ApplyAll(st, n - 1), n - 1);
    }
  }

  lemma BootedIsInv(nv: seq<Option<Channel>>)
    requires |nv| == COUNT && forall i :: 0 <= i < COUNT && nv[i].Some? ==> nv[i].value.currentLevel <= LEVEL_MAX
    ensures Inv(Booted(nv))
  {
  }

  /** Every event keeps the bounds. */
  lemma StepKeeps(st: State, e: Event)
    requires Inv(st) && Enabled(st, e)
    ensures Inv(Step(st, e))
  {
    hide HwApply, FadeEngine.Inv, MoveStart, MoveStep, RampStart, RampStep, MoveStop, OnOffStep, Save, ApplyAll, Booted;
    match e {
      case Off(i) => ShowKeeps(st, i, st.ch[i].(onOff := false));
      case On(i) => ShowKeeps(st, i, TurnedOn(st.ch[i]));
      case Toggle(i) =>
        ShowKeeps(st, i, st.ch[i].(onOff := false));
        ShowKeeps(st, i, TurnedOn(st.ch[i]));
      case MoveToLevel(i, level, time, w) => RampStartKeeps(st, i, Clamped(level), time, w);
      case LevelMove(i, up, rate, w) => MoveStartKeeps(st, i, up, rate, w);
      case LevelStep(i, up, size, time, w) =>
        RampStartKeeps(st, i, Stepped(st.ch[i].currentLevel, up, size), time, w);
      case Stop(i) => MoveStopKeeps(st, i);
      case WriteOnLevel(i, level) => SetChannelKeeps(st, i, st.ch[i].(onLevel := level));
      case MoveTick(i) => MoveStepKeeps(st, i);
      case RampTick(i) => RampStepKeeps(st, i);
      case FadeTick => FadeKeeps(st.fade);
      case IrOnOff(i, on) => ShowKeeps(st, i, st.ch[i].(onOff := on, startUpOnOff := if on then 1 else 0));
      case IrToggle(i) =>
        ShowKeeps(st, i, st.ch[i].(onOff := !st.ch[i].onOff, startUpOnOff := if st.ch[i].onOff then 0 else 1));
      case IrAdjust(i, percent) =>
        var lv := Adjusted(st.ch[i].currentLevel, percent);
        ShowKeeps(st, i, st.ch[i].(currentLevel := lv, startUpLevel := lv, onOff := true));
      case PowerCycle =>
        BootedIsInv(st.nv);
        ApplyAllKeeps(Booted(st.nv), COUNT);
    }
  }

  ghost predicate IsRun(st: State, events: seq<Event>)
    requires Shaped(st)
    decreases |events|
  {
    hide Step;
    events == [] || (Enabled(st, events[0]) && IsRun(Step(st, events[0]), events[1..]))
  }

  ghost function Run(st: State, events: seq<Event>): (r: State)
    requires Shaped(st) && IsRun(st, events)
    ensures Shaped(r)
    decreases |events|
  {
    hide Step;
    if events == [] then st else Run(Step(st, events[0]), events[1..])
  }

  lemma {:induction false} RunKeeps(st: State, events: seq<Event>)
    requires Inv(st) && IsRun(st, events)
    ensures Inv(Run(st, events))
    decreases |events|
  {
    assert Shaped(st);
    hide Step, Inv, Enabled;
    if events != [] {
      StepKeeps(st, events[0]);
      RunKeeps(Step(st, events[0]), events[1..]);
    }
  }

  /** From the first start on, with nothing stored, whatever commands, timers, keys and power
      cycles come: no level exceeds 254 and no duty exceeds the period. */
  lemma LevelsStayInRange(events: seq<Event>)
    ensures Inv(Booted(seq(COUNT, i => None)))
    ensures var st := Booted(seq(COUNT, i => None));
            IsRun(st, events) ==>
              var r := Run(st, events);
              && (forall i :: 0 <= i < COUNT ==> r.ch[i].currentLevel <= LEVEL_MAX)
              && (forall i :: 0 <= i < CHANNELS ==> r.fade.cur[i] <= PWM_MAX_TICK && r.fade.target[i] <= PWM_MAX_TICK)
              && (!r.fade.armed ==> r.fade.cur == r.fade.target)
  {
    var st := Booted(seq(COUNT, i => None));
    BootedIsInv(seq(COUNT, i => None));
    if IsRun(st, events) {
      hide Booted;
      RunKeeps(st, events);
    }
  }

  // ----- one transition -----

  ghost function RampTicks(st: State, i: nat, n: nat): (r: State)
    requires Shaped(st) && i < COUNT
    ensures Shaped(r)
  {
    if n == 0 then st else RampStep(RampTicks(st, i, n - 1), i)
  }

  /** `n` levels from `from` towards `to`. */
  function Along(from: nat, to: nat, n: nat): int {
    if from < to then from + n else from - n
  }

  lemma RampStepMoves(st: State, i: nat)
    requires Shaped(st) && i < COUNT
    ensures var r, m := RampStep(st, i), st.ramps[i];
            var lv := st.ch[i].currentLevel;
            && r.ch[i].currentLevel == (if lv == m.target then lv else Along(lv, m.target, 1))
            && r.ramps[i] == m.(armed := m.armed && r.ch[i].currentLevel != m.target)
            && (m.withOnOff ==> r.ch[i].onOff == (r.ch[i].currentLevel > 0))
            && forall k :: 0 <= k < COUNT && k != i ==> r.ch[k] == st.ch[k] && r.ramps[k] == st.ramps[k]
  {
  }

  /** An undisturbed transition goes one level per callback straight to its target, and stops
      after exactly as many callbacks as there are levels between. */
  lemma {:induction false} RampArrives(st: State, i: nat, n: nat)
    requires Shaped(st) && i < COUNT && st.ramps[i].armed
    requires 0 < n <= Distance(st.ramps[i].target, st.ch[i].currentLevel)
    ensures var r, from, to := RampTicks(st, i, n), st.ch[i].currentLevel, st.ramps[i].target;
            && r.ch[i].currentLevel == Along(from, to, n)
            && r.ramps[i] == st.ramps[i].(armed := n < Distance(to, from))
            && (n == Distance(to, from) ==> r.ch[i].currentLevel == to)
            && forall k :: 0 <= k < COUNT && k != i ==> r.ch[k] == st.ch[k]
  {
    hide RampStep;
    if n > 1 {
      RampArrives(st, i, n - 1);
    }
    RampStepMoves(RampTicks(st, i, n - 1), i);
  }

  ghost function MoveTicks(st: State, i: nat, n: nat): (r: State)
    requires Shaped(st) && i < COUNT
    ensures Shaped(r)
  {
    if n == 0 then st else MoveStep(MoveTicks(st, i, n - 1), i)
  }

  lemma MoveEndIs(st: State, i: nat)
    requires Shaped(st) && i < COUNT
    ensures var r, m := MoveEnd(st, i), st.moves[i];
            && r.ch[i] == st.ch[i].(onOff := if m.withOnOff && !m.up then false else st.ch[i].onOff)
            && r.moves[i] == m.(armed := false)
  {
  }

  lemma MoveStepMoves(st: State, i: nat)
    requires Shaped(st) && i < COUNT && CanMove(st.ch[i], st.moves[i])
    ensures var r, m, lv := MoveStep(st, i), st.moves[i], st.ch[i].currentLevel;
            var next := if m.up then lv + 1 else lv - 1;
            && r.ch[i].currentLevel == next
            && (m.withOnOff ==> r.ch[i].onOff == (m.up || next > 1))
            && r.moves[i] == m.(armed := m.armed && (if m.up then next < 254 else next > 1))
  {
  }

  /** An undisturbed Move goes one level per callback and stops at 254 or at 1, where a
      downward Move with On/Off also switches off. */
  lemma {:induction false} MoveArrives(st: State, i: nat, n: nat)
    requires Shaped(st) && i < COUNT && st.moves[i].armed && st.ch[i].currentLevel <= LEVEL_MAX
    requires 0 < n <= if st.moves[i].up then 254 - st.ch[i].currentLevel else st.ch[i].currentLevel - 1
    ensures var r, m, lv := MoveTicks(st, i, n), st.moves[i], st.ch[i].currentLevel;
            && r.ch[i].currentLevel == (if m.up then lv + n else lv - n)
            && r.moves[i] == m.(armed := if m.up then lv + n < 254 else lv - n > 1)
            && (m.withOnOff ==> r.ch[i].onOff == (m.up || lv - n > 1))
  {
    hide MoveStep;
    if n > 1 {
      MoveArrives(st, i, n - 1);
    }
    MoveStepMoves(MoveTicks(st, i, n - 1), i);
  }

  lemma MoveStepAtEnd(st: State, i: nat)
    requires Shaped(st) && i < COUNT && !CanMove(st.ch[i], st.moves[i])
    ensures var r, m := MoveStep(st, i), st.moves[i];
            && r.ch[i] == st.ch[i].(onOff := if m.withOnOff && !m.up then false else st.ch[i].onOff)
            && r.moves[i] == m.(armed := false)
  {
  }

  /** The levels a Move has to go. */
  function ToGo(m: Move, level: nat): nat {
    if m.up then (if level < 254 then 254 - level else 0) else if level > 1 then level - 1 else 0
  }

  /** An undisturbed Move from any level is armed until its last callback and then stops: one
      callback per level, or a single one if it begins at its end. A downward Move with On/Off
      is then off; an upward one is on, or as it was if it begins at its end. */
  lemma MoveEnds(st: State, i: nat)
    requires Shaped(st) && i < COUNT && st.moves[i].armed && st.ch[i].currentLevel <= LEVEL_MAX
    ensures var m, lv := st.moves[i], st.ch[i].currentLevel;
            var d := ToGo(m, lv);
            var n := if d == 0 then 1 else d;
            var r := MoveTicks(st, i, n);
            && (forall k :: 0 <= k < n ==> MoveTicks(st, i, k).moves[i].armed)
            && r.moves[i] == m.(armed := false)
            && r.ch[i].currentLevel == (if m.up then 254 else if lv == 0 then 0 else 1)
            && (m.withOnOff && !m.up ==> !r.ch[i].onOff)
            && (m.withOnOff && m.up ==> r.ch[i].onOff == (d > 0 || st.ch[i].onOff))
  {
    hide MoveStep;
    var d := ToGo(st.moves[i], st.ch[i].currentLevel);
    if d == 0 {
      MoveStepAtEnd(st, i);
      assert MoveTicks(st, i, 0) == st && MoveTicks(st, i, 1) == MoveStep(st, i);
    } else {
      forall k | 0 <= k < d
        ensures MoveTicks(st, i, k).moves[i].armed
      {
        if k > 0 {
          MoveArrives(st, i, k);
        }
      }
      MoveArrives(st, i, d);
    }
  }

  lemma DivisionBounds(t: nat, d: nat)
    requires d > 0
    ensures t - d < t / d * d <= t
    ensures t >= 10 * d ==> t / d >= 10
    ensures t < 10 * d ==> t / d < 10
  {
  }

  /** How long a transition over `diff` levels takes: the requested time less at most the
      rounding, as long as ten milliseconds per level are enough and a level's share fits 16
      bits; ten milliseconds per level if they are not. */
  lemma RampTime(time: nat, diff: nat)
    requires diff > 0
    ensures var total, asked := StepMs(time, diff) * diff, time * 100;
            && (10 * diff <= asked && asked / diff < 0x1_0000 ==> asked - diff < total <= asked)
            && (asked < 10 * diff ==> total == 10 * diff > asked)
            && (asked / diff >= 0x1_0000 ==> total < asked)
  {
    var asked := time * 100;
    DivisionBounds(asked, diff);
    var q := asked / diff;
    if q < 0x1_0000 {
      assert q % 0x1_0000 == q;
    } else {
      assert StepMs(time, diff) < q;
      Times(StepMs(time, diff), q, diff);
    }
  }

  lemma Times(a: nat, b: nat, d: nat)
    requires a < b && d > 0
    ensures a * d < b * d
  {
  }

  /** Milliseconds until the `n`-th callback of the Move to Level timer. */
  ghost function Elapsed(st: State, i: nat, n: nat): nat
    requires Shaped(st) && i < COUNT
  {
    if n == 0 then 0 else Elapsed(st, i, n - 1) + RampTicks(st, i, n - 1).ramps[i].stepMs
  }

  lemma {:induction false} ElapsedIs(st: State, i: nat, n: nat)
    requires Shaped(st) && i < COUNT && st.ramps[i].armed
    requires n <= Distance(st.ramps[i].target, st.ch[i].currentLevel)
    ensures Elapsed(st, i, n) == st.ramps[i].stepMs * n
  {
    if n > 0 {
      ElapsedIs(st, i, n - 1);
      if n > 1 {
        RampArrives(st, i, n - 1);
      }
      hide RampTicks;
      assert st.ramps[i].stepMs * n == st.ramps[i].stepMs * (n - 1) + st.ramps[i].stepMs;
    }
  }

  lemma RampBegins(st: State, i: nat, target: byte, time: nat, withOnOff: bool)
    requires Shaped(st) && i < COUNT
    ensures var r, diff := RampStart(st, i, target, time, withOnOff), Distance(target, st.ch[i].currentLevel);
            && r.ch[i].currentLevel == st.ch[i].currentLevel
            && r.ramps[i] == if diff == 0 then st.ramps[i].(armed := false)
                             else Ramp(true, target, StepMs(time, diff), withOnOff)
  {
  }

  /** From the command to the arrival: an undisturbed Move to Level reaches the clamped level
      with exactly as many callbacks as there are levels between, going one level towards it
      with each, and the time to the last of them is the requested time less the rounding, if
      ten milliseconds per level are enough and a level's share fits 16 bits. */
  lemma MoveToLevelArrives(st: State, i: nat, level: byte, time: nat, withOnOff: bool)
    requires Shaped(st) && i < COUNT
    ensures var begun := Step(st, MoveToLevel(i, level, time, withOnOff));
            var from, to := st.ch[i].currentLevel, Clamped(level);
            var diff, asked := Distance(to, from), time * 100;
            var r, total := RampTicks(begun, i, diff), Elapsed(begun, i, diff);
            && (forall k :: 0 <= k < diff ==>
                  var s := RampTicks(begun, i, k);
                  s.ramps[i].armed && s.ch[i].currentLevel == Along(from, to, k))
            && r.ch[i].currentLevel == to && !r.ramps[i].armed
            && (diff > 0 && 10 * diff <= asked && asked / diff < 0x1_0000 ==> asked - diff < total <= asked)
            && (diff > 0 && asked < 10 * diff ==> total == 10 * diff)
  {
    var begun := Step(st, MoveToLevel(i, level, time, withOnOff));
    hide RampStart;
    RampBegins(st, i, Clamped(level), time, withOnOff);
    var diff := Distance(Clamped(level), st.ch[i].currentLevel);
    if diff > 0 {
      hide StepMs, RampStep;
      RampTime(time, diff);
      ElapsedIs(begun, i, diff);
      RampArrives(begun, i, diff);
      forall k | 0 <= k < diff
        ensures RampTicks(begun, i, k).ramps[i].armed
        ensures RampTicks(begun, i, k).ch[i].currentLevel == Along(st.ch[i].currentLevel, Clamped(level), k)
      {
        if k > 0 {
          RampArrives(begun, i, k);
        }
      }
    }
  }
}
