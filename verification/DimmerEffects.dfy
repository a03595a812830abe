/** What the commands, timers, keys and power cycles of the dimmer do, in the numbers of the
    application: the attributes and what is stored of them, the timers, and the duties the five
    outputs go to. */
module DimmerEffects {
  import opened Words
  import opened FadeEngine
  import opened Dimmer

  // ----- outputs -----

  /** The duty of an output, nearest to level * 2000 / 254, or zero if it is off. */
  predicate Lit(duty: nat, on: bool, level: nat) {
    if on then -127 <= 254 * duty - 2000 * level <= 127 else duty == 0
  }

  /** The outputs after endpoint `i` has been shown: a channel's own output, or all five under
      the master. */
  ghost predicate Displays(ch: seq<Channel>, before: seq<nat>, target: seq<nat>, i: nat) {
    && |ch| == 6 && |before| == |target| == 5 && i < 6
    && (i < 5 ==>
          && Lit(target[i], ch[i].onOff, ch[i].currentLevel)
          && forall j :: 0 <= j < 5 && j != i ==> target[j] == before[j])
    && (i == 5 ==>
          forall j :: 0 <= j < 5 ==>
            Lit(target[j], ch[5].onOff && ch[j].onOff, (ch[j].currentLevel as int) * ch[5].currentLevel / 254))
  }

  /** There is only one such duty. */
  lemma LitIsOne(a: nat, b: nat, on: bool, level: nat)
    requires Lit(a, on, level) && Lit(b, on, level)
    ensures a == b
  {
    if on {
      assert -63 <= 127 * a - 1000 * level <= 63 && -63 <= 127 * b - 1000 * level <= 63;
    }
  }

  /** Endpoint `i` has been given the attributes `c` and is shown; everything else is as it
      was. */
  ghost predicate Changed(st: State, r: State, i: nat, c: Channel) {
    && Shaped(st) && Shaped(r) && i < 6
    && r.ch == st.ch[i := c]
    && r.fade.cur == st.fade.cur && r.fade.armed && Displays(r.ch, st.fade.target, r.fade.target, i)
  }

  /** Storage holds what endpoint `i` now is, and otherwise what it did. */
  ghost predicate Stored(st: State, r: State, i: nat) {
    |r.ch| == |st.nv| == 6 && i < 6 && r.nv == st.nv[i := Some(r.ch[i])]
  }

  lemma ApplyDisplays(st: State, i: nat)
    requires Shaped(st) && i < 6
    ensures var r := HwApply(st, i);
            && r == st.(fade := r.fade) && r.fade.cur == st.fade.cur && r.fade.armed
            && Displays(r.ch, st.fade.target, r.fade.target, i)
  {
    if i < 5 {
      NearestTick(st.ch[i].currentLevel);
    } else {
      forall j | 0 <= j < 5
        ensures Lit(HwApply(st, i).fade.target[j], st.ch[5].onOff && st.ch[j].onOff,
                    (st.ch[j].currentLevel as int) * st.ch[5].currentLevel / 254)
      {
        NearestTick((st.ch[j].currentLevel as int) * st.ch[5].currentLevel / 254);
        hide LevelToTick;
      }
    }
    hide LevelToTick, Combined;
  }

  lemma NearestTick(level: nat)
    ensures Lit(LevelToTick(level), true, level)
  {
  }

  /** The level of a key: its share of 254, cut towards zero, between 13 and 254. */
  function KeyLevel(level: byte, percent: int): byte {
    var sum := level + if percent >= 0 then 254 * percent / 100 else 0 - (254 * (0 - percent) / 100);
    if sum < 13 then 13 else if sum > 254 then 254 else sum
  }

  lemma AdjustedIs(level: byte, percent: int)
    ensures Adjusted(level, percent) == KeyLevel(level, percent)
  {
  }

  lemma ShowChanges(st: State, i: nat, c: Channel)
    requires Shaped(st) && i < 6
    ensures var r := HwApply(SetChannel(st, i, c), i);
            Changed(st, r, i, c) && r.nv == st.nv && r.moves == st.moves && r.ramps == st.ramps
    ensures var r := OnOffStep(st, i, c);
            Changed(st, r, i, c) && Stored(st, r, i) && r.moves == st.moves && r.ramps == st.ramps
  {
    ApplyDisplays(SetChannel(st, i, c), i);
    hide HwApply, Displays;
  }

  // ----- On/Off -----

  /** Off keeps the level; On takes the On level if one is set; Toggle is the one or the other.
      All three show the endpoint and store it, and touch nothing else. */
  lemma OnOffCommands(st: State, i: nat)
    requires Shaped(st) && i < 6
    ensures var c := st.ch[i];
            var on := c.(onOff := true, currentLevel := if c.onLevel == 0xFF then c.currentLevel else c.onLevel);
            var r, s, t := Step(st, Off(i)), Step(st, On(i)), Step(st, Toggle(i));
            && Changed(st, r, i, c.(onOff := false)) && Changed(st, s, i, on)
            && Changed(st, t, i, if c.onOff then c.(onOff := false) else on)
            && Stored(st, r, i) && Stored(st, s, i) && Stored(st, t, i)
            && r.moves == s.moves == t.moves == st.moves && r.ramps == s.ramps == t.ramps == st.ramps
  {
    var c := st.ch[i];
    ShowChanges(st, i, c.(onOff := false));
    ShowChanges(st, i, TurnedOn(c));
    hide OnOffStep, Changed, Stored;
  }

  /** Off makes a lamp dark: its target is zero at once and its duty after so many callbacks,
      at most a hundred, if nothing else happens to it. */
  lemma OffDarkens(st: State, i: nat, n: nat)
    requires Dimmer.Inv(st) && i < 5 && n >= 100
    ensures Shaped(st)
    ensures var r := Step(st, Off(i));
            && r.fade.target[i] == 0 && Callbacks(r.fade, n).cur[i] == 0
            && forall j :: 0 <= j < 5 && j != i ==> r.fade.target[j] == st.fade.target[j]
  {
    Arrives(st, Off(i), n);
    assert Shaped(st);
    hide Dimmer.Inv, Step, Callbacks;
    OnOffCommands(st, i);
  }

  /** And On makes it as bright as its level says. */
  lemma OnLights(st: State, i: nat, n: nat)
    requires Dimmer.Inv(st) && i < 5 && n >= 100
    ensures Shaped(st)
    ensures var r, c := Step(st, On(i)), st.ch[i];
            var level := if c.onLevel == 0xFF then c.currentLevel else c.onLevel;
            && Lit(r.fade.target[i], true, level) && Lit(Callbacks(r.fade, n).cur[i], true, level)
            && forall j :: 0 <= j < 5 && j != i ==> r.fade.target[j] == st.fade.target[j]
  {
    Arrives(st, On(i), n);
    assert Shaped(st);
    hide Dimmer.Inv, Step, Callbacks, Lit;
    OnOffCommands(st, i);
  }

  /** Off, On and Toggle for the master decide all five. */
  lemma MasterCommands(st: State, e: Event, n: nat)
    requires Dimmer.Inv(st) && n >= 100 && (e == Off(5) || e == On(5) || e == Toggle(5))
    ensures Shaped(st)
    ensures var r := Step(st, e);
            && r.ch[5].onOff == (if e == Off(5) then false else if e == On(5) then true else !st.ch[5].onOff)
            && forall j :: 0 <= j < 5 ==>
                 && r.ch[j] == st.ch[j]
                 && Lit(Callbacks(r.fade, n).cur[j], r.ch[5].onOff && r.ch[j].onOff,
                        (r.ch[j].currentLevel as int) * r.ch[5].currentLevel / 254)
  {
    Arrives(st, e, n);
    assert Shaped(st);
    hide Dimmer.Inv, Step, Callbacks, Lit;
    OnOffCommands(st, 5);
  }

  lemma Arrives(st: State, e: Event, n: nat)
    requires Dimmer.Inv(st) && Enabled(st, e) && n >= 100
    requires Step(st, e).fade.armed
    ensures Callbacks(Step(st, e).fade, n).cur == Step(st, e).fade.target
  {
    hide Step, Callbacks, Remaining, Enabled, FadeEngine.Inv, FadeEngine.InRange, AtTarget;
    StepKeeps(st, e);
    var f := Step(st, e).fade;
    FadeFacts(f);
    AtMostHundred(f);
    StopsInTime(f, n);
    SameWhenThere(Callbacks(f, n));
  }

  lemma FadeFacts(f: Fade)
    requires FadeEngine.Inv(f)
    ensures FadeEngine.InRange(f) && Sized(f)
  {
  }

  lemma SameWhenThere(f: Fade)
    requires Sized(f) && AtTarget(f)
    ensures f.cur == f.target
  {
  }

  /** One callback of the fade engine: every duty goes up to 20 ticks towards its target. */
  lemma FadeTickMoves(st: State)
    requires Shaped(st) && st.fade.armed
    ensures var r := Step(st, FadeTick);
            && r == st.(fade := r.fade) && r.fade.target == st.fade.target
            && (r.fade.armed <==> st.fade.cur != st.fade.target)
            && forall i :: 0 <= i < 5 ==>
                 var (from, to, now) := (st.fade.cur[i], st.fade.target[i], r.fade.cur[i]);
                 && (from <= to ==> now == if to - from < 20 then to else from + 20)
                 && (to <= from ==> now == if from - to < 20 then to else from - 20)
  {
  }

  // ----- level commands -----

  /** A ramp towards `target` begins, or ends at once if there is no way to go. */
  ghost predicate RampBegun(st: State, r: State, i: nat, target: byte, time: nat, withOnOff: bool) {
    && Shaped(st) && Shaped(r) && i < 6 && r.moves == st.moves
    && (forall k :: 0 <= k < 6 && k != i ==> r.ramps[k] == st.ramps[k])
    && var c := st.ch[i];
       var from: int := c.currentLevel;
       var diff := if target > from then target - from else from - target;
       && (diff == 0 ==> r.ramps[i] == st.ramps[i].(armed := false))
       && (diff == 0 && withOnOff ==> Changed(st, r, i, c.(onOff := target > 0)) && Stored(st, r, i))
       && (diff > 0 ==>
             && r.nv == st.nv && r.ramps[i].armed && r.ramps[i].target == target && r.ramps[i].withOnOff == withOnOff
             && (var ms := if time == 0 then 10 else time * 100 / diff % 65536;
                 r.ramps[i].stepMs == if ms < 10 then 10 else ms))
       && (diff > 0 && withOnOff && target > 0 ==> Changed(st, r, i, c.(onOff := true)))
       && ((if diff > 0 then !(withOnOff && target > 0) else !withOnOff) ==>
             r.ch == st.ch && r.nv == st.nv && r.fade == st.fade)
  }

  lemma RampStartBegins(st: State, i: nat, target: byte, time: nat, withOnOff: bool)
    requires Shaped(st) && i < 6
    ensures RampBegun(st, RampStart(st, i, target, time, withOnOff), i, target, time, withOnOff)
  {
    var idle := st.(ramps := st.ramps[i := st.ramps[i].(armed := false)]);
    ShowChanges(idle, i, st.ch[i].(onOff := target > 0));
    ShowChanges(idle, i, st.ch[i].(onOff := true));
    hide HwApply, Displays;
  }

  /** Move to Level goes to the level within 1 and 254; Step up or down by the size, not beyond
      254 and 1; neither touches a Move. Writing the On level changes nothing else. */
  lemma LevelCommands(st: State, i: nat, x: byte, up: bool, time: nat, w: bool)
    requires Shaped(st) && i < 6
    ensures var level: int := st.ch[i].currentLevel;
            var to: byte := if x == 0 then 1 else if x == 255 then 254 else x;
            var high: byte := if level + x <= 254 then level + x else 254;
            var low: byte := if level - x >= 1 then level - x else 1;
            && RampBegun(st, Step(st, MoveToLevel(i, x, time, w)), i, to, time, w)
            && RampBegun(st, Step(st, LevelStep(i, up, x, time, w)), i, if up then high else low, time, w)
            && Step(st, WriteOnLevel(i, x)) == st.(ch := st.ch[i := st.ch[i].(onLevel := x)])
  {
    var level: int := st.ch[i].currentLevel;
    RampStartBegins(st, i, Clamped(x), time, w);
    RampStartBegins(st, i, Stepped(st.ch[i].currentLevel, up, x), time, w);
    hide RampStart, RampBegun;
  }

  /** A Move starts its timer, at 1000 milliseconds over the rate, and lights the endpoint if it
      goes up with On/Off; a Move under way is stopped and stored first. Stop stops a Move, and
      only a Move. */
  lemma MoveCommands(st: State, i: nat, up: bool, rate: byte, w: bool)
    requires Shaped(st) && i < 6
    ensures var r, s, c := Step(st, LevelMove(i, up, rate, w)), Step(st, Stop(i)), st.ch[i];
            && r.moves == st.moves[i := Move(true, up, if rate == 0 then 1000 else 1000 / rate as int, w)]
            && r.ramps == st.ramps
            && r.nv == (if st.moves[i].armed then st.nv[i := Some(c)] else st.nv)
            && (if w && up then Changed(st, r, i, c.(onOff := true)) else r.ch == st.ch && r.fade == st.fade)
            && s == (if st.moves[i].armed
                     then st.(moves := st.moves[i := st.moves[i].(armed := false)], nv := st.nv[i := Some(c)]) else st)
  {
    var idle := MoveStop(st, i);
    ShowChanges(idle, i, st.ch[i].(onOff := true));
    hide HwApply, Displays;
  }

  // ----- level timers -----

  /** One callback of a Move to Level: one level nearer, lit or not as On/Off asks, stored and
      stopped at the target. */
  lemma RampTickMoves(st: State, i: nat)
    requires Shaped(st) && i < 6 && st.ramps[i].armed
    ensures var r, m, c := Step(st, RampTick(i)), st.ramps[i], st.ch[i];
            var lv: byte := if c.currentLevel < m.target then c.currentLevel + 1
                            else if c.currentLevel > m.target then c.currentLevel - 1 else c.currentLevel;
            && Changed(st, r, i, c.(currentLevel := lv, onOff := if m.withOnOff then lv > 0 else c.onOff))
            && r.moves == st.moves && r.ramps == st.ramps[i := m.(armed := lv != m.target)]
            && (if lv == m.target then Stored(st, r, i) else r.nv == st.nv)
  {
    ShowChanges(st, i, Nudged(st.ch[i], st.ramps[i]));
    hide HwApply, Displays;
  }

  /** One callback of a Move: one level up or down within 1 and 254; at the end stored and
      stopped, and switched off if it goes down with On/Off. */
  lemma MoveTickMoves(st: State, i: nat)
    requires Shaped(st) && i < 6 && st.moves[i].armed
    ensures var r, m, c := Step(st, MoveTick(i)), st.moves[i], st.ch[i];
            var goes := if m.up then c.currentLevel < 254 else c.currentLevel > 1;
            var lv: byte := if !goes then c.currentLevel else if m.up then c.currentLevel + 1 else c.currentLevel - 1;
            var ends := if m.up then lv >= 254 else lv <= 1;
            var on := if ends && m.withOnOff && !m.up then false else c.onOff || (goes && m.withOnOff);
            && r.ch == st.ch[i := c.(currentLevel := lv, onOff := on)]
            && r.ramps == st.ramps && r.moves == st.moves[i := m.(armed := !ends)]
            && (if ends then Stored(st, r, i) else r.nv == st.nv)
            && (if goes || (ends && m.withOnOff && !m.up) then Changed(st, r, i, r.ch[i]) else r.fade == st.fade)
  {
    var m, c := st.moves[i], st.ch[i];
    var moved := MoveOne(st, i);
    if CanMove(c, m) {
      ShowChanges(st, i, Moved(c, m));
    }
    ShowChanges(moved, i, moved.ch[i].(onOff := false));
    ShownTwice(st, moved, HwApply(SetChannel(moved, i, moved.ch[i].(onOff := false)), i), i);
    hide HwApply, Displays;
  }

  /** Showing an endpoint twice is showing it once. */
  lemma ShownTwice(st: State, s: State, r: State, i: nat)
    requires Shaped(st) && Shaped(s) && Shaped(r) && i < 6 && (s == st || Changed(st, s, i, s.ch[i]))
    requires Changed(s, r, i, r.ch[i])
    ensures Changed(st, r, i, r.ch[i])
  {
  }

  // ----- keys and power -----

  /** An infrared key for on, off or toggle also decides what a restart brings back. */
  lemma SwitchKeys(st: State, i: nat, on: bool)
    requires Shaped(st) && i < 6
    ensures var c, r, s := st.ch[i], Step(st, IrOnOff(i, on)), Step(st, IrToggle(i));
            && Changed(st, r, i, c.(onOff := on, startUpOnOff := if on then 1 else 0))
            && Changed(st, s, i, c.(onOff := !c.onOff, startUpOnOff := if c.onOff then 0 else 1))
            && Stored(st, r, i) && Stored(st, s, i)
            && r.moves == s.moves == st.moves && r.ramps == s.ramps == st.ramps
  {
    hide OnOffStep, Changed, Stored;
    var c := st.ch[i];
    ShowChanges(st, i, c.(onOff := on, startUpOnOff := if on then 1 else 0));
    ShowChanges(st, i, c.(onOff := !c.onOff, startUpOnOff := if c.onOff then 0 else 1));
  }

  /** One for brighter or darker moves the level, lights the endpoint, and decides the level of
      a restart. */
  lemma DimKeys(st: State, i: nat, percent: int)
    requires Shaped(st) && i < 6
    ensures var c, r, lv := st.ch[i], Step(st, IrAdjust(i, percent)), KeyLevel(st.ch[i].currentLevel, percent);
            && Changed(st, r, i, c.(currentLevel := lv, startUpLevel := lv, onOff := true)) && Stored(st, r, i)
            && r.moves == st.moves && r.ramps == st.ramps
  {
    hide OnOffStep, Changed, Stored, Adjusted, KeyLevel;
    var c := st.ch[i];
    AdjustedIs(c.currentLevel, percent);
    var lv := KeyLevel(c.currentLevel, percent);
    ShowChanges(st, i, c.(currentLevel := lv, startUpLevel := lv, onOff := true));
  }

  /** What an endpoint is after a restart. */
  predicate ComesBack(saved: Option<Channel>, c: Channel) {
    match saved
    case None => c == Channel(false, 254, 0xFF, 0xFF, 0xFF)
    case Some(s) =>
      && c.onOff == (if s.startUpOnOff == 0 then false else if s.startUpOnOff == 1 then true
                     else if s.startUpOnOff == 2 then !s.onOff else s.onOff)
      && c.currentLevel == (if s.startUpLevel == 0xFF then s.currentLevel else s.startUpLevel)
      && c.onLevel == s.onLevel && c.startUpOnOff == s.startUpOnOff && c.startUpLevel == s.startUpLevel
  }

  /** A power cycle brings every endpoint back from storage, stops all timers, and starts from
      dark towards the five outputs as the master allows them. */
  lemma PowerCycles(st: State)
    requires Shaped(st)
    ensures var r := Step(st, PowerCycle);
            && Shaped(r)
            && (forall i :: 0 <= i < 6 ==>
                  && ComesBack(st.nv[i], r.ch[i])
                  && r.moves[i] == Move(false, false, 0, false) && r.ramps[i] == Ramp(false, 0, 0, false))
            && r.nv == st.nv && r.fade.cur == [0, 0, 0, 0, 0] && r.fade.armed
            && forall j :: 0 <= j < 5 ==>
                 Lit(r.fade.target[j], r.ch[5].onOff && r.ch[j].onOff,
                     (r.ch[j].currentLevel as int) * r.ch[5].currentLevel / 254)
  {
    var booted := Booted(st.nv);
    AppliedAll(booted, 5);
    ApplyDisplays(ApplyAll(booted, 5), 5);
    hide HwApply, Lit;
    assert ApplyAll(booted, 6) == HwApply(ApplyAll(booted, 5), 5);
  }

  lemma {:induction false} AppliedAll(st: State, n: nat)
    requires Shaped(st) && n <= 6
    ensures var r := ApplyAll(st, n);
            r == st.(fade := r.fade) && r.fade.cur == st.fade.cur
  {
    hide HwApply;
    if n > 0 {
      AppliedAll(st, n - 1);
      ApplyDisplays(ApplyAll(st, n - 1), n - 1);
    }
  }
}
