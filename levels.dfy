/** Level selection of src/levels.rs: the ordered `Level` state, the start-up
    target, the keyboard shortcuts and the pressure-plate and button signals
    that choose the next level, and what a restart does. */
module Levels {
  import opened Wrappers
  import opened Ui
  import opened Utils

  // ---------------------------------------------------------------------------
  // The level sequence
  // ---------------------------------------------------------------------------

  /** The level states, in declaration order; `Menu` is the default. */
  datatype Level = Loading | Test | Menu | Tutorial1 | Tutorial2

  const DefaultLevel: Level := Menu

  /** Position in declaration order, which the derived `Sequence` follows. */
  function Ordinal(l: Level): nat {
    match l
    case Loading => 0
    case Test => 1
    case Menu => 2
    case Tutorial1 => 3
    case Tutorial2 => 4
  }

  /** `Sequence::next`. */
  function Next(l: Level): (r: Option<Level>)
    ensures r.Some? ==> Ordinal(r.value) == Ordinal(l) + 1
  {
    match l
    case Loading => Some(Test)
    case Test => Some(Menu)
    case Menu => Some(Tutorial1)
    case Tutorial1 => Some(Tutorial2)
    case Tutorial2 => None
  }

  /** `Sequence::previous`. */
  function Previous(l: Level): Option<Level> {
    match l
    case Loading => None
    case Test => Some(Loading)
    case Menu => Some(Test)
    case Tutorial1 => Some(Menu)
    case Tutorial2 => Some(Tutorial1)
  }

  /** `Sequence::last`. */
  const LastLevel: Level := Tutorial2

  /** `next().unwrap_or_default()`. */
  function NextOrDefault(l: Level): Level {
    Next(l).GetOr(DefaultLevel)
  }

  /** `previous().unwrap_or_default()`. */
  function PreviousOrDefault(l: Level): Level {
    Previous(l).GetOr(DefaultLevel)
  }

  /** The order is the declaration order: `next` steps one up and stops after
      the last level, `previous` steps one down and stops before the first,
      and each undoes the other. */
  lemma SequenceOrder(a: Level, b: Level)
    ensures Next(a) == Some(b) <==> Previous(b) == Some(a)
    ensures Next(a) == Some(b) <==> Ordinal(b) == Ordinal(a) + 1
    ensures Next(a).None? <==> a == LastLevel
    ensures Previous(a).None? <==> Ordinal(a) == 0
    ensures Ordinal(a) <= Ordinal(LastLevel)
    ensures Ordinal(a) == Ordinal(b) ==> a == b
  {
  }

  /** `all::<Level>()` from `l` on: `l` and then each `next` in turn. */
  function AllFrom(l: Level): (r: seq<Level>)
    ensures |r| == 5 - Ordinal(l)
    decreases 5 - Ordinal(l)
  {
    match Next(l)
    case None => [l]
    case Some(m) => [l] + AllFrom(m)
  }

  /** `all::<Level>()`. */
  function AllLevels(): seq<Level> {
    AllFrom(Loading)
  }

  /** `all::<Level>()` lists every level once, in declaration order. */
  lemma AllLevelsInOrder()
    ensures |AllLevels()| == 5
    ensures forall i :: 0 <= i < |AllLevels()| ==> Ordinal(AllLevels()[i]) == i
    ensures forall l: Level :: l in AllLevels()
  {
    assert AllFrom(Tutorial2) == [Tutorial2];
    assert AllFrom(Tutorial1) == [Tutorial1, Tutorial2];
    assert AllFrom(Menu) == [Menu, Tutorial1, Tutorial2];
    assert AllFrom(Test) == [Test, Menu, Tutorial1, Tutorial2];
    assert AllLevels() == [Loading, Test, Menu, Tutorial1, Tutorial2];
    forall l: Level ensures l in AllLevels() {
      assert AllLevels()[Ordinal(l)] == l;
    }
  }

  /** The N key walks Menu, Tutorial1, Tutorial2 and back to Menu; P from the
      first level also lands on Menu. */
  lemma NextWrapsToMenu()
    ensures NextOrDefault(Menu) == Tutorial1 && NextOrDefault(Tutorial1) == Tutorial2
    ensures NextOrDefault(Tutorial2) == Menu && PreviousOrDefault(Loading) == Menu
    ensures forall l :: l != LastLevel ==> Ordinal(NextOrDefault(l)) == Ordinal(l) + 1
    ensures forall l :: l != Loading ==> Ordinal(PreviousOrDefault(l)) + 1 == Ordinal(l)
  {
  }

  // ---------------------------------------------------------------------------
  // The pending state
  // ---------------------------------------------------------------------------

  /** `NextState<Level>`: nothing queued, or a queued level. */
  datatype NextState = Unchanged | Pending(level: Level)

  /** `setup`: the level queued at start-up; `debugAssertions` is the
      `debug_assertions` build flag. */
  function StartupTarget(debugAssertions: bool): (l: Level)
    ensures debugAssertions ==> Next(l).None? && l == Tutorial2
    ensures !debugAssertions ==> l == DefaultLevel
  {
    if debugAssertions then LastLevel else Menu
  }

  /** The keys `handle_input` looks at. */
  datatype Key = KeyR | Home | KeyN | End | KeyP | Insert | OtherKey(code: nat)

  /** `handle_input`: the pending state after the frame's just-pressed keys. */
  function AfterInput(justPressed: set<Key>, current: Level, next: NextState): NextState {
    if KeyR in justPressed || Home in justPressed then Pending(current)
    else if KeyN in justPressed || End in justPressed then Pending(NextOrDefault(current))
    else if KeyP in justPressed || Insert in justPressed then Pending(PreviousOrDefault(current))
    else next
  }

  /** Restart wins over next, next over previous (both falling back to Menu
      at the ends of the sequence), and without any of those keys the pending
      state is left alone. */
  lemma InputPriority(justPressed: set<Key>, current: Level, next: NextState)
    ensures (KeyR in justPressed || Home in justPressed) ==> AfterInput(justPressed, current, next) == Pending(current)
    ensures (KeyR !in justPressed && Home !in justPressed && (KeyN in justPressed || End in justPressed)) ==>
      AfterInput(justPressed, current, next).Pending? &&
      AfterInput(justPressed, current, next).level == (if current == LastLevel then Menu else Next(current).value)
    ensures (KeyR !in justPressed && Home !in justPressed && KeyN !in justPressed && End !in justPressed &&
      (KeyP in justPressed || Insert in justPressed)) ==>
      AfterInput(justPressed, current, next) == Pending(if current == Loading then Menu else Previous(current).value)
    ensures justPressed * {KeyR, Home, KeyN, End, KeyP, Insert} == {} ==> AfterInput(justPressed, current, next) == next
  {
    var handled := {KeyR, Home, KeyN, End, KeyP, Insert};
    forall k | k in handled && k in justPressed ensures k in justPressed * handled {
    }
  }

  /** `PressurePlateEvent(plate, signal, pressed)`. */
  datatype PlateEvent = PlateEvent(plate: nat, signal: Signal, pressed: bool)

  /** The level a plate event asks for: only a pressed NextLevel or
      RestartLevel plate asks for one. */
  function PlateTarget(current: Level, e: PlateEvent): Option<Level> {
    if !e.pressed then None
    else
      match e.signal
      case NextLevel => Some(NextOrDefault(current))
      case RestartLevel => Some(current)
      case Custom(_) => None
  }

  /** The level a button signal asks for; a custom signal asks for none. */
  function SignalTarget(current: Level, s: Signal): Option<Level> {
    match s
    case NextLevel => Some(NextOrDefault(current))
    case RestartLevel => Some(current)
    case Custom(_) => None
  }

  /** One iteration of the plate loop of `level_events`. */
  function PlateStep(current: Level, next: NextState, e: PlateEvent): NextState {
    match e.signal
    case NextLevel => if e.pressed then Pending(NextOrDefault(current)) else next
    case RestartLevel => if e.pressed then Pending(current) else next
    case Custom(_) => next  // reported on stderr only
  }

  /** One iteration of the signal loop of `level_events`. */
  function SignalStep(current: Level, next: NextState, s: Signal): NextState {
    match s
    case NextLevel => Pending(NextOrDefault(current))
    case RestartLevel => Pending(current)
    case Custom(_) => next  // reported on stderr only
  }

  /** Each step sets the pending state to the level its event asks for, and
      leaves it alone when the event asks for none: a released plate or a
      custom signal never changes it, a button signal always does. */
  lemma StepsFollowTargets(current: Level, next: NextState, e: PlateEvent, s: Signal)
    ensures PlateStep(current, next, e) == if PlateTarget(current, e).Some? then Pending(PlateTarget(current, e).value) else next
    ensures SignalStep(current, next, s) == if SignalTarget(current, s).Some? then Pending(SignalTarget(current, s).value) else next
    ensures !e.pressed || e.signal.Custom? ==> PlateStep(current, next, e) == next
    ensures s.Custom? <==> SignalTarget(current, s).None?
  {
  }

  /** The pending state after the plate loop. */
  function AfterPlates(current: Level, next: NextState, es: seq<PlateEvent>): NextState {
    if es == [] then next
    else PlateStep(current, AfterPlates(current, next, es[..|es| - 1]), es[|es| - 1])
  }

  /** The pending state after the signal loop. */
  function AfterSignals(current: Level, next: NextState, ss: seq<Signal>): NextState {
    if ss == [] then next
    else SignalStep(current, AfterSignals(current, next, ss[..|ss| - 1]), ss[|ss| - 1])
  }

  /** `level_events`: all plate events, then all button signals. */
  function AfterLevelEvents(current: Level, next: NextState, es: seq<PlateEvent>, ss: seq<Signal>): NextState {
    AfterSignals(current, AfterPlates(current, next, es), ss)
  }

  /** Plate events that ask for no level (released plates, custom signals)
      leave the pending state alone. */
  lemma {:induction false} IgnoredPlatesKeepPending(current: Level, next: NextState, es: seq<PlateEvent>)
    requires forall k :: 0 <= k < |es| ==> PlateTarget(current, es[k]).None?
    ensures AfterPlates(current, next, es) == next
  {
    if es != [] {
      IgnoredPlatesKeepPending(current, next, es[..|es| - 1]);
    }
  }

  /** The last plate event that asks for a level decides the pending state. */
  lemma {:induction false} LastPlateDecides(current: Level, next: NextState, es: seq<PlateEvent>, k: nat)
    requires k < |es| && PlateTarget(current, es[k]).Some?
    requires forall j :: k < j < |es| ==> PlateTarget(current, es[j]).None?
    ensures AfterPlates(current, next, es) == Pending(PlateTarget(current, es[k]).value)
  {
    var n := |es| - 1;
    if k < n {
      LastPlateDecides(current, next, es[..n], k);
    }
  }

  /** Custom signals leave the pending state alone. */
  lemma {:induction false} IgnoredSignalsKeepPending(current: Level, next: NextState, ss: seq<Signal>)
    requires forall k :: 0 <= k < |ss| ==> SignalTarget(current, ss[k]).None?
    ensures AfterSignals(current, next, ss) == next
  {
    if ss != [] {
      IgnoredSignalsKeepPending(current, next, ss[..|ss| - 1]);
    }
  }

  /** The last NextLevel/RestartLevel signal decides the pending state. */
  lemma {:induction false} LastSignalDecides(current: Level, next: NextState, ss: seq<Signal>, k: nat)
    requires k < |ss| && SignalTarget(current, ss[k]).Some?
    requires forall j :: k < j < |ss| ==> SignalTarget(current, ss[j]).None?
    ensures AfterSignals(current, next, ss) == Pending(SignalTarget(current, ss[k]).value)
  {
    var n := |ss| - 1;
    if k < n {
      LastSignalDecides(current, next, ss[..n], k);
    }
  }

  /** Button signals are read after the plates, so one NextLevel/RestartLevel
      signal overrides whatever the plates asked for. */
  lemma SignalsOverridePlates(current: Level, next: NextState, es: seq<PlateEvent>, ss: seq<Signal>, k: nat)
    requires k < |ss| && SignalTarget(current, ss[k]).Some?
    requires forall j :: k < j < |ss| ==> SignalTarget(current, ss[j]).None?
    ensures AfterLevelEvents(current, next, es, ss) == Pending(SignalTarget(current, ss[k]).value)
  {
    LastSignalDecides(current, AfterPlates(current, next, es), ss, k);
  }

  // ---------------------------------------------------------------------------
  // Resources and systems
  // ---------------------------------------------------------------------------

  /** The `State<Level>` and `NextState<Level>` resources. */
  class LevelResources {
    var state: Level
    var nextState: NextState

    /** `insert_state(Level::Loading)`. */
    constructor ()
      ensures state == Loading && nextState == Unchanged
    {
      state, nextState := Loading, Unchanged;
    }

    /** The `Startup` system `setup`. */
    method Setup(debugAssertions: bool)
      modifies this`nextState
      ensures nextState == Pending(StartupTarget(debugAssertions))
    {
      if debugAssertions {
        nextState := Pending(LastLevel);
      } else {
        nextState := Pending(Menu);
      }
    }

    /** `handle_input`. */
    method HandleInput(justPressed: set<Key>)
      modifies this`nextState
      ensures nextState == AfterInput(justPressed, state, old(nextState))
    {
      if KeyR in justPressed || Home in justPressed {
        nextState := Pending(state);
      } else if KeyN in justPressed || End in justPressed {
        nextState := Pending(Next(state).GetOr(DefaultLevel));
      } else if KeyP in justPressed || Insert in justPressed {
        nextState := Pending(Previous(state).GetOr(DefaultLevel));
      }
    }

    /** `level_events`: the frame's pressure-plate events, then its button
        signals. */
    method LevelEvents(plates: seq<PlateEvent>, signals: seq<Signal>)
      modifies this`nextState
      ensures nextState == AfterLevelEvents(state, old(nextState), plates, signals)
    {
      var i := 0;
      while i < |plates|
        invariant 0 <= i <= |plates|
        invariant nextState == AfterPlates(state, old(nextState), plates[..i])
      {
        assert plates[..i + 1][..i] == plates[..i];
        var e := plates[i];
        match e.signal {
          case NextLevel =>
            if e.pressed {
              nextState := Pending(Next(state).GetOr(DefaultLevel));
            }
          case RestartLevel =>
            if e.pressed {
              nextState := Pending(state);
            }
          case Custom(_) =>
        }
        i := i + 1;
      }
      assert plates[..|plates|] == plates;
      ghost var afterPlates := nextState;
      var j := 0;
      while j < |signals|
        invariant 0 <= j <= |signals|
        invariant nextState == AfterSignals(state, afterPlates, signals[..j])
      {
        assert signals[..j + 1][..j] == signals[..j];
        match signals[j] {
          case NextLevel => nextState := Pending(Next(state).GetOr(DefaultLevel));
          case RestartLevel => nextState := Pending(state);
          case Custom(_) =>
        }
        j := j + 1;
      }
      assert signals[..|signals|] == signals;
    }
  }

  // ---------------------------------------------------------------------------
  // Transitions: restart is tear down plus set up
  // ---------------------------------------------------------------------------

  /** The `OnEnter` systems `LevelPlugin::build` registers. */
  function LevelEnterSchedules(): map<Level, seq<SystemId>> {
    map[Test := [SetupSystem("setup_test_level")],
        Menu := [SetupSystem("setup_main_menu")],
        Tutorial1 := [SetupSystem("setup_tutorial1")],
        Tutorial2 := [SetupSystem("setup_tutorial2")]]
  }

  /** The `OnExit` systems: `StateLocalPlugin::<Level>` adds
      `despawn_state_local` for every level. */
  function LevelExitSchedules(): map<Level, seq<SystemId>> {
    WithStateLocal(AllLevels(), map[])
  }

  /** `LevelPlugin::build`: `StateLocalPlugin::<Level>` puts
      `despawn_state_local` on every level's `OnExit`, then each playable
      level gets its setup system on `OnEnter`. */
  method BuildLevelPlugin() returns (app: Schedules<Level>)
    ensures app.onEnter == LevelEnterSchedules() && app.onExit == LevelExitSchedules()
  {
    app := new Schedules();
    app.BuildStateLocalPlugin(AllLevels());
    app.AddOnEnter(Test, SetupSystem("setup_test_level"));
    app.AddOnEnter(Menu, SetupSystem("setup_main_menu"));
    app.AddOnEnter(Tutorial1, SetupSystem("setup_tutorial1"));
    app.AddOnEnter(Tutorial2, SetupSystem("setup_tutorial2"));
    forall l | l in app.onEnter ensures app.onEnter[l] == LevelEnterSchedules()[l] {
    }
    assert app.onEnter.Keys == LevelEnterSchedules().Keys;
  }

  /** Bevy's own state transition (engine behaviour): a queued level becomes
      the current one and a transition event is emitted, even when the level
      does not change. */
  function ApplyNextState(current: Level, next: NextState): (Level, Option<Transition<Level>>) {
    match next
    case Unchanged => (current, None)
    case Pending(l) => (l, Some(Transition(Some(current), Some(l))))
  }

  /** The level whose `OnExit` schedule runs for a transition: Bevy runs it
      for a change of level, `run_reexit` for a same-level transition. */
  function ExitRun(last: Option<Transition<Level>>): Option<Level> {
    match last
    case None => None
    case Some(t) => if t.exited != t.entered then t.exited else ReexitSchedule(last)
  }

  /** The level whose `OnEnter` schedule runs for a transition. */
  function EnterRun(last: Option<Transition<Level>>): Option<Level> {
    match last
    case None => None
    case Some(t) => if t.exited != t.entered then t.entered else ReenterSchedule(last)
  }

  /** Every transition, to another level or to the same one, leaves the old
      level through its `OnExit` schedule, which despawns the state-local
      entities, and enters the new level through its `OnEnter` schedule. */
  lemma TransitionTearsDownAndSetsUp(current: Level, l: Level)
    ensures var (now, last) := ApplyNextState(current, Pending(l));
      now == l && ExitRun(last) == Some(current) && EnterRun(last) == Some(l) &&
      current in LevelExitSchedules() && DespawnStateLocal in LevelExitSchedules()[current] &&
      (l != Loading ==> l in LevelEnterSchedules() && |LevelEnterSchedules()[l]| == 1)
  {
    AllLevelsInOrder();
    WithStateLocalCovers(AllLevels(), map[]);
  }

  /** R or Home restarts the current level: the queued transition goes from
      the level to itself, so its state-local entities are despawned and its
      setup runs again. */
  lemma RestartIsTearDownAndSetUp(justPressed: set<Key>, current: Level, next: NextState)
    requires KeyR in justPressed || Home in justPressed
    ensures var (now, last) := ApplyNextState(current, AfterInput(justPressed, current, next));
      now == current &&
      ReexitSchedule(last) == Some(current) && ReenterSchedule(last) == Some(current) &&
      ExitRun(last) == Some(current) && EnterRun(last) == Some(current) &&
      current in LevelExitSchedules() && DespawnStateLocal in LevelExitSchedules()[current]
  {
    TransitionTearsDownAndSetsUp(current, current);
  }
}
