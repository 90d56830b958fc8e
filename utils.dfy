/** The state helpers of src/utils.rs: re-running `OnEnter`/`OnExit` on a
    transition into the same state, and "state-local" entities that are
    despawned, with their descendants, whenever a state is exited. */
module Utils {
  import opened Wrappers

  // ---------------------------------------------------------------------------
  // Identity transitions
  // ---------------------------------------------------------------------------

  /** `StateTransitionEvent<S>`: the state left and the state entered. */
  datatype Transition<S> = Transition(exited: Option<S>, entered: Option<S>)

  /** `run_reenter`: the state whose `OnEnter` schedule is run again for the
      last transition of the frame (`None`: nothing is run). */
  function ReenterSchedule<S(==)>(last: Option<Transition<S>>): Option<S> {
    match last
    case None => None
    case Some(t) =>
      if t.entered != t.exited then None
      else t.entered
  }

  /** `run_reexit`: the state whose `OnExit` schedule is run again. */
  function ReexitSchedule<S(==)>(last: Option<Transition<S>>): Option<S> {
    match last
    case None => None
    case Some(t) =>
      if t.entered != t.exited then None
      else t.exited
  }

  /** `OnEnter(s)` is re-run exactly for a transition from `s` to `s`. */
  lemma ReenterIff<S>(last: Option<Transition<S>>, s: S)
    ensures ReenterSchedule(last) == Some(s) <==>
      last.Some? && last.value.entered == last.value.exited && last.value.entered == Some(s)
    ensures ReenterSchedule(last).None? <==>
      last.None? || last.value.entered != last.value.exited || last.value.entered.None?
  {
  }

  /** `OnExit(s)` is re-run exactly for a transition from `s` to `s`. */
  lemma ReexitIff<S>(last: Option<Transition<S>>, s: S)
    ensures ReexitSchedule(last) == Some(s) <==>
      last.Some? && last.value.entered == last.value.exited && last.value.exited == Some(s)
    ensures ReexitSchedule(last).None? <==>
      last.None? || last.value.entered != last.value.exited || last.value.exited.None?
  {
  }

  // ---------------------------------------------------------------------------
  // Schedules
  // ---------------------------------------------------------------------------

  /** The systems the model tracks in the `OnEnter`/`OnExit` schedules. */
  datatype SystemId = DespawnStateLocal | SetupSystem(name: string)

  /** `app.add_systems(OnExit(s), sys)` on a schedule table. */
  function AddSystem<S(==)>(schedules: map<S, seq<SystemId>>, s: S, sys: SystemId): map<S, seq<SystemId>> {
    schedules[s := (if s in schedules then schedules[s] else []) + [sys]]
  }

  /** The `OnExit` schedules after `StateLocalPlugin::build` registers
      `despawn_state_local` for each state of `states`. */
  function WithStateLocal<S(==)>(states: seq<S>, onExit: map<S, seq<SystemId>>): map<S, seq<SystemId>> {
    if states == [] then onExit
    else
      var n := |states| - 1;
      AddSystem(WithStateLocal(states[..n], onExit), states[n], DespawnStateLocal)
  }

  /** After the plugin is built, exiting any listed state despawns the
      state-local entities; the schedules of other states are untouched and no
      system registered before is lost. */
  lemma {:induction false} WithStateLocalCovers<S>(states: seq<S>, onExit: map<S, seq<SystemId>>)
    ensures forall s :: s in states ==> s in WithStateLocal(states, onExit) && DespawnStateLocal in WithStateLocal(states, onExit)[s]
    ensures forall s :: s !in states && s in onExit ==> s in WithStateLocal(states, onExit) && WithStateLocal(states, onExit)[s] == onExit[s]
    ensures forall s :: s in onExit ==> s in WithStateLocal(states, onExit) && forall sys :: sys in onExit[s] ==> sys in WithStateLocal(states, onExit)[s]
    ensures WithStateLocal(states, onExit).Keys == onExit.Keys + set s | s in states
  {
    if states != [] {
      var n := |states| - 1;
      WithStateLocalCovers(states[..n], onExit);
      assert forall s :: s in states ==> s in states[..n] || s == states[n];
    }
  }

  /** The `OnEnter`/`OnExit` schedules of an app. */
  class Schedules<S(==)> {
    var onEnter: map<S, seq<SystemId>>
    var onExit: map<S, seq<SystemId>>

    constructor ()
      ensures onEnter == map[] && onExit == map[]
    {
      onEnter, onExit := map[], map[];
    }

    /** `app.add_systems(OnEnter(s), sys)`. */
    method AddOnEnter(s: S, sys: SystemId)
      modifies this`onEnter
      ensures onEnter == AddSystem(old(onEnter), s, sys)
    {
      onEnter := AddSystem(onEnter, s, sys);
    }

    /** `StateLocalPlugin::build`: one `despawn_state_local` on `OnExit` of
        every state, walking `all::<S>()`. */
    method BuildStateLocalPlugin(states: seq<S>)
      modifies this`onExit
      ensures onExit == WithStateLocal(states, old(onExit))
    {
      var i := 0;
      while i < |states|
        invariant 0 <= i <= |states|
        invariant onExit == WithStateLocal(states[..i], old(onExit))
      {
        assert states[..i + 1][..i] == states[..i];
        onExit := AddSystem(onExit, states[i], DespawnStateLocal);
        i := i + 1;
      }
      assert states[..|states|] == states;
    }
  }

  // ---------------------------------------------------------------------------
  // State-local entities
  // ---------------------------------------------------------------------------

  /** `e` and its ancestors, following `parent` at most `fuel` steps. */
  function Lineage(parent: map<nat, nat>, e: nat, fuel: nat): (r: set<nat>)
    ensures e in r
    decreases fuel
  {
    {e} + if fuel > 0 && e in parent then Lineage(parent, parent[e], fuel - 1) else {}
  }

  /** `e` and all its ancestors (a parent chain without repetition has at
      most `|parent|` steps). */
  function Ancestry(parent: map<nat, nat>, e: nat): (r: set<nat>)
    ensures e in r
  {
    Lineage(parent, e, |parent|)
  }

  /** The live entities that `despawn_recursive` on each of `roots` removes:
      the roots and all their descendants. */
  function Doomed(alive: set<nat>, parent: map<nat, nat>, roots: set<nat>): set<nat> {
    set e | e in alive && Ancestry(parent, e) * roots != {}
  }

  /** An entity goes exactly when it or one of its ancestors is a root; in
      particular every live root goes. */
  lemma DoomedIff(alive: set<nat>, parent: map<nat, nat>, roots: set<nat>, e: nat)
    ensures e in Doomed(alive, parent, roots) <==> e in alive && exists r :: r in roots && r in Ancestry(parent, e)
    ensures e in alive && e in roots ==> e in Doomed(alive, parent, roots)
  {
    if e in alive && e in roots {
      assert e in Ancestry(parent, e) * roots;
    }
    if e in alive && exists r :: r in roots && r in Ancestry(parent, e) {
      var r :| r in roots && r in Ancestry(parent, e);
      assert r in Ancestry(parent, e) * roots;
    }
  }

  /** The live entities `despawn_recursive(root)` removes: `root` and its
      descendants. */
  function Subtree(alive: set<nat>, parent: map<nat, nat>, root: nat): (r: set<nat>)
    ensures r <= alive
    ensures root in alive ==> root in r
  {
    set e | e in alive && root in Ancestry(parent, e)
  }

  /** Removing the descendants of one more root from what is left. */
  lemma DoomedStep(alive: set<nat>, parent: map<nat, nat>, done: set<nat>, root: nat, left: set<nat>)
    requires left == alive - Doomed(alive, parent, done)
    ensures left - Subtree(left, parent, root) == alive - Doomed(alive, parent, done + {root})
  {
    forall e ensures e in Doomed(alive, parent, done + {root}) <==>
      e in Doomed(alive, parent, done) || (e in alive && root in Ancestry(parent, e))
    {
      DoomedIff(alive, parent, done, e);
      DoomedIff(alive, parent, done + {root}, e);
    }
  }

  /** Every live root is among the removed entities. */
  lemma RootsDoomed(alive: set<nat>, parent: map<nat, nat>, roots: set<nat>)
    ensures alive * roots <= Doomed(alive, parent, roots)
  {
    forall e | e in alive * roots ensures e in Doomed(alive, parent, roots) {
      DoomedIff(alive, parent, roots, e);
    }
  }

  /** What is left after removing the subtrees of `tagged` holds no tagged entity. */
  lemma NoTaggedLeft(alive: set<nat>, parent: map<nat, nat>, tagged: set<nat>, left: set<nat>)
    requires tagged <= alive && left == alive - Doomed(alive, parent, tagged)
    ensures tagged * left == {}
  {
    RootsDoomed(alive, parent, tagged);
  }

  /** A number that is not in `s`. */
  ghost function Fresh(s: set<nat>): (r: nat)
    ensures forall x :: x in s ==> x < r
    decreases s
  {
    if s == {} then 0
    else
      var x :| x in s;
      var m := Fresh(s - {x});
      assert forall y :: y in s ==> y == x || y in s - {x};
      if x < m then m else x + 1
  }

  /** The entities of a world, their `StateLocal` tags and their `Parent`s. */
  class EntityWorld {
    var alive: set<nat>
    /** Entities carrying the `StateLocal` component. */
    var tagged: set<nat>
    /** `Parent` of each child entity. */
    var parent: map<nat, nat>

    ghost predicate Valid()
      reads this
    {
      tagged <= alive && parent.Keys <= alive
    }

    constructor ()
      ensures Valid() && alive == {} && tagged == {} && parent == map[]
    {
      alive, tagged, parent := {}, {}, map[];
    }

    /** `StateLocalSpawner::spawn`: a new entity carrying `StateLocal`. */
    method SpawnStateLocal() returns (e: nat)
      requires Valid()
      modifies this
      ensures Valid() && e !in old(alive)
      ensures alive == old(alive) + {e} && tagged == old(tagged) + {e} && parent == old(parent)
    {
      assert Fresh(alive) !in alive;
      e :| e !in alive;
      alive := alive + {e};
      tagged := tagged + {e};
    }

    /** `Commands::spawn`: a new entity without the tag. */
    method Spawn() returns (e: nat)
      requires Valid()
      modifies this
      ensures Valid() && e !in old(alive)
      ensures alive == old(alive) + {e} && tagged == old(tagged) && parent == old(parent)
    {
      assert Fresh(alive) !in alive;
      e :| e !in alive;
      alive := alive + {e};
    }

    /** `with_children(|cb| cb.spawn(..))`: a new untagged child of `p`. */
    method SpawnChild(p: nat) returns (e: nat)
      requires Valid() && p in alive
      modifies this
      ensures Valid() && e !in old(alive)
      ensures alive == old(alive) + {e} && tagged == old(tagged) && parent == old(parent)[e := p]
    {
      assert Fresh(alive) !in alive;
      e :| e !in alive;
      alive := alive + {e};
      parent := parent[e := p];
    }

    /** `despawn_recursive(root)` (engine behaviour): `root` and all its
        live descendants go. */
    method DespawnRecursive(root: nat)
      modifies this`alive
      ensures alive == old(alive) - Subtree(old(alive), parent, root)
    {
      alive := alive - Subtree(alive, parent, root);
    }

    /** `despawn_state_local`: `despawn_recursive` on every tagged entity. A
        tagged entity already removed with a tagged ancestor removes nothing
        more, since its descendants went with it. */
    method DespawnStateLocal()
      requires Valid()
      modifies this
      ensures Valid() && tagged == {}
      ensures alive == old(alive) - Doomed(old(alive), old(parent), old(tagged))
      ensures parent == map e | e in old(parent) && e in alive :: old(parent)[e]
    {
      DespawnTagged();
      DropDeadParents();
    }

    /** The loop of `despawn_state_local`. */
    method DespawnTagged()
      requires tagged <= alive
      modifies this`alive, this`tagged
      ensures tagged == {}
      ensures alive == old(alive) - Doomed(old(alive), parent, old(tagged))
    {
      ghost var before := alive;
      var todo := tagged;
      ghost var done: set<nat> := {};
      while todo != {}
        invariant todo + done == tagged && todo !! done
        invariant alive == before - Doomed(before, parent, done)
        modifies this`alive
        decreases todo
      {
        var root :| root in todo;
        ghost var next := done + {root};
        DoomedStep(before, parent, done, root, alive);
        DespawnRecursive(root);
        assert alive == before - Doomed(before, parent, next);
        assert (todo - {root}) + next == tagged && (todo - {root}) !! next;
        done := next;
        todo := todo - {root};
      }
      assert done == tagged;
      NoTaggedLeft(before, parent, tagged, alive);
      tagged := tagged * alive;
    }

    /** The `Parent` components go with their entities. */
    method DropDeadParents()
      modifies this`parent
      ensures parent.Keys <= alive
      ensures parent == map e | e in old(parent) && e in alive :: old(parent)[e]
    {
      parent := map e | e in parent && e in alive :: parent[e];
    }
  }

  /** After `despawn_state_local` no tagged entity is left, and an untagged
      entity without a tagged ancestor is still there. */
  lemma StateLocalTeardown(alive: set<nat>, parent: map<nat, nat>, tagged: set<nat>, e: nat)
    requires tagged <= alive
    ensures e in tagged ==> e !in alive - Doomed(alive, parent, tagged)
    ensures e in alive && (forall a :: a in Ancestry(parent, e) ==> a !in tagged) ==>
      e in alive - Doomed(alive, parent, tagged)
  {
    DoomedIff(alive, parent, tagged, e);
  }

  /** A state-local UI root with an untagged child spawned by `with_children`,
      beside an entity spawned without the tag: `despawn_state_local` removes
      the root together with its child and keeps the other entity. */
  method ChildTeardownScenario() returns (rootAlive: bool, childAlive: bool, otherAlive: bool)
    ensures !rootAlive && !childAlive && otherAlive
  {
    var w := new EntityWorld();
    var root := w.SpawnStateLocal();
    var child := w.SpawnChild(root);
    var other := w.Spawn();
    assert w.parent == map[child := root] && w.tagged == {root};
    assert |w.parent| == |w.parent.Keys| == |{child}| == 1;
    assert Lineage(w.parent, root, 0) == {root};
    assert Ancestry(w.parent, child) == {child, root};
    assert Ancestry(w.parent, other) == {other};
    w.DespawnStateLocal();
    rootAlive, childAlive, otherAlive := root in w.alive, child in w.alive, other in w.alive;
  }
}
