# The Beach Holiday: creature, level, button and state-local rules in Dafny

This project models the game logic of "The Beach Holiday", a Ludum Dare 56
Bevy game. In the game, round creatures stick to each other on contact, roll,
jump and blow their bonds apart, and the player moves between levels. Four
source files make up the core.

- **Creatures** (`creature.dfy`, src/creature.rs):
  - the species table;
  - the `Grounded` contact counter, kept by collision start and end events;
  - the decision to join two creatures with a fixed joint;
  - rolling with its angular-velocity cap;
  - the grounded and airborne jump;
  - the explode pass, which removes creature–creature joints and pushes their ends apart.

  Each Bevy system is a method of the class `CreatureWorld`, whose fields are
  the component maps. Each method is proved equal to a pure function of the
  old state and the frame's events, and the promised properties are lemmas
  about those functions.
- **Levels** (`levels.dfy`, src/levels.rs):
  - the ordered `Level` enum and its default;
  - the start-up target;
  - the keyboard shortcuts;
  - the mapping from pressure-plate events and button signals to the pending `NextState`.

  `LevelResources` holds the `State`/`NextState` resources, and its methods
  are the systems.
- **UI buttons** (`ui.dfy`, src/ui.rs): the armed-flag state machine of
  `button_system`, both for one button over many frames and for a frame over
  many `Button` objects.
- **State helpers** (`utils.dfy`, src/utils.rs):
  - re-running `OnEnter`/`OnExit` on a same-state transition;
  - the `StateLocalPlugin` schedule registration;
  - `despawn_state_local` over a world of entities with tags and parents.

  `Levels` combines these with `handle_input` to show that a restart tears
  the level down and sets it up again.

Modelling choices:
- Entities are `nat` ids.
- `f32` values are `real`.
- A `u32` counter that would go below zero is an `Err` naming the creature.
  A debug build panics there.
- Keyboard state, frame time and the explode directions are parameters.
- Commands that Bevy defers are applied at the end of their system:
  - joint spawns in `on_collision_enter`;
  - joint despawns in `explode`.
- The recursive despawns of `despawn_state_local` are applied inside its loop,
  one tagged entity at a time. The loop walks a snapshot of the tagged set
  taken before it starts, so the result equals applying them all after the
  system; a tagged entity already removed with a tagged ancestor removes
  nothing more.

## Model

| member | source | states |
|---|---|---|
| Creatures.SpeciesTable | src/creature.rs:48-87 | radius 22/18/20, density 2/1, jump 300/400/350, force 250/150, speed 120, bounciness 0.7/0.4 per species, and every value is positive |
| Creatures.SpawnBundle | src/creature.rs:128-148 | a spawned creature starts with ground counter 0, at the given position, with its species' radius, density and restitution |
| Creatures.SoleCreature | src/creature.rs:218-255 | the entity a contact event counts for is a creature, and it is one of the two sides |
| Creatures.EnterStep | src/creature.rs:218-255 | one start event raises only the single creature side's counter, by exactly 1; creature–creature and creature-free events change no counter |
| Creatures.ExitStep | src/creature.rs:264-278 | one end event lowers only the single creature side's counter by 1, and fails naming it when that counter is 0 |
| Creatures.EnterCounts | src/creature.rs:218-256 | after a batch of start events, each counter has grown by exactly the number of its creature's contacts in the batch |
| Creatures.ExitCounts | src/creature.rs:264-278 | a batch of end events succeeds if and only if no counter would go below 0, and then each counter shrinks by its contacts |
| Creatures.EnterExitRoundTrip | src/creature.rs:218-278 | a batch of starts followed by the matching ends restores every counter |
| Creatures.ContactsOnlyCreatures | src/creature.rs:244-254 | an entity that is not a creature, such as a plank, is never counted as having a contact |
| Creatures.CreaturePairKeepsCounters | src/creature.rs:219-243 | a start or end event between two creatures, the joint branch, leaves every counter unchanged |
| Creatures.UnmatchedExitUnderflows | src/creature.rs:264-278 | an end event for a creature with counter 0 is an underflow error on that creature |
| Creatures.ExitErrPersists | src/creature.rs:264-278 | once one end event underflows, the whole batch fails |
| Creatures.TwoPlanksScenario | src/creature.rs:156-165 | a creature touching two planks that leaves one is still grounded and gets the full jump |
| Creatures.FindLink | src/creature.rs:221-228 | the scan over existing joints reports true exactly when some joint links the pair in either order |
| Creatures.SpawnedJointsIff | src/creature.rs:219-243 | a batch spawns joint (a, b) if and only if it holds a start event (a, b) between two creatures that had no joint, in either order, before the batch |
| Creatures.SpawnKeepsSimple | src/creature.rs:219-243 | starting from joints with no doubled pair, a batch that names each unordered pair at most once leaves no pair with two joints |
| Creatures.SameBatchSpawnsTwice | src/creature.rs:219-243 | two start events for one new pair in the same batch both spawn a joint, because the check sees only the joints from before the batch |
| Creatures.RollRule | src/creature.rs:198-208 | left only gives min(15, av + delta): av + delta below the cap, 15 otherwise; right only gives max(-15, av - delta) likewise; both or neither leave av unchanged |
| Creatures.RollStaysCapped | src/creature.rs:198-208 | a roll keeps an angular velocity inside [-15, 15], and pulls one beyond the cap back to the cap in the direction rolled |
| Creatures.AirborneRollsAtHalfRate | src/creature.rs:200 | delta is dt times 120 on the ground and half that in the air |
| Creatures.JumpRule | src/creature.rs:156-165 | a jump adds jump() on the ground and a twentieth of it in the air, always upwards |
| Creatures.KickedIsSum | src/creature.rs:174-186 | after explode, each velocity is the old one plus the sum of the contributions of every creature–creature joint it ends |
| Creatures.ExplodeEqualAndOpposite | src/creature.rs:179-182 | a joint gives -dir to its first end and +dir to its second, and nothing to anyone else; for a unit direction, the length of dir is force1 + force2 |
| Creatures.SurvivorsIff | src/creature.rs:175-178 | a joint survives explode if and only if one of its ends is not a creature |
| Creatures.ExplodeIdempotent | src/creature.rs:174-186 | exploding what survived an explode removes nothing and pushes no one |
| Creatures.NoCreatureLinks | src/creature.rs:174-186 | with no creature–creature joint, explode changes nothing |
| Creatures.TwoNormalsScenario | src/creature.rs:174-186 | two joined Normal creatures, exploded along the x axis, fly apart at -300 and +300, and their joint is gone |
| Creatures.CreatureWorld.Spawn | src/creature.rs:128-148 | adds a creature with its species and counter; other creatures and the joints are unchanged |
| Creatures.CreatureWorld.OnCollisionEnter | src/creature.rs:211-257 | the new counters are the enter fold of the events, and the joints gain exactly the spawned joints |
| Creatures.CreatureWorld.CollisionStarted | src/creature.rs:219-255 | one start event raises the counter as the enter step does, and asks for a joint exactly when the event links two creatures with no joint between them |
| Creatures.CreatureWorld.OnCollisionExit | src/creature.rs:259-279 | reports success exactly when the exit fold succeeds, and the counters are then its result |
| Creatures.CreatureWorld.CollisionEnded | src/creature.rs:265-277 | one end event succeeds exactly when the exit step does, and then leaves its counters; on underflow no counter changes |
| Creatures.CreatureWorld.Movement | src/creature.rs:190-209 | every creature's angular velocity becomes its roll under the frame's keys |
| Creatures.CreatureWorld.DoJump | src/creature.rs:152-166 | on a just-pressed edge, every creature's vertical velocity grows by its jump kick and its horizontal velocity is unchanged; otherwise nothing changes |
| Creatures.CreatureWorld.Explode | src/creature.rs:168-188 | on a just-pressed edge, joints become the survivors and velocities the kicked ones; otherwise nothing changes |
| Creatures.CreatureWorld.ExplodeJoint | src/creature.rs:174-186 | one joint kicks the velocities as a single explode step does, and is kept if and only if one of its ends is not a creature |
| Ui.ReactRule | src/ui.rs:70-88 | Pressed arms the button with a white frame and sends nothing; Hovered sends if and only if the button was armed; Hovered and None always disarm; None shows a grey frame |
| Ui.ArmedIffLastPressed | src/ui.rs:70-88 | a button is armed exactly when its last interaction change was Pressed |
| Ui.SentArePressHoverSteps | src/ui.rs:70-88 | the signals a button sends are exactly its Pressed-to-Hovered steps |
| Ui.AtMostOncePerPress | src/ui.rs:70-88 | sends plus the final armed flag never exceed the presses (plus one if it started armed) |
| Ui.SpawnedButtonSendsAtMostPresses | src/ui.rs:143 | a button spawned unarmed sends at most once per press |
| Ui.OutboxFromArmedHovered | src/ui.rs:76-82 | every signal a frame sends comes from a button that was armed and is now hovered, and is that button's signal |
| Ui.UnarmedSendNothing | src/ui.rs:76-82 | a frame in which no button was armed sends nothing |
| Ui.ButtonSystem | src/ui.rs:63-89 | every changed button takes the armed flag and frame of its reaction, and the frame sends the armed-and-hovered buttons' signals in query order |
| Ui.Button.constructor | src/ui.rs:143 | a new button is unarmed with the grey frame |
| Ui.Button.Interact | src/ui.rs:70-88 | a changed interaction gives the button the armed flag and frame of its reaction, and sends exactly when the reaction does |
| Utils.ReenterIff | src/utils.rs:27-38 | OnEnter(s) is re-run if and only if there is a transition, entered equals exited, and entered is s; otherwise nothing runs |
| Utils.ReexitIff | src/utils.rs:40-51 | OnExit(s) is re-run if and only if there is a transition, entered equals exited, and exited is s; otherwise nothing runs |
| Utils.WithStateLocalCovers | src/utils.rs:73-78 | after the plugin is built, every listed state's OnExit holds despawn_state_local; other states' schedules are untouched; no system is lost |
| Utils.Schedules.BuildStateLocalPlugin | src/utils.rs:73-78 | the registration loop yields the schedule table of the fold |
| Utils.Schedules.AddOnEnter | src/levels.rs:21-24 | add_systems(OnEnter(s), sys) appends sys to s's schedule and leaves the others |
| Utils.DoomedIff | src/utils.rs:56-60 | despawn_recursive removes an entity if and only if it or an ancestor is tagged, so every tagged entity goes |
| Utils.EntityWorld.SpawnStateLocal | src/utils.rs:64-67 | every entity spawned through the state-local spawner is new and tagged |
| Utils.EntityWorld.Spawn | src/creature.rs:231 | a plain Commands::spawn adds a new entity without the tag and without a parent |
| Utils.EntityWorld.SpawnChild | src/levels.rs:122-123 | with_children adds a new untagged entity whose parent is the given one |
| Utils.EntityWorld.DespawnStateLocal | src/utils.rs:56-60 | exactly the tagged entities and their descendants are removed, and no tagged entity is left |
| Utils.EntityWorld.DespawnTagged | src/utils.rs:56-60 | the loop over tagged entities removes exactly the tagged entities and their descendants, and no tag is left |
| Utils.EntityWorld.DespawnRecursive | src/utils.rs:58 | despawn_recursive removes an entity and every alive descendant of it, and nothing else |
| Utils.EntityWorld.DropDeadParents | src/utils.rs:56-60 | after the despawn, parent links are kept exactly for alive entities |
| Utils.StateLocalTeardown | src/utils.rs:56-60 | after the despawn, no tagged entity is alive, and an untagged entity with no tagged ancestor survives |
| Utils.ChildTeardownScenario | src/levels.rs:107-123 | a state-local root and the untagged child spawned under it are both despawned on exit, while an entity spawned without the tag survives |
| Levels.SequenceOrder | src/levels.rs:30-40 | levels are ordered Loading < Test < Menu < Tutorial1 < Tutorial2; next and previous step by one and are inverse; only Tutorial2 has no next, and only Loading has no previous |
| Levels.AllLevelsInOrder | src/levels.rs:30-40 | all::<Level>() lists the five levels once each, in declaration order |
| Levels.NextWrapsToMenu | src/levels.rs:56-59 | next past Tutorial2 and previous before Loading fall back to the default, Menu |
| Levels.StartupTarget | src/levels.rs:42-47 | start-up queues the last level, Tutorial2, in debug builds and Menu otherwise |
| Levels.InputPriority | src/levels.rs:54-60 | R/Home queues the current level; otherwise N/End queues next-or-Menu; otherwise P/Insert queues previous-or-Menu; without any handled key the pending state is untouched |
| Levels.StepsFollowTargets | src/levels.rs:69-94 | a plate changes the pending state only when pressed with NextLevel/RestartLevel; a button signal always does unless it is Custom |
| Levels.IgnoredPlatesKeepPending | src/levels.rs:69-85 | released plates and custom plate signals leave the pending state alone |
| Levels.LastPlateDecides | src/levels.rs:69-85 | the last plate event that asks for a level decides the pending state |
| Levels.IgnoredSignalsKeepPending | src/levels.rs:86-94 | custom button signals leave the pending state alone |
| Levels.LastSignalDecides | src/levels.rs:86-94 | the last NextLevel/RestartLevel signal decides the pending state |
| Levels.SignalsOverridePlates | src/levels.rs:63-95 | button signals are read after plates, so one NextLevel/RestartLevel signal overrides what the plates asked for |
| Levels.LevelResources.Setup | src/levels.rs:42-47 | the start-up system queues the start-up target |
| Levels.LevelResources.HandleInput | src/levels.rs:49-61 | the pending state becomes the input function's result |
| Levels.LevelResources.LevelEvents | src/levels.rs:63-95 | the pending state becomes the fold over plates and then signals |
| Levels.BuildLevelPlugin | src/levels.rs:14-27 | building the plugin gives each playable level exactly its setup system on OnEnter and every level despawn_state_local on OnExit |
| Levels.TransitionTearsDownAndSetsUp | src/levels.rs:14-27 | every queued transition runs the old level's OnExit, which holds despawn_state_local, and the new level's OnEnter setup |
| Levels.RestartIsTearDownAndSetUp | src/levels.rs:54-55 | R/Home queues a transition from the level to itself, which re-runs its OnExit (despawning state-local entities) and its OnEnter |

## Left out

- Rendering and assets are not modelled. This covers creature meshes and colours, the arm gizmos (`arms`), the level content builders (`setup_main_menu`, `setup_test_level`, the tutorials), and the layout and fonts of `spawn_sign` and `spawn_button`. Only the names of the level setup systems appear, as `SetupSystem` entries.
- Joint anchors are not modelled: their geometry is `transform_point`/`normalize` on floats. The model keeps only which pair is joined. Both anchors are computed from the first entity's transform and creature: src/creature.rs:229 and src/creature.rs:230 both look up `e1`, so `t2, c2` describe `e1`, not `e2`, and the model neither reproduces nor corrects this.
- Creatures.CreatureWorld.Explode: the normalised direction between the two creatures is a parameter (`dirs`, one per joint); normalisation, including that of a zero vector, is not modelled.
- Creatures.ExitStep: only the debug-build panic on `u32` underflow is modelled (as `Err`); the wrap-around of a release build is not.
- Creatures.EnterStep: the `u32` counter does not overflow in the model (unbounded `nat`).
- `f32` rounding is not modelled; quantities are exact reals.
- The `eprintln!` reports for custom signals are output only and are not modelled.
- Keyboard state (`just_pressed`/`pressed`) and frame time are parameters.
- Bevy's scheduler is not modelled. This covers the order between systems in the same `Update` (`handle_input` and `level_events` run unordered), command application and the physics solver. Bevy's own transition step is reduced to `Levels.ApplyNextState`, `ExitRun` and `EnterRun`.
- Creatures.CreatureWorld.OnCollisionExit: when a counter underflows the game panics, and the model states nothing about the counters after that.
- src/audio.rs, src/objects.rs, src/main.rs and the older src/levels/mod.rs are not part of this model: they are asset loading, random playback, float geometry and wiring.
- `jump` and `movement` act on every creature; no controlled subset exists in this code, so none is modelled.
