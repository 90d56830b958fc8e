/** The creature simulation rules of src/creature.rs: the species table, the
    per-creature ground-contact counter, joint creation on creature contact,
    rolling, jumping and the "explode" action.

    Entities are `nat` ids; the ECS components the systems touch are fields of
    `CreatureWorld`. Every system is a method proved against a pure, fold-left
    specification function, and the properties of the game are lemmas about
    those functions. */
module Creatures {
  import opened Wrappers

  // ---------------------------------------------------------------------------
  // Species table
  // ---------------------------------------------------------------------------

  /** The four creature kinds; `Normal` is the derived default. */
  datatype Species = Normal | Bouncy | Explosive | Heavy

  /** Collider radius. */
  function Radius(s: Species): real {
    match s
    case Heavy => 22.0
    case Bouncy => 18.0
    case _ => 20.0
  }

  /** Collider density. */
  function Density(s: Species): real {
    match s
    case Heavy => 2.0
    case _ => 1.0
  }

  /** Vertical velocity added by a grounded jump. */
  function Jump(s: Species): real {
    match s
    case Heavy => 300.0
    case Explosive | Bouncy => 400.0
    case _ => 350.0
  }

  /** Share of the separating velocity an exploding link gives. */
  function Force(s: Species): real {
    match s
    case Explosive => 250.0
    case _ => 150.0
  }

  /** Roll acceleration, the same for every species. */
  function Speed(s: Species): real {
    120.0
  }

  /** Restitution coefficient of the collider. */
  function Bounciness(s: Species): real {
    match s
    case Bouncy => 0.7
    case _ => 0.4
  }

  /** The species table: every constant is positive, restitution stays below 1,
      and each species stands out exactly where the game intends it to. */
  lemma SpeciesTable(s: Species)
    ensures Radius(s) > 0.0 && Density(s) > 0.0 && Jump(s) > 0.0
    ensures Force(s) > 0.0 && Speed(s) > 0.0
    ensures 0.0 < Bounciness(s) < 1.0
    ensures Radius(s) == (if s == Heavy then 22.0 else if s == Bouncy then 18.0 else 20.0)
    ensures Density(s) == (if s == Heavy then 2.0 else 1.0)
    ensures Jump(s) == (if s == Heavy then 300.0 else if s == Normal then 350.0 else 400.0)
    ensures Force(s) == (if s == Explosive then 250.0 else 150.0)
    ensures Speed(s) == 120.0
    ensures Bounciness(s) == (if s == Bouncy then 0.7 else 0.4)
  {
  }

  // ---------------------------------------------------------------------------
  // Vectors, events, joints
  // ---------------------------------------------------------------------------

  /** A 2-D vector of reals standing for glam's `Vec2` of `f32`. */
  datatype Vec = Vec(x: real, y: real) {
    function Plus(o: Vec): Vec { Vec(x + o.x, y + o.y) }
    function Minus(o: Vec): Vec { Vec(x - o.x, y - o.y) }
    function Scale(k: real): Vec { Vec(k * x, k * y) }
    function NormSquared(): real { x * x + y * y }
  }

  const Zero: Vec := Vec(0.0, 0.0)

  /** `CollisionStarted(e1, e2)` / `CollisionEnded(e1, e2)`. */
  datatype Collision = Collision(e1: nat, e2: nat)

  /** A `FixedJoint` between two bodies. */
  datatype Joint = Joint(entity1: nat, entity2: nat)

  /** What `Creature::spawn` puts on a new creature entity. */
  datatype CreatureBundle = CreatureBundle(
    position: Vec,
    species: Species,
    radius: real,
    density: real,
    restitution: real,
    staticFriction: real,
    dynamicFriction: real,
    grounded: nat)

  /** The bundle of a creature spawned at (x, y). */
  function SpawnBundle(x: real, y: real, s: Species): (b: CreatureBundle)
    ensures b.grounded == 0 && b.species == s && b.position == Vec(x, y)
    ensures b.radius == Radius(s) && b.density == Density(s) && b.restitution == Bounciness(s)
    ensures b.radius > 0.0 && b.density > 0.0 && 0.0 < b.restitution < 1.0
  {
    CreatureBundle(Vec(x, y), s, Radius(s), Density(s), Bounciness(s), 1.1, 0.9, 0)
  }

  // ---------------------------------------------------------------------------
  // Ground contact counter
  // ---------------------------------------------------------------------------

  /** The creature of a collision in which exactly one side is a creature. */
  function SoleCreature(cs: set<nat>, ev: Collision): (r: Option<nat>)
    ensures r.Some? ==> r.value in cs && (r.value == ev.e1 || r.value == ev.e2)
  {
    if (ev.e1 in cs) == (ev.e2 in cs) then None
    else if ev.e1 in cs then Some(ev.e1)
    else Some(ev.e2)
  }

  /** How many events of `evs` have `c` as their only creature. */
  function Contacts(cs: set<nat>, evs: seq<Collision>, c: nat): nat {
    if evs == [] then 0
    else Contacts(cs, evs[..|evs| - 1], c) + (if SoleCreature(cs, evs[|evs| - 1]) == Some(c) then 1 else 0)
  }

  /** The counters after one `CollisionStarted`, following the branches of
      `on_collision_enter`. */
  function EnterStep(cs: set<nat>, g: map<nat, nat>, ev: Collision): (g': map<nat, nat>)
    requires cs <= g.Keys
    ensures g'.Keys == g.Keys
    ensures SoleCreature(cs, ev).None? ==> g' == g
    ensures SoleCreature(cs, ev).Some? ==>
      var c := SoleCreature(cs, ev).value; g' == g[c := g[c] + 1]
  {
    if ev.e1 in cs then
      if ev.e2 in cs then g  // creature pair: handled by the joint rule
      else g[ev.e1 := g[ev.e1] + 1]
    else if ev.e2 in cs then g[ev.e2 := g[ev.e2] + 1]
    else g
  }

  /** The counters after a batch of `CollisionStarted` events. */
  function GroundedAfterEnter(cs: set<nat>, g: map<nat, nat>, evs: seq<Collision>): (g': map<nat, nat>)
    requires cs <= g.Keys
    ensures g'.Keys == g.Keys
  {
    if evs == [] then g
    else EnterStep(cs, GroundedAfterEnter(cs, g, evs[..|evs| - 1]), evs[|evs| - 1])
  }

  /** `grounded.0 -= 1` on a `u32`: a zero counter panics (debug build). */
  function Decrement(g: map<nat, nat>, e: nat): (r: Result<map<nat, nat>, nat>)
    requires e in g
  {
    if g[e] == 0 then Err(e) else Ok(g[e := g[e] - 1])
  }

  /** The counters after one `CollisionEnded`, following the branches of
      `on_collision_exit`; `Err(e)` is the underflow of `e`'s counter. */
  function ExitStep(cs: set<nat>, g: map<nat, nat>, ev: Collision): (r: Result<map<nat, nat>, nat>)
    requires cs <= g.Keys
    ensures r.Ok? ==> r.value.Keys == g.Keys
    ensures SoleCreature(cs, ev).None? ==> r == Ok(g)
    ensures SoleCreature(cs, ev).Some? ==>
      var c := SoleCreature(cs, ev).value;
      r == if g[c] == 0 then Err(c) else Ok(g[c := g[c] - 1])
  {
    if ev.e1 in cs then
      if ev.e2 !in cs then Decrement(g, ev.e1) else Ok(g)
    else if ev.e2 in cs then Decrement(g, ev.e2)
    else Ok(g)
  }

  /** The counters after a batch of `CollisionEnded` events, or the first
      creature whose counter would underflow. */
  function GroundedAfterExit(cs: set<nat>, g: map<nat, nat>, evs: seq<Collision>): (r: Result<map<nat, nat>, nat>)
    requires cs <= g.Keys
    ensures r.Ok? ==> r.value.Keys == g.Keys
  {
    if evs == [] then Ok(g)
    else
      match GroundedAfterExit(cs, g, evs[..|evs| - 1])
      case Err(e) => Err(e)
      case Ok(h) => ExitStep(cs, h, evs[|evs| - 1])
  }

  /** Starting contacts add up: each creature's counter grows by exactly the
      number of events in which it alone is a creature. */
  lemma {:induction false} EnterCounts(cs: set<nat>, g: map<nat, nat>, evs: seq<Collision>)
    requires cs <= g.Keys
    ensures forall c :: c in g ==> GroundedAfterEnter(cs, g, evs)[c] == g[c] + Contacts(cs, evs, c)
  {
    if evs != [] {
      EnterCounts(cs, g, evs[..|evs| - 1]);
    }
  }

  /** A batch of ending contacts goes through exactly when no creature ends
      more contacts than its counter holds, and then each counter drops by the
      number of contacts it ended. */
  lemma {:induction false} ExitCounts(cs: set<nat>, g: map<nat, nat>, evs: seq<Collision>)
    requires cs <= g.Keys
    ensures GroundedAfterExit(cs, g, evs).Ok? <==> forall c :: c in cs ==> Contacts(cs, evs, c) <= g[c]
    ensures GroundedAfterExit(cs, g, evs).Ok? ==>
      forall c :: c in g ==> GroundedAfterExit(cs, g, evs).value[c] + Contacts(cs, evs, c) == g[c]
  {
    if evs != [] {
      var p, ev := evs[..|evs| - 1], evs[|evs| - 1];
      ExitCounts(cs, g, p);
      if GroundedAfterExit(cs, g, p).Err? {
        // some creature already had too many ending contacts in the prefix
        var c :| c in cs && Contacts(cs, p, c) > g[c];
        assert Contacts(cs, evs, c) >= Contacts(cs, p, c);
      }
    }
  }

  /** Restoring: ending the contacts that were started leaves every counter as
      it was (the ends may come in any order, as long as each creature ends
      as many contacts as it started). */
  lemma EnterExitRoundTrip(cs: set<nat>, g: map<nat, nat>, starts: seq<Collision>, ends: seq<Collision>)
    requires cs <= g.Keys
    requires forall c :: c in cs ==> Contacts(cs, ends, c) == Contacts(cs, starts, c)
    ensures GroundedAfterExit(cs, GroundedAfterEnter(cs, g, starts), ends) == Ok(g)
  {
    var h := GroundedAfterEnter(cs, g, starts);
    EnterCounts(cs, g, starts);
    ExitCounts(cs, h, ends);
    forall c | c in cs ensures Contacts(cs, ends, c) <= h[c] {
    }
    assert GroundedAfterExit(cs, h, ends).Ok?;
    var r := GroundedAfterExit(cs, h, ends).value;
    assert r.Keys == g.Keys;
    forall c | c in g ensures r[c] == g[c] {
      if c !in cs {
        assert Contacts(cs, starts, c) == 0 by { ContactsOnlyCreatures(cs, starts, c); }
        assert Contacts(cs, ends, c) == 0 by { ContactsOnlyCreatures(cs, ends, c); }
      }
    }
    assert r == g;
  }

  /** Only creatures make contacts. */
  lemma {:induction false} ContactsOnlyCreatures(cs: set<nat>, evs: seq<Collision>, c: nat)
    requires c !in cs
    ensures Contacts(cs, evs, c) == 0
  {
    if evs != [] {
      ContactsOnlyCreatures(cs, evs[..|evs| - 1], c);
    }
  }

  /** A contact between two creatures is the joint branch: its start and its
      end leave every counter as it was. */
  lemma CreaturePairKeepsCounters(cs: set<nat>, g: map<nat, nat>, ev: Collision)
    requires cs <= g.Keys && ev.e1 in cs && ev.e2 in cs
    ensures EnterStep(cs, g, ev) == g
    ensures ExitStep(cs, g, ev) == Ok(g)
  {
  }

  /** An ending contact the counter never saw start is a `u32` underflow. */
  lemma UnmatchedExitUnderflows(cs: set<nat>, g: map<nat, nat>, ev: Collision)
    requires cs <= g.Keys
    requires SoleCreature(cs, ev).Some? && g[SoleCreature(cs, ev).value] == 0
    ensures GroundedAfterExit(cs, g, [ev]) == Err(SoleCreature(cs, ev).value)
  {
    assert [ev][..0] == [];
  }

  /** Once a batch underflows, later events cannot undo it. */
  lemma {:induction false} ExitErrPersists(cs: set<nat>, g: map<nat, nat>, evs: seq<Collision>, k: nat)
    requires cs <= g.Keys && k <= |evs|
    requires GroundedAfterExit(cs, g, evs[..k]).Err?
    ensures GroundedAfterExit(cs, g, evs).Err?
  {
    if k < |evs| {
      var p := evs[..|evs| - 1];
      assert p[..k] == evs[..k];
      ExitErrPersists(cs, g, p, k);
    } else {
      assert evs[..k] == evs;
    }
  }

  /** A creature resting on two planks that leaves one of them stays grounded
      and still gets the full jump. */
  lemma TwoPlanksScenario(c: nat, plank1: nat, plank2: nat, s: Species)
    requires c != plank1 && c != plank2 && plank1 != plank2
    ensures var cs := {c};
      var on := GroundedAfterEnter(cs, map[c := 0], [Collision(c, plank1), Collision(plank2, c)]);
      on[c] == 2 &&
      GroundedAfterExit(cs, on, [Collision(plank1, c)]) == Ok(map[c := 1]) &&
      JumpKick(s, 1) == Jump(s)
  {
    var cs := {c};
    var starts := [Collision(c, plank1), Collision(plank2, c)];
    assert starts[..1] == [Collision(c, plank1)];
    assert starts[..1][..0] == [];
    var one := GroundedAfterEnter(cs, map[c := 0], starts[..1]);
    assert GroundedAfterEnter(cs, map[c := 0], starts[..1][..0]) == map[c := 0];
    assert one == EnterStep(cs, map[c := 0], Collision(c, plank1));
    assert one == map[c := 1];
    var on := GroundedAfterEnter(cs, map[c := 0], starts);
    assert on == EnterStep(cs, one, Collision(plank2, c));
    assert on == map[c := 2];
    assert [Collision(plank1, c)][..0] == [];
    assert GroundedAfterExit(cs, on, [Collision(plank1, c)]) == ExitStep(cs, on, Collision(plank1, c));
    assert on[c := 1] == map[c := 1];
  }

  // ---------------------------------------------------------------------------
  // Joint creation
  // ---------------------------------------------------------------------------

  /** Joint `j` binds `a` and `b`, in either order. */
  predicate Links(j: Joint, a: nat, b: nat) {
    (j.entity1 == a && j.entity2 == b) || (j.entity1 == b && j.entity2 == a)
  }

  /** Some joint of `joints` binds `a` and `b`. */
  predicate Linked(joints: seq<Joint>, a: nat, b: nat) {
    exists k :: 0 <= k < |joints| && Links(joints[k], a, b)
  }

  /** The inner loop of `on_collision_enter`: is there a joint between the two
      bodies in either order? */
  method FindLink(joints: seq<Joint>, a: nat, b: nat) returns (linked: bool)
    ensures linked <==> Linked(joints, a, b)
  {
    var k := 0;
    while k < |joints|
      invariant 0 <= k <= |joints|
      invariant forall i :: 0 <= i < k ==> !Links(joints[i], a, b)
    {
      var joint := joints[k];
      if joint.entity1 == a && joint.entity2 == b {
        return true;
      }
      if joint.entity1 == b && joint.entity2 == a {
        return true;
      }
      k := k + 1;
    }
    return false;
  }

  /** A `CollisionStarted` between two creatures that the joints existing
      before the batch do not link yet spawns a joint. */
  predicate SpawnsJoint(cs: set<nat>, existing: seq<Joint>, ev: Collision) {
    ev.e1 in cs && ev.e2 in cs && !Linked(existing, ev.e1, ev.e2)
  }

  /** The joints a batch of `CollisionStarted` events spawns. The spawns go
      through deferred commands, so every event is checked against the
      joints that existed before the batch. */
  function SpawnedJoints(cs: set<nat>, existing: seq<Joint>, evs: seq<Collision>): seq<Joint> {
    if evs == [] then []
    else
      var ev := evs[|evs| - 1];
      SpawnedJoints(cs, existing, evs[..|evs| - 1])
        + (if SpawnsJoint(cs, existing, ev) then [Joint(ev.e1, ev.e2)] else [])
  }

  /** A joint is spawned between `a` and `b` exactly when the batch has a
      creature–creature start `(a, b)` and no earlier joint links the pair. */
  lemma {:induction false} SpawnedJointsIff(cs: set<nat>, existing: seq<Joint>, evs: seq<Collision>, a: nat, b: nat)
    ensures Joint(a, b) in SpawnedJoints(cs, existing, evs) <==>
      Collision(a, b) in evs && a in cs && b in cs && !Linked(existing, a, b)
  {
    if evs != [] {
      var p := evs[..|evs| - 1];
      SpawnedJointsIff(cs, existing, p, a, b);
      assert evs == p + [evs[|evs| - 1]];
    }
  }

  /** No two joints bind the same pair of bodies. */
  ghost predicate Simple(joints: seq<Joint>) {
    forall i, k :: 0 <= i < k < |joints| ==> !Links(joints[i], joints[k].entity1, joints[k].entity2)
  }

  /** No two events of the batch are about the same pair of bodies. */
  ghost predicate DistinctPairs(evs: seq<Collision>) {
    forall i, k :: 0 <= i < k < |evs| ==> !Links(Joint(evs[i].e1, evs[i].e2), evs[k].e1, evs[k].e2)
  }

  /** The link graph stays simple: repeated contact between linked creatures
      never adds a second joint, provided a batch does not start the same pair
      twice (see `SameBatchSpawnsTwice` for what happens when it does). */
  lemma {:induction false} SpawnKeepsSimple(cs: set<nat>, existing: seq<Joint>, evs: seq<Collision>)
    requires Simple(existing) && DistinctPairs(evs)
    ensures Simple(existing + SpawnedJoints(cs, existing, evs))
  {
    if evs != [] {
      var p, ev := evs[..|evs| - 1], evs[|evs| - 1];
      assert DistinctPairs(p);
      SpawnKeepsSimple(cs, existing, p);
      var before := existing + SpawnedJoints(cs, existing, p);
      if SpawnsJoint(cs, existing, ev) {
        var j := Joint(ev.e1, ev.e2);
        forall i | 0 <= i < |before| ensures !Links(before[i], ev.e1, ev.e2) {
          if i >= |existing| {
            var old_j := before[i];
            assert old_j in SpawnedJoints(cs, existing, p);
            SpawnedJointsIff(cs, existing, p, old_j.entity1, old_j.entity2);
            var m :| 0 <= m < |p| && p[m] == Collision(old_j.entity1, old_j.entity2);
            assert evs[m] == p[m];
          }
        }
        assert existing + SpawnedJoints(cs, existing, evs) == before + [j];
      } else {
        assert existing + SpawnedJoints(cs, existing, evs) == before;
      }
    }
  }

  /** The check against the pre-batch joints lets a batch that starts the
      same creature pair twice spawn two joints for it. */
  lemma SameBatchSpawnsTwice(a: nat, b: nat)
    requires a != b
    ensures SpawnedJoints({a, b}, [], [Collision(a, b), Collision(b, a)]) == [Joint(a, b), Joint(b, a)]
  {
    var evs := [Collision(a, b), Collision(b, a)];
    assert evs[..1] == [Collision(a, b)];
    assert evs[..1][..0] == [];
    assert !Linked([], a, b) && !Linked([], b, a);
    assert SpawnedJoints({a, b}, [], evs[..1]) == SpawnedJoints({a, b}, [], []) + [Joint(a, b)];
    assert SpawnedJoints({a, b}, [], evs) == SpawnedJoints({a, b}, [], evs[..1]) + [Joint(b, a)];
  }

  // ---------------------------------------------------------------------------
  // Rolling and jumping
  // ---------------------------------------------------------------------------

  const MaxAngularVelocity: real := 15.0

  function Min(a: real, b: real): real { if a <= b then a else b }
  function Max(a: real, b: real): real { if a >= b then a else b }

  /** How much one frame of rolling changes the angular velocity: full rate
      on the ground, half rate in the air. */
  function RollDelta(dt: real, grounded: nat, s: Species): real {
    dt * (if grounded > 0 then 1.0 else 0.5) * Speed(s)
  }

  /** The new angular velocity under the `movement` system. */
  function Roll(av: real, delta: real, left: bool, right: bool): real {
    if left && !right then Min(MaxAngularVelocity, av + delta)
    else if right && !left then Max(-MaxAngularVelocity, av - delta)
    else av
  }

  /** Rolling left caps the angular velocity at +15 and otherwise adds the
      delta; rolling right is the mirror image; both or neither keys change
      nothing. */
  lemma RollRule(av: real, delta: real, left: bool, right: bool)
    ensures left && !right ==>
      Roll(av, delta, left, right) <= MaxAngularVelocity &&
      (Roll(av, delta, left, right) == av + delta || Roll(av, delta, left, right) == MaxAngularVelocity)
    ensures right && !left ==>
      Roll(av, delta, left, right) >= -MaxAngularVelocity &&
      (Roll(av, delta, left, right) == av - delta || Roll(av, delta, left, right) == -MaxAngularVelocity)
    ensures left && !right && av + delta <= MaxAngularVelocity ==> Roll(av, delta, left, right) == av + delta
    ensures right && !left && av - delta >= -MaxAngularVelocity ==> Roll(av, delta, left, right) == av - delta
    ensures left == right ==> Roll(av, delta, left, right) == av
  {
  }

  /** Rolling keeps an angular velocity inside [-15, 15] there, and pulls one
      that physics pushed outside the cap in the rolled direction back to it. */
  lemma RollStaysCapped(av: real, delta: real, left: bool, right: bool)
    requires delta >= 0.0
    ensures -MaxAngularVelocity <= av <= MaxAngularVelocity ==>
      -MaxAngularVelocity <= Roll(av, delta, left, right) <= MaxAngularVelocity
    ensures left && !right && av > MaxAngularVelocity ==> Roll(av, delta, left, right) == MaxAngularVelocity
    ensures right && !left && av < -MaxAngularVelocity ==> Roll(av, delta, left, right) == -MaxAngularVelocity
  {
  }

  /** Airborne creatures roll at half the grounded rate. */
  lemma AirborneRollsAtHalfRate(dt: real, grounded: nat, s: Species)
    requires grounded > 0 && dt >= 0.0
    ensures RollDelta(dt, 0, s) * 2.0 == RollDelta(dt, grounded, s)
    ensures RollDelta(dt, grounded, s) == dt * 120.0
  {
  }

  /** Vertical velocity a jump adds: the full jump on the ground, 5% in the air. */
  function JumpKick(s: Species, grounded: nat): real {
    if grounded > 0 then Jump(s) else Jump(s) * 0.05
  }

  /** A jump always pushes upwards: the full `jump()` on the ground, and in
      the air a twentieth of it. */
  lemma JumpRule(s: Species, grounded: nat)
    ensures JumpKick(s, grounded) > 0.0
    ensures grounded > 0 ==> JumpKick(s, grounded) == Jump(s)
    ensures JumpKick(s, 0) * 20.0 == Jump(s)
  {
  }

  // ---------------------------------------------------------------------------
  // Explode
  // ---------------------------------------------------------------------------

  /** Both ends of `j` are creatures. */
  predicate CreatureLink(cs: map<nat, Species>, j: Joint) {
    j.entity1 in cs && j.entity2 in cs
  }

  /** The velocity change an exploding link gives its second creature (its
      first gets the opposite): the unit direction from the first to the
      second, scaled by the sum of both forces. */
  function Push(cs: map<nat, Species>, j: Joint, dir: Vec): Vec
    requires CreatureLink(cs, j)
  {
    dir.Scale(Force(cs[j.entity1]) + Force(cs[j.entity2]))
  }

  /** The velocities after one joint of the `explode` loop. */
  function Kick(cs: map<nat, Species>, vel: map<nat, Vec>, j: Joint, dir: Vec): (r: map<nat, Vec>)
    requires cs.Keys <= vel.Keys
    ensures r.Keys == vel.Keys
  {
    if CreatureLink(cs, j) then
      var d := Push(cs, j, dir);
      var v := vel[j.entity1 := vel[j.entity1].Minus(d)];
      v[j.entity2 := v[j.entity2].Plus(d)]
    else vel
  }

  /** The velocities after the whole `explode` loop; `dirs[k]` is the unit
      direction from the first to the second body of `joints[k]`. */
  function Kicked(cs: map<nat, Species>, vel: map<nat, Vec>, joints: seq<Joint>, dirs: seq<Vec>): (r: map<nat, Vec>)
    requires cs.Keys <= vel.Keys && |dirs| == |joints|
    ensures r.Keys == vel.Keys
  {
    if joints == [] then vel
    else
      var n := |joints| - 1;
      Kick(cs, Kicked(cs, vel, joints[..n], dirs[..n]), joints[n], dirs[n])
  }

  /** The joints `explode` leaves: those with a non-creature end. */
  function Survivors(cs: map<nat, Species>, joints: seq<Joint>): seq<Joint> {
    if joints == [] then []
    else
      var n := |joints| - 1;
      Survivors(cs, joints[..n]) + (if CreatureLink(cs, joints[n]) then [] else [joints[n]])
  }

  /** What one joint contributes to the velocity of creature `c`. */
  function Contribution(cs: map<nat, Species>, j: Joint, dir: Vec, c: nat): Vec {
    if CreatureLink(cs, j) then
      (if c == j.entity2 then Push(cs, j, dir) else Zero).Minus(if c == j.entity1 then Push(cs, j, dir) else Zero)
    else Zero
  }

  /** The sum of the contributions of all joints to creature `c`. */
  function Impulse(cs: map<nat, Species>, joints: seq<Joint>, dirs: seq<Vec>, c: nat): Vec
    requires |dirs| == |joints|
  {
    if joints == [] then Zero
    else
      var n := |joints| - 1;
      Impulse(cs, joints[..n], dirs[..n], c).Plus(Contribution(cs, joints[n], dirs[n], c))
  }

  /** Each creature's new velocity is its old one plus one contribution per
      creature link it is in; stacked links add up. */
  lemma {:induction false} KickedIsSum(cs: map<nat, Species>, vel: map<nat, Vec>, joints: seq<Joint>, dirs: seq<Vec>)
    requires cs.Keys <= vel.Keys && |dirs| == |joints|
    ensures forall c :: c in vel ==> Kicked(cs, vel, joints, dirs)[c] == vel[c].Plus(Impulse(cs, joints, dirs, c))
  {
    if joints != [] {
      var n := |joints| - 1;
      KickedIsSum(cs, vel, joints[..n], dirs[..n]);
      var before := Kicked(cs, vel, joints[..n], dirs[..n]);
      KickAdds(cs, before, joints[n], dirs[n]);
      forall c | c in vel
        ensures Kicked(cs, vel, joints, dirs)[c] == vel[c].Plus(Impulse(cs, joints, dirs, c))
      {
        var i := Impulse(cs, joints[..n], dirs[..n], c);
        assert before[c] == vel[c].Plus(i);
        assert Impulse(cs, joints, dirs, c) == i.Plus(Contribution(cs, joints[n], dirs[n], c));
      }
    }
  }

  /** One joint adds its contribution to every velocity. */
  lemma KickAdds(cs: map<nat, Species>, vel: map<nat, Vec>, j: Joint, dir: Vec)
    requires cs.Keys <= vel.Keys
    ensures forall c :: c in vel ==> Kick(cs, vel, j, dir)[c] == vel[c].Plus(Contribution(cs, j, dir, c))
  {
  }

  /** The two ends of an exploding link get equal and opposite velocity
      changes along the link, of length force1 + force2 for a unit direction. */
  lemma ExplodeEqualAndOpposite(cs: map<nat, Species>, j: Joint, dir: Vec)
    requires CreatureLink(cs, j) && j.entity1 != j.entity2
    ensures Contribution(cs, j, dir, j.entity2) == Push(cs, j, dir)
    ensures Contribution(cs, j, dir, j.entity1) == Zero.Minus(Push(cs, j, dir))
    ensures forall c :: c != j.entity1 && c != j.entity2 ==> Contribution(cs, j, dir, c) == Zero
    ensures dir.NormSquared() == 1.0 ==>
      var f := Force(cs[j.entity1]) + Force(cs[j.entity2]);
      Push(cs, j, dir).NormSquared() == f * f
  {
    var f := Force(cs[j.entity1]) + Force(cs[j.entity2]);
    assert Push(cs, j, dir).NormSquared() == f * f * dir.NormSquared();
  }

  /** `explode` removes exactly the creature–creature joints. */
  lemma {:induction false} SurvivorsIff(cs: map<nat, Species>, joints: seq<Joint>, j: Joint)
    ensures j in Survivors(cs, joints) <==> j in joints && !CreatureLink(cs, j)
  {
    if joints != [] {
      var n := |joints| - 1;
      SurvivorsIff(cs, joints[..n], j);
      assert joints == joints[..n] + [joints[n]];
    }
  }

  /** A second explosion finds no creature link: it removes nothing and
      changes no velocity. */
  lemma {:induction false} ExplodeIdempotent(cs: map<nat, Species>, vel: map<nat, Vec>, joints: seq<Joint>, dirs: seq<Vec>)
    requires cs.Keys <= vel.Keys && |dirs| == |Survivors(cs, joints)|
    ensures Survivors(cs, Survivors(cs, joints)) == Survivors(cs, joints)
    ensures Kicked(cs, vel, Survivors(cs, joints), dirs) == vel
  {
    var s := Survivors(cs, joints);
    forall j | j in s ensures !CreatureLink(cs, j) {
      SurvivorsIff(cs, joints, j);
    }
    NoCreatureLinks(cs, vel, s, dirs);
  }

  /** Joints without a creature pair are kept and kick nobody. */
  lemma NoCreatureLinks(cs: map<nat, Species>, vel: map<nat, Vec>, joints: seq<Joint>, dirs: seq<Vec>)
    requires cs.Keys <= vel.Keys && |dirs| == |joints|
    requires forall j :: j in joints ==> !CreatureLink(cs, j)
    ensures Survivors(cs, joints) == joints
    ensures Kicked(cs, vel, joints, dirs) == vel
  {
    forall k | 0 <= k < |joints| ensures !CreatureLink(cs, joints[k]) {
      assert joints[k] in joints;
    }
    NoLinksSurvive(cs, joints);
    NoLinksKick(cs, vel, joints, dirs);
  }

  /** `Survivors` keeps a list of joints without a creature pair whole. */
  lemma {:induction false} NoLinksSurvive(cs: map<nat, Species>, joints: seq<Joint>)
    requires forall k :: 0 <= k < |joints| ==> !CreatureLink(cs, joints[k])
    ensures Survivors(cs, joints) == joints
  {
    if joints != [] {
      var n := |joints| - 1;
      NoLinksSurvive(cs, joints[..n]);
      assert joints == joints[..n] + [joints[n]];
    }
  }

  /** Joints without a creature pair leave every velocity alone. */
  lemma {:induction false} NoLinksKick(cs: map<nat, Species>, vel: map<nat, Vec>, joints: seq<Joint>, dirs: seq<Vec>)
    requires cs.Keys <= vel.Keys && |dirs| == |joints|
    requires forall k :: 0 <= k < |joints| ==> !CreatureLink(cs, joints[k])
    ensures Kicked(cs, vel, joints, dirs) == vel
  {
    if joints != [] {
      var n := |joints| - 1;
      NoLinksKick(cs, vel, joints[..n], dirs[..n]);
    }
  }

  /** Explode over a single joint. */
  lemma ExplodeOneJoint(cs: map<nat, Species>, vel: map<nat, Vec>, j: Joint, dir: Vec)
    requires cs.Keys <= vel.Keys
    ensures Kicked(cs, vel, [j], [dir]) == Kick(cs, vel, j, dir)
    ensures Survivors(cs, [j]) == if CreatureLink(cs, j) then [] else [j]
  {
    assert [j][..0] == [];
    assert [dir][..0] == [];
  }

  /** Two linked Normal creatures explode apart with velocity changes of
      150 + 150 along the line between them, and the link is gone. */
  lemma TwoNormalsScenario()
    ensures var cs := map[1 := Normal, 2 := Normal];
      var vel := map[1 := Zero, 2 := Zero];
      Kicked(cs, vel, [Joint(1, 2)], [Vec(1.0, 0.0)]) == map[1 := Vec(-300.0, 0.0), 2 := Vec(300.0, 0.0)] &&
      Survivors(cs, [Joint(1, 2)]) == []
  {
    var cs := map[1 := Normal, 2 := Normal];
    var vel := map[1 := Zero, 2 := Zero];
    ExplodeOneJoint(cs, vel, Joint(1, 2), Vec(1.0, 0.0));
    KickApart(cs, vel, Joint(1, 2), Vec(1.0, 0.0), Vec(300.0, 0.0));
  }

  /** A creature link whose ends start at rest kicks them to -d and +d. */
  lemma KickApart(cs: map<nat, Species>, vel: map<nat, Vec>, j: Joint, dir: Vec, d: Vec)
    requires cs.Keys <= vel.Keys && CreatureLink(cs, j) && j.entity1 != j.entity2
    requires vel == map[j.entity1 := Zero, j.entity2 := Zero] && Push(cs, j, dir) == d
    ensures Kick(cs, vel, j, dir) == map[j.entity1 := Vec(-d.x, -d.y), j.entity2 := d]
  {
  }

  // ---------------------------------------------------------------------------
  // The ECS state the creature systems run on
  // ---------------------------------------------------------------------------

  /** The components the creature systems read and write, keyed by entity id,
      and the joint entities in query order. */
  class CreatureWorld {
    /** `Creature` components: which entities are creatures, of which species. */
    var species: map<nat, Species>
    /** `Grounded` components. */
    var grounded: map<nat, nat>
    /** `LinearVelocity` of the creatures. */
    var linearVelocity: map<nat, Vec>
    /** `AngularVelocity` of the creatures. */
    var angularVelocity: map<nat, real>
    /** `FixedJoint` entities. */
    var joints: seq<Joint>

    /** Every creature carries each component the systems query. */
    ghost predicate Valid()
      reads this
    {
      grounded.Keys == species.Keys &&
      linearVelocity.Keys == species.Keys &&
      angularVelocity.Keys == species.Keys
    }

    constructor ()
      ensures Valid() && species == map[] && joints == []
    {
      species, grounded, linearVelocity, angularVelocity, joints := map[], map[], map[], map[], [];
    }

    /** Inserting a `Creature::spawn` bundle as entity `e`; a new dynamic body
        is at rest. */
    method Spawn(e: nat, b: CreatureBundle)
      requires Valid() && e !in species
      modifies this
      ensures Valid() && joints == old(joints)
      ensures species == old(species)[e := b.species] && grounded == old(grounded)[e := b.grounded]
      ensures linearVelocity == old(linearVelocity)[e := Zero]
      ensures angularVelocity == old(angularVelocity)[e := 0.0]
    {
      species := species[e := b.species];
      grounded := grounded[e := b.grounded];
      linearVelocity := linearVelocity[e := Zero];
      angularVelocity := angularVelocity[e := 0.0];
    }

    /** `on_collision_enter`: counts ground contacts and queues a joint for
        every new creature pair. */
    method OnCollisionEnter(events: seq<Collision>)
      requires Valid()
      modifies this`grounded, this`joints
      ensures Valid()
      ensures grounded == GroundedAfterEnter(species.Keys, old(grounded), events)
      ensures joints == old(joints) + SpawnedJoints(species.Keys, old(joints), events)
    {
      var cs := species.Keys;  // the `creatures` query
      ghost var before := grounded;
      var spawned: seq<Joint> := [];  // joint spawns queued on `commands`
      var i := 0;
      while i < |events|
        invariant 0 <= i <= |events|
        invariant grounded == GroundedAfterEnter(cs, before, events[..i])
        invariant spawned == SpawnedJoints(cs, joints, events[..i])
        modifies this`grounded
      {
        var ev := events[i];
        assert events[..i + 1][..i] == events[..i];
        var spawn := CollisionStarted(cs, ev);
        if spawn {
          spawned := spawned + [Joint(ev.e1, ev.e2)];
        }
        i := i + 1;
      }
      assert events[..|events|] == events;
      joints := joints + spawned;  // the commands are applied after the system
    }

    /** One `CollisionStarted(e1, e2)` of `on_collision_enter`, with `cs` the
        creatures: a lone creature's counter goes up, and `spawn` says whether
        a joint is queued for the pair. */
    method CollisionStarted(cs: set<nat>, ev: Collision) returns (spawn: bool)
      requires cs <= grounded.Keys
      modifies this`grounded
      ensures grounded == EnterStep(cs, old(grounded), ev)
      ensures spawn == SpawnsJoint(cs, joints, ev)
    {
      spawn := false;
      if ev.e1 in cs {
        if ev.e2 in cs {
          var linked := FindLink(joints, ev.e1, ev.e2);
          spawn := !linked;
        } else {
          grounded := grounded[ev.e1 := grounded[ev.e1] + 1];
        }
      } else if ev.e2 in cs {
        grounded := grounded[ev.e2 := grounded[ev.e2] + 1];
      }
    }

    /** `on_collision_exit`: releases ground contacts. `ok` is false when a
        counter would underflow, where the game panics. */
    method OnCollisionExit(events: seq<Collision>) returns (ok: bool)
      requires Valid()
      modifies this`grounded
      ensures Valid()
      ensures ok <==> GroundedAfterExit(species.Keys, old(grounded), events).Ok?
      ensures ok ==> grounded == GroundedAfterExit(species.Keys, old(grounded), events).value
    {
      var cs := species.Keys;  // the `creatures` query
      ghost var before := grounded;
      var i := 0;
      while i < |events|
        invariant 0 <= i <= |events|
        invariant GroundedAfterExit(cs, before, events[..i]) == Ok(grounded)
        modifies this`grounded
      {
        var ev := events[i];
        assert events[..i + 1][..i] == events[..i];
        assert GroundedAfterExit(cs, before, events[..i + 1]) == ExitStep(cs, grounded, ev);
        var released := CollisionEnded(cs, ev);
        if !released {
          ExitErrPersists(cs, before, events, i + 1);
          return false;
        }
        i := i + 1;
      }
      assert events[..|events|] == events;
      return true;
    }

    /** One `CollisionEnded(e1, e2)` of `on_collision_exit`: a lone
        creature's counter goes down; `ok` is false, and nothing changes, when
        that counter is already 0. */
    method CollisionEnded(cs: set<nat>, ev: Collision) returns (ok: bool)
      requires cs <= grounded.Keys
      modifies this`grounded
      ensures ok <==> ExitStep(cs, old(grounded), ev).Ok?
      ensures ok ==> grounded == ExitStep(cs, old(grounded), ev).value
      ensures !ok ==> grounded == old(grounded)
    {
      if ev.e1 in cs {
        if ev.e2 !in cs {
          if grounded[ev.e1] == 0 {
            return false;
          }
          grounded := grounded[ev.e1 := grounded[ev.e1] - 1];
        }
      } else if ev.e2 in cs {
        if grounded[ev.e2] == 0 {
          return false;
        }
        grounded := grounded[ev.e2 := grounded[ev.e2] - 1];
      }
      return true;
    }

    /** The new angular velocities `movement` produces. */
    ghost function Rolled(dt: real, left: bool, right: bool): map<nat, real>
      reads this
      requires Valid()
    {
      map e | e in species :: Roll(angularVelocity[e], RollDelta(dt, grounded[e], species[e]), left, right)
    }

    /** `movement`: every creature rolls left or right. */
    method Movement(dt: real, left: bool, right: bool)
      requires Valid()
      modifies this`angularVelocity
      ensures Valid()
      ensures angularVelocity == old(Rolled(dt, left, right))
    {
      ghost var target := Rolled(dt, left, right);
      ghost var before := angularVelocity;
      if left == right {
        assert angularVelocity == target;
        return;
      }
      var todo := species.Keys;
      while todo != {}
        invariant todo <= species.Keys && angularVelocity.Keys == species.Keys
        invariant forall e :: e in angularVelocity ==>
          angularVelocity[e] == if e in todo then before[e] else target[e]
        modifies this`angularVelocity
        decreases todo
      {
        var e :| e in todo;
        var delta := dt * (if grounded[e] > 0 then 1.0 else 0.5) * Speed(species[e]);
        var av := angularVelocity[e];
        if left {
          av := Min(MaxAngularVelocity, av + delta);
        } else {
          av := Max(-MaxAngularVelocity, av - delta);
        }
        assert av == target[e];
        angularVelocity := angularVelocity[e := av];
        todo := todo - {e};
      }
      assert angularVelocity == target;
    }

    /** The new linear velocities a `jump` produces. */
    ghost function Jumped(): map<nat, Vec>
      reads this
      requires Valid()
    {
      map e | e in species :: Vec(linearVelocity[e].x, linearVelocity[e].y + JumpKick(species[e], grounded[e]))
    }

    /** `jump`: on a just-pressed jump key every creature jumps. */
    method DoJump(justPressed: bool)
      requires Valid()
      modifies this`linearVelocity
      ensures Valid()
      ensures linearVelocity == if justPressed then old(Jumped()) else old(linearVelocity)
    {
      if !justPressed {
        return;
      }
      ghost var target := Jumped();
      ghost var before := linearVelocity;
      var todo := species.Keys;
      while todo != {}
        invariant todo <= species.Keys && linearVelocity.Keys == species.Keys
        invariant forall e :: e in linearVelocity ==>
          linearVelocity[e] == if e in todo then before[e] else target[e]
        modifies this`linearVelocity
        decreases todo
      {
        var e :| e in todo;
        var v := linearVelocity[e];
        assert target[e] == Vec(v.x, v.y + JumpKick(species[e], grounded[e]));
        if grounded[e] > 0 {
          v := Vec(v.x, v.y + Jump(species[e]));
        } else {
          v := Vec(v.x, v.y + Jump(species[e]) * 0.05);
        }
        assert v == target[e];
        linearVelocity := linearVelocity[e := v];
        todo := todo - {e};
      }
      assert linearVelocity == target;
    }

    /** One joint of the `explode` loop: a creature link pushes its two
        creatures apart and is despawned; any other joint is kept. */
    method ExplodeJoint(joint: Joint, dir: Vec) returns (keep: bool)
      requires species.Keys <= linearVelocity.Keys
      modifies this`linearVelocity
      ensures linearVelocity == Kick(species, old(linearVelocity), joint, dir)
      ensures keep <==> !CreatureLink(species, joint)
    {
      if joint.entity1 in species && joint.entity2 in species {
        var d := dir.Scale(Force(species[joint.entity1]) + Force(species[joint.entity2]));
        linearVelocity := linearVelocity[joint.entity1 := linearVelocity[joint.entity1].Minus(d)];
        linearVelocity := linearVelocity[joint.entity2 := linearVelocity[joint.entity2].Plus(d)];
        keep := false;
      } else {
        keep := true;
      }
    }

    /** `explode`: on a just-pressed explode key every creature link is
        despawned and pushes its two creatures apart. `dirs[k]` is the
        normalised direction from the first to the second body of joint k. */
    method Explode(justPressed: bool, dirs: seq<Vec>)
      requires Valid() && |dirs| == |joints|
      modifies this`linearVelocity, this`joints
      ensures Valid()
      ensures justPressed ==> joints == Survivors(species, old(joints))
      ensures justPressed ==> linearVelocity == Kicked(species, old(linearVelocity), old(joints), dirs)
      ensures !justPressed ==> joints == old(joints) && linearVelocity == old(linearVelocity)
    {
      if !justPressed {
        return;
      }
      ghost var before := linearVelocity;
      var kept: seq<Joint> := [];  // joints not despawned by `commands`
      var k := 0;
      while k < |joints|
        invariant 0 <= k <= |joints|
        invariant kept == Survivors(species, joints[..k])
        invariant linearVelocity == Kicked(species, before, joints[..k], dirs[..k])
        modifies this`linearVelocity
      {
        assert joints[..k + 1][..k] == joints[..k];
        assert dirs[..k + 1][..k] == dirs[..k];
        var keep := ExplodeJoint(joints[k], dirs[k]);
        if keep {
          kept := kept + [joints[k]];
        }
        k := k + 1;
      }
      assert joints[..|joints|] == joints;
      assert dirs[..|dirs|] == dirs;
      joints := kept;  // the despawn commands are applied after the system
    }
  }
}
