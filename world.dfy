/** The simulation's module-level state and the operations of index.js
    that change it: body registration, debris creation and removal, and
    the per-frame physics update with its fracture bookkeeping. */
module Simulation {
  import opened Types
  import opened Contacts
  import opened Fracture
  import opened Hull
  import opened Bodies
  import opened Scan
  import opened Pyramid

  /** The removal array is filled with this many `null`s at start-up. */
  const REMOVAL_SLOTS: nat := 500

  function Somes(ids: seq<ObjId>): (r: seq<Option<ObjId>>)
    ensures |r| == |ids| && forall k :: 0 <= k < |ids| ==> r[k] == Some(ids[k])
  {
    seq(|ids|, k requires 0 <= k < |ids| => Some(ids[k]))
  }

  lemma SomesAppend(a: seq<ObjId>, b: seq<ObjId>)
    ensures Somes(a + b) == Somes(a) + Somes(b)
  {
  }

  /** The fragments `subdivide` makes of `side`'s object when `fires`,
      each given that side's body velocities, as the loop over the debris
      does before registering it. */
  ghost function Pieces(objects: map<ObjId, Obj>, m: Manifold, side: Side, fires: bool,
                        subdivide: (Mesh, Vec3, Vec3) -> seq<Mesh>): (r: seq<Mesh>)
    requires side.body in objects
    ensures !fires ==> r == []
    ensures forall k :: 0 <= k < |r| ==>
      r[k].velocity == side.linearVelocity && r[k].angularVelocity == side.angularVelocity
  {
    var impact := Examine(m.contacts).impact;
    if fires && impact.Some? then
      var debris := subdivide(objects[side.body].mesh, impact.value.positionWorldOnB, impact.value.normalWorldOnB);
      seq(|debris|, k requires 0 <= k < |debris| =>
        debris[k].(velocity := side.linearVelocity, angularVelocity := side.angularVelocity))
    else []
  }

  /** Every fragment one manifold spawns when the scan has already broken
      `done`: side 0's, then side 1's. */
  ghost function Spawned(objects: map<ObjId, Obj>, done: seq<ObjId>, m: Manifold,
                         subdivide: (Mesh, Vec3, Vec3) -> seq<Mesh>): (r: seq<Mesh>)
    requires m.side0.body in objects && m.side1.body in objects
    ensures Fired(objects, done, m) == [] ==> r == []
  {
    var outcome := Outcome(ViewOf(objects, done, m.side0), ViewOf(objects, done, m.side1), m.contacts);
    Pieces(objects, m, m.side0, outcome.0, subdivide) + Pieces(objects, m, m.side1, outcome.1, subdivide)
  }

  /** The parts of the world the fracture bookkeeping touches. */
  datatype Snapshot = Snapshot(objects: map<ObjId, Obj>, nextId: nat, pending: seq<Option<ObjId>>,
                               scene: set<ObjId>, physicsWorld: set<ObjId>)

  /** `pieces` are registered as debris bodies under consecutive ids
      from `first` on. */
  ghost predicate DebrisFrom(objects: map<ObjId, Obj>, first: nat, pieces: seq<Mesh>) {
    forall k :: 0 <= k < |pieces| ==> DebrisAt(objects, first, pieces, k)
  }

  ghost predicate DebrisAt(objects: map<ObjId, Obj>, first: nat, pieces: seq<Mesh>, k: nat)
    requires k < |pieces|
  {
    first + k in objects && IsDebrisBody(objects[first + k], pieces[k], first + k)
  }

  /** Going from `a` to `b` breaks the objects `ids` into the fragments
      `pieces`: each fragment is registered as a debris body under the next
      free id and joins the scene and the physics world, every broken
      object is marked collided and queued for removal, and no other
      object changes. */
  ghost predicate Breaks(a: Snapshot, b: Snapshot, ids: seq<ObjId>, pieces: seq<Mesh>) {
    && b.nextId == a.nextId + |pieces|
    && DebrisFrom(b.objects, a.nextId, pieces)
    && (forall j :: j in a.objects ==>
          j in b.objects && b.objects[j] == if j in ids then a.objects[j].(collided := true) else a.objects[j])
    && b.pending == a.pending + Somes(ids)
    && (forall j :: j in b.scene <==> j in a.scene || a.nextId <= j < b.nextId)
    && (forall j :: j in b.physicsWorld <==> j in a.physicsWorld || a.nextId <= j < b.nextId)
  }

  /** Breaking `ids1` and then `ids2`, none of them new, is breaking both
      lists with the fragments in the same order. */
  lemma BreaksCompose(a: Snapshot, b: Snapshot, c: Snapshot,
                      ids1: seq<ObjId>, pieces1: seq<Mesh>, ids2: seq<ObjId>, pieces2: seq<Mesh>)
    requires Breaks(a, b, ids1, pieces1) && Breaks(b, c, ids2, pieces2)
    requires forall j :: j in ids2 ==> j < a.nextId
    ensures Breaks(a, c, ids1 + ids2, pieces1 + pieces2)
  {
    SomesAppend(ids1, ids2);
    forall j | a.nextId <= j < a.nextId + |pieces1|
      ensures j in c.objects && j in b.objects && c.objects[j] == b.objects[j]
    {
      assert DebrisAt(b.objects, a.nextId, pieces1, j - a.nextId);
      assert j !in ids2;
    }
    DebrisAppend(b.objects, c.objects, a.nextId, pieces1, pieces2);
  }

  /** Fragments registered before a step that leaves them alone, then
      fragments registered in it, are one run of consecutive debris. */
  lemma DebrisAppend(before: map<ObjId, Obj>, after: map<ObjId, Obj>, first: nat, pieces1: seq<Mesh>, pieces2: seq<Mesh>)
    requires DebrisFrom(before, first, pieces1) && DebrisFrom(after, first + |pieces1|, pieces2)
    requires forall j :: first <= j < first + |pieces1| ==> j in after && j in before && after[j] == before[j]
    ensures DebrisFrom(after, first, pieces1 + pieces2)
  {
    var pieces := pieces1 + pieces2;
    forall k | 0 <= k < |pieces|
      ensures DebrisAt(after, first, pieces, k)
    {
      if k < |pieces1| {
        assert DebrisAt(before, first, pieces1, k);
      } else {
        assert DebrisAt(after, first + |pieces1|, pieces2, k - |pieces1|);
      }
    }
  }

  /** The objects a manifold breaks and the fragments it spawns, side by
      side, given whether each side fires. */
  lemma SidesCombine(objects: map<ObjId, Obj>, m: Manifold, fire0: bool, fire1: bool,
                     subdivide: (Mesh, Vec3, Vec3) -> seq<Mesh>)
    requires WellFormedManifold(m, objects) && LinksBack(objects)
    requires (fire0, fire1) == Outcome(ViewOf(objects, [], m.side0), ViewOf(objects, [], m.side1), m.contacts)
    ensures Fired(objects, [], m) == (if fire0 then [m.side0.body] else []) + (if fire1 then [m.side1.body] else [])
    ensures Spawned(objects, [], m, subdivide)
            == Pieces(objects, m, m.side0, fire0, subdivide) + Pieces(objects, m, m.side1, fire1, subdivide)
  {
    assert objects[m.side0.body].body.userPointer in {None, Some(m.side0.body)};
    assert objects[m.side1.body].body.userPointer in {None, Some(m.side1.body)};
  }

  /** Registering `pieces` under the next ids, marking `id` collided and
      queueing it, and touching nothing else, breaks `id` into `pieces`. */
  lemma SideBreaks(a: Snapshot, b: Snapshot, id: ObjId, pieces: seq<Mesh>)
    requires forall j: ObjId :: j in b.objects <==> j < b.nextId
    requires forall j: ObjId :: j in a.objects <==> j < a.nextId
    requires b.nextId == a.nextId + |pieces|
    requires forall k :: 0 <= k < |pieces| ==>
      IsDebrisBody(b.objects[a.nextId + k], pieces[k], a.nextId + k)
    requires id in a.objects && b.objects[id] == a.objects[id].(collided := true)
    requires forall j :: j in a.objects && j != id ==> b.objects[j] == a.objects[j]
    requires b.pending == a.pending + [Some(id)]
    requires forall j :: j in b.scene <==> j in a.scene || a.nextId <= j < b.nextId
    requires forall j :: j in b.physicsWorld <==> j in a.physicsWorld || a.nextId <= j < b.nextId
    ensures Breaks(a, b, [id], pieces)
  {
    forall k | 0 <= k < |pieces| ensures DebrisAt(b.objects, a.nextId, pieces, k) {
    }
  }

  /** A step that breaks each side of `m` as the fracture decision says
      breaks what `m` fires and spawns what it spawns. */
  lemma ManifoldBreaks(a: Snapshot, b: Snapshot, m: Manifold, fire0: bool, fire1: bool,
                       subdivide: (Mesh, Vec3, Vec3) -> seq<Mesh>)
    requires WellFormedManifold(m, a.objects) && LinksBack(a.objects)
    requires (fire0, fire1) == Outcome(ViewOf(a.objects, [], m.side0), ViewOf(a.objects, [], m.side1), m.contacts)
    requires Breaks(a, b, (if fire0 then [m.side0.body] else []) + (if fire1 then [m.side1.body] else []),
                    Pieces(a.objects, m, m.side0, fire0, subdivide) + Pieces(a.objects, m, m.side1, fire1, subdivide))
    ensures Breaks(a, b, Fired(a.objects, [], m), Spawned(a.objects, [], m, subdivide))
  {
    SidesCombine(a.objects, m, fire0, fire1, subdivide);
  }

  lemma BreaksNone(a: Snapshot)
    ensures Breaks(a, a, [], [])
  {
    assert a.pending + Somes([]) == a.pending;
  }

  /** Breaking objects changes no body's mass, so the dynamic list only
      grows, by the fragments of positive mass. */
  lemma BreaksKeepsDynamic(a: Snapshot, b: Snapshot, ids: seq<ObjId>, pieces: seq<Mesh>)
    requires Breaks(a, b, ids, pieces)
    requires forall id: ObjId :: id in a.objects <==> id < a.nextId
    requires forall id: ObjId :: id in b.objects <==> id < b.nextId
    ensures DynamicIds(a.objects, a.nextId) <= DynamicIds(b.objects, b.nextId)
  {
    DynamicIdsGrow(a.objects, a.nextId, b.objects, b.nextId);
  }

  /** `c` is `a` after a whole step: the objects were synchronized to
      `synced`, the scan broke `removed` into `fragments`, and every object
      queued, before or during the scan, left the scene and the physics
      world. */
  ghost predicate Stepped(a: Snapshot, c: Snapshot, synced: map<ObjId, Obj>, removed: seq<ObjId>, fragments: seq<Mesh>) {
    && c.nextId == a.nextId + |fragments|
    && DebrisFrom(c.objects, a.nextId, fragments)
    && (forall j :: j in a.objects ==>
          j in synced && j in c.objects && c.objects[j] == if j in removed then synced[j].(collided := true) else synced[j])
    && (forall j :: j in c.scene <==>
          (j in a.scene || a.nextId <= j < c.nextId) && Some(j) !in a.pending + Somes(removed))
    && (forall j :: j in c.physicsWorld <==>
          (j in a.physicsWorld || a.nextId <= j < c.nextId) && Some(j) !in a.pending + Somes(removed))
    && c.pending == []
  }

  /** The three loops of a step compose into `Stepped`. */
  lemma StepComposes(a: Snapshot, s: Snapshot, b: Snapshot, c: Snapshot, removed: seq<ObjId>, fragments: seq<Mesh>)
    requires s == a.(objects := s.objects) && s.objects.Keys == a.objects.Keys
    requires Breaks(s, b, removed, fragments)
    requires c.objects == b.objects && c.nextId == b.nextId && c.pending == []
    requires forall j :: j in c.scene <==> j in b.scene && Some(j) !in b.pending
    requires forall j :: j in c.physicsWorld <==> j in b.physicsWorld && Some(j) !in b.pending
    ensures Stepped(a, c, s.objects, removed, fragments)
  {
  }

  /** Every fragment a scan of `ms` from `objects` spawns, manifold by
      manifold; each manifold sees as collided what the earlier ones broke. */
  ghost function Fragments(objects: map<ObjId, Obj>, ms: seq<Manifold>, subdivide: (Mesh, Vec3, Vec3) -> seq<Mesh>): (r: seq<Mesh>)
    requires AllWellFormed(ms, objects)
    ensures Trace(objects, ms) == [] ==> r == []
    decreases |ms|
  {
    if ms == [] then []
    else
      var init := ms[..|ms| - 1];
      Fragments(objects, init, subdivide) + Spawned(objects, Trace(objects, init), ms[|ms| - 1], subdivide)
  }

  /** What a manifold spawns depends on earlier breaks only through the
      `collided` marks they leave, exactly as what it breaks does. */
  lemma SpawnedAgrees(now: map<ObjId, Obj>, start: map<ObjId, Obj>, done: seq<ObjId>, m: Manifold,
                      subdivide: (Mesh, Vec3, Vec3) -> seq<Mesh>)
    requires WellFormedManifold(m, start) && LinksBack(start)
    requires forall j :: j in start ==> j in now && now[j] == if j in done then start[j].(collided := true) else start[j]
    ensures WellFormedManifold(m, now)
    ensures Spawned(now, [], m, subdivide) == Spawned(start, done, m, subdivide)
  {
    assert start[m.side0.body].body.userPointer in {None, Some(m.side0.body)};
    assert start[m.side1.body].body.userPointer in {None, Some(m.side1.body)};
    assert ViewOf(now, [], m.side0) == ViewOf(start, done, m.side0);
    assert ViewOf(now, [], m.side1) == ViewOf(start, done, m.side1);
  }

  lemma PrefixWellFormed(ms: seq<Manifold>, objects: map<ObjId, Obj>, i: nat)
    requires AllWellFormed(ms, objects) && i <= |ms|
    ensures AllWellFormed(ms[..i], objects)
  {
    forall k | 0 <= k < i ensures WellFormedManifold(ms[..i][k], objects) {
      assert ms[..i][k] == ms[k];
    }
  }

  /** The scan of one more manifold: what the shorter scan broke and
      spawned, then what the new manifold breaks and spawns after it. */
  lemma ScanUnfold(objects: map<ObjId, Obj>, ms: seq<Manifold>, i: nat, subdivide: (Mesh, Vec3, Vec3) -> seq<Mesh>)
    requires i < |ms| && AllWellFormed(ms, objects)
    ensures AllWellFormed(ms[..i], objects) && AllWellFormed(ms[..i + 1], objects)
    ensures WellFormedManifold(ms[i], objects)
    ensures Trace(objects, ms[..i + 1]) == Trace(objects, ms[..i]) + Fired(objects, Trace(objects, ms[..i]), ms[i])
    ensures Fragments(objects, ms[..i + 1], subdivide)
            == Fragments(objects, ms[..i], subdivide) + Spawned(objects, Trace(objects, ms[..i]), ms[i], subdivide)
  {
    PrefixWellFormed(ms, objects, i);
    PrefixWellFormed(ms, objects, i + 1);
    assert ms[..i + 1][..i] == ms[..i];
  }

  /** One more manifold of the scan: the state after it is the scan of the
      longer prefix. */
  lemma ScanStep(start: Snapshot, now: Snapshot, next: Snapshot, ms: seq<Manifold>, i: nat,
                 subdivide: (Mesh, Vec3, Vec3) -> seq<Mesh>)
    requires i < |ms| && LinksBack(start.objects) && AllWellFormed(ms, start.objects)
    requires forall j :: j in start.objects ==> j < start.nextId
    requires AllWellFormed(ms[..i], start.objects)
    requires Breaks(start, now, Trace(start.objects, ms[..i]), Fragments(start.objects, ms[..i], subdivide))
    requires WellFormedManifold(ms[i], now.objects)
    requires Breaks(now, next, Fired(now.objects, [], ms[i]), Spawned(now.objects, [], ms[i], subdivide))
    ensures AllWellFormed(ms[..i + 1], start.objects)
    ensures Breaks(start, next, Trace(start.objects, ms[..i + 1]), Fragments(start.objects, ms[..i + 1], subdivide))
  {
    ScanUnfold(start.objects, ms, i, subdivide);
    var prior := Trace(start.objects, ms[..i]);
    FiredAgrees(now.objects, start.objects, prior, ms[i]);
    SpawnedAgrees(now.objects, start.objects, prior, ms[i], subdivide);
    FiredCandidates(start.objects, prior, ms[i]);
    BreaksCompose(start, now, next, prior, Fragments(start.objects, ms[..i], subdivide),
                  Fired(start.objects, prior, ms[i]), Spawned(start.objects, prior, ms[i], subdivide));
  }

  /** The mesh `createCup` prepares for one placement of the layout: the
      cup geometry in the placement's position, unrotated, in the
      placement's colour, of the cup mass, at rest and breakable. */
  function CupMesh(p: Placement, coords: Coords): Mesh {
    Mesh(coords, p.position, IDENTITY, p.color, CUP_MASS, ORIGIN, ORIGIN, true)
  }

  function Cups(ps: seq<Placement>, coords: Coords): (r: seq<Mesh>)
    ensures |r| == |ps|
  {
    seq(|ps|, k requires 0 <= k < |ps| => CupMesh(ps[k], coords))
  }

  /** The ground: a 40 x 1 x 40 static box whose top face is at y = 0. */
  const GROUND_POSITION: Vec3 := Vec3(0.0, -0.5, 0.0)
  const GROUND_COLOR: int := 0xffffff

  /** One debris body registered under the next id, and nothing else
      touched, is a break that marks nothing. */
  lemma OneDebris(a: Snapshot, b: Snapshot, mesh: Mesh)
    requires b.nextId == a.nextId + 1 && b.pending == a.pending
    requires forall j :: j in a.objects ==> j in b.objects && b.objects[j] == a.objects[j]
    requires a.nextId in b.objects && IsDebrisBody(b.objects[a.nextId], mesh, a.nextId)
    requires b.scene == a.scene + {a.nextId} && b.physicsWorld == a.physicsWorld + {a.nextId}
    ensures Breaks(a, b, [], [mesh])
  {
    assert DebrisAt(b.objects, a.nextId, [mesh], 0);
  }

  /** A set grown by id `n0` and then by the ids from `n0 + 1` on holds
      the ids from `n0` on. */
  lemma ExtendedFrom(s0: set<ObjId>, s1: set<ObjId>, s: set<ObjId>, n0: nat, n: nat)
    requires n0 < n && s1 == s0 + {n0}
    requires forall j :: j in s <==> j in s1 || n0 + 1 <= j < n
    ensures forall j :: j in s <==> j in s0 || n0 <= j < n
  {
  }

  /** The levels below `level`, then `level` itself, registered as they
      come, are the first `level` levels registered. */
  lemma LevelStep(a: Snapshot, b: Snapshot, c: Snapshot, level: int, coords: Coords)
    requires 1 <= level <= TOTAL_LEVELS
    requires Breaks(a, b, [], Cups(Rows(level - 1), coords)) && Breaks(b, c, [], Cups(Row(level), coords))
    ensures Breaks(a, c, [], Cups(Rows(level), coords))
  {
    BreaksCompose(a, b, c, [], Cups(Rows(level - 1), coords), [], Cups(Row(level), coords));
    CupsAppend(Rows(level - 1), Row(level), coords);
    assert [] + [] == Somes([]);
  }

  /** The cup meshes of consecutive placements are those of each part. */
  lemma CupsAppend(ps: seq<Placement>, qs: seq<Placement>, coords: Coords)
    ensures Cups(ps + qs, coords) == Cups(ps, coords) + Cups(qs, coords)
  {
  }

  /** Adding object `n` extends the dynamic list by `n` exactly when its
      body has positive mass, and keeps every user pointer linked back. */
  lemma AddObjectKeepsRegistry(objects: map<ObjId, Obj>, n: nat, o: Obj)
    requires forall id: ObjId :: id in objects <==> id < n
    requires LinksBack(objects) && o.body.userPointer in {None, Some(n)}
    ensures LinksBack(objects[n := o])
    ensures DynamicIds(objects[n := o], n + 1) == DynamicIds(objects, n) + (if o.body.mass > 0.0 then [n] else [])
  {
    DynamicIdsFrame(objects[n := o], objects, n);
  }

  /** The sync loop changes no body, so the registry stays consistent. */
  lemma SyncKeepsRegistry(objects: map<ObjId, Obj>, rigidBodies: seq<ObjId>, motion: ObjId -> Transform, n: nat)
    requires forall id: ObjId :: id in objects <==> id < n
    requires LinksBack(objects)
    ensures var synced := Synchronized(objects, rigidBodies, motion);
      (forall id: ObjId :: id in synced <==> id < n)
      && LinksBack(synced)
      && DynamicIds(synced, n) == DynamicIds(objects, n)
  {
    SyncKeepsBodies(objects, rigidBodies, motion);
    DynamicIdsFrame(Synchronized(objects, rigidBodies, motion), objects, n);
  }

  lemma TakeOneMore<T>(s: seq<T>, i: nat)
    requires i < |s|
    ensures s[..i + 1] == s[..i] + [s[i]]
  {
  }

  /** The invariant of the world's state: ids are handed out densely, every
      user pointer links back, the dynamic list holds exactly the objects of
      positive mass in creation order, the scene and the physics world hold
      registered objects only, and the filled part of the removal array
      names registered objects. */
  ghost predicate Consistent(objects: map<ObjId, Obj>, nextId: nat, rigidBodies: seq<ObjId>, scene: set<ObjId>,
                             physicsWorld: set<ObjId>, objectsToRemove: seq<Option<ObjId>>, numObjectsToRemove: nat)
  {
    && (forall id: ObjId :: id in objects <==> id < nextId)
    && LinksBack(objects)
    && rigidBodies == DynamicIds(objects, nextId)
    && scene <= objects.Keys
    && physicsWorld <= objects.Keys
    && REMOVAL_SLOTS <= |objectsToRemove|
    && numObjectsToRemove <= |objectsToRemove|
    && forall k :: 0 <= k < numObjectsToRemove ==>
         objectsToRemove[k].Some? && objectsToRemove[k].value in objects
  }

  /** Registering one more object under the next id keeps the state
      consistent. */
  lemma AddKeepsConsistent(objects: map<ObjId, Obj>, n: nat, rigidBodies: seq<ObjId>, scene: set<ObjId>,
                           physicsWorld: set<ObjId>, objectsToRemove: seq<Option<ObjId>>, numObjectsToRemove: nat, o: Obj)
    requires Consistent(objects, n, rigidBodies, scene, physicsWorld, objectsToRemove, numObjectsToRemove)
    requires o.body.userPointer in {None, Some(n)}
    ensures Consistent(objects[n := o], n + 1, rigidBodies + (if o.body.mass > 0.0 then [n] else []),
                       scene + {n}, physicsWorld + {n}, objectsToRemove, numObjectsToRemove)
  {
    AddObjectKeepsRegistry(objects, n, o);
  }

  /** The sync loop keeps the state consistent: it touches neither ids,
      bodies nor any of the registries. */
  lemma SyncKeepsConsistent(objects: map<ObjId, Obj>, n: nat, rigidBodies: seq<ObjId>, scene: set<ObjId>,
                            physicsWorld: set<ObjId>, objectsToRemove: seq<Option<ObjId>>, numObjectsToRemove: nat,
                            motion: ObjId -> Transform)
    requires Consistent(objects, n, rigidBodies, scene, physicsWorld, objectsToRemove, numObjectsToRemove)
    ensures Consistent(Synchronized(objects, rigidBodies, motion), n, rigidBodies, scene, physicsWorld,
                       objectsToRemove, numObjectsToRemove)
  {
    SyncKeepsRegistry(objects, rigidBodies, motion, n);
  }

  class World {
    /** Every object ever created, by id. */
    var objects: map<ObjId, Obj>
    var nextId: nat
    /** The dynamic objects, in creation order (`rigidBodies`). */
    var rigidBodies: seq<ObjId>
    /** The objects in the three.js scene. */
    var scene: set<ObjId>
    /** The objects whose body is in the physics world. */
    var physicsWorld: set<ObjId>
    /** `objectsToRemove` and `numObjectsToRemove`. */
    var objectsToRemove: seq<Option<ObjId>>
    var numObjectsToRemove: nat
    /** The impact point and normal shared by the two sides of a manifold. */
    var impactPoint: Vec3
    var impactNormal: Vec3

    ghost predicate Valid()
      reads this`objects, this`nextId, this`rigidBodies, this`scene, this`physicsWorld,
            this`objectsToRemove, this`numObjectsToRemove
    {
      Consistent(objects, nextId, rigidBodies, scene, physicsWorld, objectsToRemove, numObjectsToRemove)
    }

    /** The removals queued so far in this step. */
    ghost function Pending(): seq<Option<ObjId>>
      reads this`objects, this`nextId, this`rigidBodies, this`scene, this`physicsWorld,
            this`objectsToRemove, this`numObjectsToRemove
      requires Valid()
    {
      objectsToRemove[..numObjectsToRemove]
    }

    constructor ()
      ensures Valid()
      ensures objects == map[] && nextId == 0 && rigidBodies == []
      ensures scene == {} && physicsWorld == {}
      ensures objectsToRemove == seq(REMOVAL_SLOTS, _ => None) && numObjectsToRemove == 0
      ensures impactPoint == ORIGIN && impactNormal == ORIGIN
    {
      var slots: seq<Option<ObjId>> := [];
      var i := 0;
      while i < REMOVAL_SLOTS
        invariant 0 <= i <= REMOVAL_SLOTS
        invariant slots == seq(i, _ => None)
      {
        slots := slots + [None];
        i := i + 1;
      }
      objects, nextId, rigidBodies := map[], 0, [];
      scene, physicsWorld := {}, {};
      objectsToRemove, numObjectsToRemove := slots, 0;
      impactPoint, impactNormal := ORIGIN, ORIGIN;
    }

    /** Builds a body for `mesh` and registers the pair. The pose is the
        one given, else the mesh's own; velocities are set only when given;
        only a body of positive mass joins the dynamic list, and only such
        a body is kept from sleeping; every body joins the physics world. */
    method CreateRigidBody(mesh: Mesh, shape: Shape, mass: real, pos: Option<Vec3>, quat: Option<Quat>,
                           vel: Option<Vec3>, angVel: Option<Vec3>) returns (id: ObjId)
      requires Valid()
      modifies this`objects, this`nextId, this`rigidBodies, this`scene, this`physicsWorld
      ensures Valid()
      ensures id == old(nextId) && nextId == id + 1 && id !in old(objects)
      ensures forall j :: j in old(objects) ==> objects[j] == old(objects)[j]
      ensures objects[id].mesh == mesh.(position := pos.GetOr(mesh.position), quaternion := quat.GetOr(mesh.quaternion))
      ensures !objects[id].collided
      ensures objects[id].body == Body(mass, shape, Some(Transform(objects[id].mesh.position, objects[id].mesh.quaternion)),
                                       FRICTION, vel, angVel,
                                       if mass > 0.0 then Some(DISABLE_DEACTIVATION) else None, None)
      ensures rigidBodies == old(rigidBodies) + (if mass > 0.0 then [id] else [])
      ensures scene == old(scene) + {id} && physicsWorld == old(physicsWorld) + {id}
    {
      var position := pos.GetOr(mesh.position);
      var quaternion := quat.GetOr(mesh.quaternion);
      var placed := mesh.(position := position, quaternion := quaternion);
      var body := Body(mass, shape, Some(Transform(position, quaternion)), FRICTION, None, None, None, None);
      if vel.Some? {
        body := body.(linearVelocity := vel);
      }
      if angVel.Some? {
        body := body.(angularVelocity := angVel);
      }
      assert body == Body(mass, shape, Some(Transform(position, quaternion)), FRICTION, vel, angVel, None, None);
      id := nextId;
      scene := scene + {id};
      if mass > 0.0 {
        rigidBodies := rigidBodies + [id];
        body := body.(activationState := Some(DISABLE_DEACTIVATION));
      }
      objects := objects[id := Obj(placed, false, body)];
      nextId := nextId + 1;
      physicsWorld := physicsWorld + {id};
      AddKeepsConsistent(old(objects), id, old(rigidBodies), old(scene), old(physicsWorld), objectsToRemove,
                         numObjectsToRemove, Obj(placed, false, body));
    }

    /** Registers a prepared breakable mesh as a debris body: a convex hull
        of its vertices, its own mass, pose and velocities, and a user
        pointer from the body back to the object. */
    method CreateDebrisFromBreakableObject(mesh: Mesh) returns (id: ObjId)
      requires Valid()
      modifies this`objects, this`nextId, this`rigidBodies, this`scene, this`physicsWorld
      ensures Valid()
      ensures id == old(nextId) && nextId == id + 1
      ensures forall j :: j in old(objects) ==> objects[j] == old(objects)[j]
      ensures IsDebrisBody(objects[id], mesh, id)
      ensures rigidBodies == old(rigidBodies) + (if mesh.mass > 0.0 then [id] else [])
      ensures scene == old(scene) + {id} && physicsWorld == old(physicsWorld) + {id}
    {
      var points := CreateConvexHullPhysicsShape(mesh.coords);
      var shape := Shape(ConvexHull(points), MARGIN);
      id := CreateRigidBody(mesh, shape, mesh.mass, None, None, Some(mesh.velocity), Some(mesh.angularVelocity));
      ghost var before := objects;
      objects := objects[id := objects[id].(body := objects[id].body.(userPointer := Some(id)))];
      DynamicIdsFrame(objects, before, nextId);
    }

    /** The bookkeeping part of the state, as a value. */
    ghost function Now(): Snapshot
      reads this`objects, this`nextId, this`rigidBodies, this`scene, this`physicsWorld,
            this`objectsToRemove, this`numObjectsToRemove
      requires Valid()
    {
      Snapshot(objects, nextId, Pending(), scene, physicsWorld)
    }

    /** `createParalellepipedWithPhysics`: a box mesh of size `sx` x `sy`
        x `sz` and a box shape of half those extents with the common
        margin, registered with `mass` at `pos` and `quat`. The mesh is not
        prepared for breaking, so its userData reads as not breakable. */
    method CreateParallelepiped(coords: Coords, sx: real, sy: real, sz: real, mass: real, pos: Vec3, quat: Quat, color: int)
      returns (id: ObjId)
      requires Valid()
      modifies this`objects, this`nextId, this`rigidBodies, this`scene, this`physicsWorld
      ensures Valid()
      ensures id == old(nextId) && nextId == id + 1
      ensures forall j :: j in old(objects) ==> objects[j] == old(objects)[j]
      ensures objects[id] == Obj(Mesh(coords, pos, quat, color, 0.0, ORIGIN, ORIGIN, false), false,
                                 Body(mass, Shape(Box(Vec3(sx * 0.5, sy * 0.5, sz * 0.5)), MARGIN), Some(Transform(pos, quat)),
                                      FRICTION, None, None, if mass > 0.0 then Some(DISABLE_DEACTIVATION) else None, None))
      ensures rigidBodies == old(rigidBodies) + (if mass > 0.0 then [id] else [])
      ensures scene == old(scene) + {id} && physicsWorld == old(physicsWorld) + {id}
    {
      var box := Mesh(coords, ORIGIN, IDENTITY, color, 0.0, ORIGIN, ORIGIN, false);
      var shape := Shape(Box(Vec3(sx * 0.5, sy * 0.5, sz * 0.5)), MARGIN);
      id := CreateRigidBody(box, shape, mass, Some(pos), Some(quat), None, None);
    }

    /** `createCup`: a cup mesh at `pos` and `quat`, prepared as a breakable
        object of `mass` at rest, and registered as a debris body. */
    method CreateCup(coords: Coords, mass: real, pos: Vec3, quat: Quat, color: int) returns (id: ObjId)
      requires Valid()
      modifies this`objects, this`nextId, this`rigidBodies, this`scene, this`physicsWorld
      ensures Valid()
      ensures id == old(nextId) && nextId == id + 1
      ensures forall j :: j in old(objects) ==> objects[j] == old(objects)[j]
      ensures IsDebrisBody(objects[id], Mesh(coords, pos, quat, color, mass, ORIGIN, ORIGIN, true), id)
      ensures rigidBodies == old(rigidBodies) + (if mass > 0.0 then [id] else [])
      ensures scene == old(scene) + {id} && physicsWorld == old(physicsWorld) + {id}
      ensures Breaks(old(Now()), Now(), [], [Mesh(coords, pos, quat, color, mass, ORIGIN, ORIGIN, true)])
    {
      ghost var start := Now();
      var cup := Mesh(coords, pos, quat, color, mass, ORIGIN, ORIGIN, true);
      id := CreateDebrisFromBreakableObject(cup);
      OneDebris(start, Now(), cup);
    }

    /** One level of the stack: its cups, left to right, registered under
        consecutive ids. */
    method CreateLevel(level: int, numCups: int, cupCoords: Coords)
      requires Valid() && 1 <= level <= TOTAL_LEVELS && numCups == CupsOn(level)
      modifies this`objects, this`nextId, this`rigidBodies, this`scene, this`physicsWorld
      ensures Valid()
      ensures Breaks(old(Now()), Now(), [], Cups(Row(level), cupCoords))
    {
      ghost var start := Now();
      BreaksNone(start);
      var color := BASE_COLORS[(level - 1) % |BASE_COLORS|];
      var yOffset := ((level - 1) as real) * CUP_HEIGHT;
      var startX := -(((numCups - 1) as real) * CUP_SPACING) / 2.0;
      var i := 0;
      while i < numCups
        invariant 0 <= i <= numCups
        invariant Valid()
        invariant Breaks(start, Now(), [], Cups(Row(level)[..i], cupCoords))
      {
        var pos := Vec3(startX + (i as real) * CUP_SPACING, yOffset + CUP_HEIGHT / 2.0, 0.0);
        ghost var mid := Now();
        PlacementFormula(level, i, numCups, color, yOffset, startX);
        var id := CreateCup(cupCoords, CUP_MASS, pos, IDENTITY, color);
        BreaksCompose(start, mid, Now(), [], Cups(Row(level)[..i], cupCoords), [], [CupMesh(Row(level)[i], cupCoords)]);
        TakeOneMore(Row(level), i);
        CupsAppend(Row(level)[..i], [Row(level)[i]], cupCoords);
        assert Cups([Row(level)[i]], cupCoords) == [CupMesh(Row(level)[i], cupCoords)];
        i := i + 1;
      }
      assert Row(level)[..numCups] == Row(level);
    }

    /** The level loop of `createObjects`: the cups of the stack, level by
        level from the bottom. */
    method CreateStack(cupCoords: Coords)
      requires Valid()
      modifies this`objects, this`nextId, this`rigidBodies, this`scene, this`physicsWorld
      ensures Valid()
      ensures Breaks(old(Now()), Now(), [], Cups(Layout(), cupCoords))
    {
      ghost var start := Now();
      BreaksNone(start);
      var level := 1;
      while level <= TOTAL_LEVELS
        invariant 1 <= level <= TOTAL_LEVELS + 1
        invariant Valid()
        invariant Breaks(start, Now(), [], Cups(Rows(level - 1), cupCoords))
      {
        var numCups := INITIAL_CUPS - (level - 1);
        if numCups <= 0 {
          assert false;
          break;
        }
        ghost var mid := Now();
        CreateLevel(level, numCups, cupCoords);
        LevelStep(start, mid, Now(), level, cupCoords);
        level := level + 1;
      }
      assert level - 1 == TOTAL_LEVELS;
    }

    /** `createObjects`: the ground, then the stack of cups. */
    method CreateObjects(groundCoords: Coords, cupCoords: Coords) returns (ground: ObjId)
      requires Valid()
      modifies this`objects, this`nextId, this`rigidBodies, this`scene, this`physicsWorld
      ensures Valid()
      ensures ground == old(nextId) && nextId == ground + 1 + |Layout()|
      ensures forall j :: j in old(objects) ==> objects[j] == old(objects)[j]
      ensures objects[ground] == Obj(Mesh(groundCoords, GROUND_POSITION, IDENTITY, GROUND_COLOR, 0.0, ORIGIN, ORIGIN, false), false,
                                     Body(0.0, Shape(Box(Vec3(20.0, 0.5, 20.0)), MARGIN), Some(Transform(GROUND_POSITION, IDENTITY)),
                                          FRICTION, None, None, None, None))
      ensures DebrisFrom(objects, ground + 1, Cups(Layout(), cupCoords))
      ensures forall j :: j in scene <==> j in old(scene) || old(nextId) <= j < nextId
      ensures forall j :: j in physicsWorld <==> j in old(physicsWorld) || old(nextId) <= j < nextId
    {
      ground := CreateParallelepiped(groundCoords, 40.0, 1.0, 40.0, 0.0, GROUND_POSITION, IDENTITY, GROUND_COLOR);
      ghost var afterGround := Now();
      CreateStack(cupCoords);
      ExtendedFrom(old(scene), afterGround.scene, scene, ground, nextId);
      ExtendedFrom(old(physicsWorld), afterGround.physicsWorld, physicsWorld, ground, nextId);
    }

    /** Takes an object out of the scene and its body out of the physics
        world; the dynamic list keeps it. */
    method RemoveDebris(id: ObjId)
      requires Valid()
      modifies this`scene, this`physicsWorld
      ensures Valid()
      ensures scene == old(scene) - {id} && physicsWorld == old(physicsWorld) - {id}
    {
      scene := scene - {id};
      physicsWorld := physicsWorld - {id};
    }

    /** The sync loop at the start of a step: each dynamic object with a
        motion state takes its body's transform and has `collided` cleared. */
    method SyncTransforms(motion: ObjId -> Transform)
      requires Valid()
      modifies this`objects
      ensures Valid()
      ensures objects == Synchronized(old(objects), rigidBodies, motion)
    {
      ghost var start := objects;
      var i, il := 0, |rigidBodies|;
      while i < il
        invariant 0 <= i <= il
        invariant objects == Synchronized(start, rigidBodies[..i], motion)
      {
        var id := rigidBodies[i];
        assert id in rigidBodies;
        SyncStep(start, rigidBodies[..i], id, motion);
        var objThree := objects[id];
        if objThree.body.motionState.Some? {
          objects := objects[id := Synced(objThree, motion(id))];
        }
        TakeOneMore(rigidBodies, i);
        i := i + 1;
      }
      assert rigidBodies[..il] == rigidBodies;
      SyncKeepsConsistent(start, nextId, rigidBodies, scene, physicsWorld, objectsToRemove, numObjectsToRemove, motion);
    }
  
    /** Puts `id` in the next removal slot, growing the array past its
        pre-filled slots when they are used up. */
    method Enqueue(id: ObjId)
      requires Valid() && id in objects
      modifies this`objectsToRemove, this`numObjectsToRemove
      ensures Valid()
      ensures Pending() == old(Pending()) + [Some(id)]
      ensures objectsToRemove == if old(numObjectsToRemove) < |old(objectsToRemove)|
                                 then old(objectsToRemove)[old(numObjectsToRemove) := Some(id)]
                                 else old(objectsToRemove) + [Some(id)]
    {
      if numObjectsToRemove < |objectsToRemove| {
        objectsToRemove := objectsToRemove[numObjectsToRemove := Some(id)];
      } else {
        objectsToRemove := objectsToRemove + [Some(id)];
      }
      numObjectsToRemove := numObjectsToRemove + 1;
    }

    /** The loop over a subdivision's fragments: each one is given the
        broken body's velocities and registered as a debris body. */
    method RegisterFragments(debris: seq<Mesh>, vel: Vec3, angVel: Vec3)
      requires Valid()
      modifies this`objects, this`nextId, this`rigidBodies, this`scene, this`physicsWorld
      ensures Valid()
      ensures nextId == old(nextId) + |debris|
      ensures forall k :: 0 <= k < |debris| ==>
        IsDebrisBody(objects[old(nextId) + k], debris[k].(velocity := vel, angularVelocity := angVel), old(nextId) + k)
      ensures forall i :: i in old(objects) ==> objects[i] == old(objects)[i]
      ensures forall i :: i in scene <==> i in old(scene) || old(nextId) <= i < nextId
      ensures forall i :: i in physicsWorld <==> i in old(physicsWorld) || old(nextId) <= i < nextId
    {
      var j := 0;
      while j < |debris|
        invariant 0 <= j <= |debris|
        invariant Valid()
        invariant nextId == old(nextId) + j
        invariant forall i :: i in old(objects) ==> objects[i] == old(objects)[i]
        invariant forall k :: 0 <= k < j ==>
          IsDebrisBody(objects[old(nextId) + k], debris[k].(velocity := vel, angularVelocity := angVel), old(nextId) + k)
        invariant forall i :: i in scene <==> i in old(scene) || old(nextId) <= i < nextId
        invariant forall i :: i in physicsWorld <==> i in old(physicsWorld) || old(nextId) <= i < nextId
      {
        var fragment := debris[j].(velocity := vel, angularVelocity := angVel);
        var _ := CreateDebrisFromBreakableObject(fragment);
        j := j + 1;
      }
    }

    /** Sets `userData.collided` of object `id`. */
    method MarkCollided(id: ObjId)
      requires Valid() && id in objects
      modifies this`objects
      ensures Valid()
      ensures objects == old(objects)[id := old(objects)[id].(collided := true)]
    {
      objects := objects[id := objects[id].(collided := true)];
      DynamicIdsFrame(objects, old(objects), nextId);
    }

    /** Breaks object `id`, whose body moves with `vel` and `angVel`:
        every fragment of its subdivision at the current impact point is
        registered moving with those velocities, then the object is queued
        for removal and marked collided. */
    method FractureSide(id: ObjId, vel: Vec3, angVel: Vec3, subdivide: (Mesh, Vec3, Vec3) -> seq<Mesh>)
      requires Valid() && id in objects
      modifies this`objects, this`nextId, this`rigidBodies, this`scene, this`physicsWorld,
               this`objectsToRemove, this`numObjectsToRemove
      ensures Valid()
      ensures var debris := subdivide(old(objects)[id].mesh, impactPoint, impactNormal);
        && nextId == old(nextId) + |debris|
        && forall k :: 0 <= k < |debris| ==>
             IsDebrisBody(objects[old(nextId) + k], debris[k].(velocity := vel, angularVelocity := angVel), old(nextId) + k)
      ensures objects[id] == old(objects)[id].(collided := true)
      ensures forall j :: j in old(objects) && j != id ==> objects[j] == old(objects)[j]
      ensures Pending() == old(Pending()) + [Some(id)]
      ensures forall j :: j in scene <==> j in old(scene) || old(nextId) <= j < nextId
      ensures forall j :: j in physicsWorld <==> j in old(physicsWorld) || old(nextId) <= j < nextId
    {
      var debris := subdivide(objects[id].mesh, impactPoint, impactNormal);
      RegisterFragments(debris, vel, angVel);
      Enqueue(id);
      MarkCollided(id);
    }
  
    /** One side's turn at the end of the manifold loop: when `fires`, the
        side's object is broken at the current impact point with its body's
        velocities. The object is the body's own id, as every user pointer
        leads back to its body. */
    method FractureIf(side: Side, fires: bool, m: Manifold, subdivide: (Mesh, Vec3, Vec3) -> seq<Mesh>)
      requires Valid() && side.body in objects
      requires fires ==> var impact := Examine(m.contacts).impact;
        impact.Some? && impactPoint == impact.value.positionWorldOnB && impactNormal == impact.value.normalWorldOnB
      modifies this`objects, this`nextId, this`rigidBodies, this`scene, this`physicsWorld,
               this`objectsToRemove, this`numObjectsToRemove
      ensures Valid()
      ensures Breaks(old(Now()), Now(), if fires then [side.body] else [], Pieces(old(objects), m, side, fires, subdivide))
    {
      ghost var start := Now();
      if fires {
        FractureSide(side.body, side.linearVelocity, side.angularVelocity, subdivide);
        SideBreaks(start, Now(), side.body, Pieces(old(objects), m, side, fires, subdivide));
      } else {
        BreaksNone(start);
      }
    }

    /** The end of the manifold loop's body: side 0 breaks when `fire0`,
        then side 1 when `fire1`, both at the current impact point. */
    method BreakSides(m: Manifold, fire0: bool, fire1: bool, subdivide: (Mesh, Vec3, Vec3) -> seq<Mesh>)
      requires Valid() && WellFormedManifold(m, objects)
      requires fire0 || fire1 ==> var impact := Examine(m.contacts).impact;
        impact.Some? && impactPoint == impact.value.positionWorldOnB && impactNormal == impact.value.normalWorldOnB
      modifies this`objects, this`nextId, this`rigidBodies, this`scene, this`physicsWorld,
               this`objectsToRemove, this`numObjectsToRemove
      ensures Valid()
      ensures Breaks(old(Now()), Now(),
                     (if fire0 then [m.side0.body] else []) + (if fire1 then [m.side1.body] else []),
                     Pieces(old(objects), m, m.side0, fire0, subdivide) + Pieces(old(objects), m, m.side1, fire1, subdivide))
    {
      ghost var start := Now();
      FractureIf(m.side0, fire0, m, subdivide);
      ghost var middle := Now();
      assert middle.objects[m.side1.body].mesh == start.objects[m.side1.body].mesh;
      FractureIf(m.side1, fire1, m, subdivide);
      assert Pieces(middle.objects, m, m.side1, fire1, subdivide) == Pieces(start.objects, m, m.side1, fire1, subdivide);
      BreaksCompose(start, middle, Now(), if fire0 then [m.side0.body] else [], Pieces(start.objects, m, m.side0, fire0, subdivide),
                    if fire1 then [m.side1.body] else [], Pieces(start.objects, m, m.side1, fire1, subdivide));
    }

    /** The first part of the manifold loop's body: resolve both sides
        through their bodies' user pointers, skip the manifold (`continue`)
        when neither side is an object, neither is breakable or both are
        already collided, scan the contact points and record the impact
        point and normal, and decide for each side whether it breaks. */
    method JudgeManifold(m: Manifold) returns (fire0: bool, fire1: bool)
      requires Valid() && WellFormedManifold(m, objects)
      modifies this`impactPoint, this`impactNormal
      ensures (fire0, fire1) == Outcome(ViewOf(objects, [], m.side0), ViewOf(objects, [], m.side1), m.contacts)
      ensures fire0 || fire1 ==> var impact := Examine(m.contacts).impact;
        impact.Some? && impactPoint == impact.value.positionWorldOnB && impactNormal == impact.value.normalWorldOnB
      ensures var impact := Examine(m.contacts).impact;
        if !Skipped(ViewOf(objects, [], m.side0), ViewOf(objects, [], m.side1)) && impact.Some?
        then impactPoint == impact.value.positionWorldOnB && impactNormal == impact.value.normalWorldOnB
        else impactPoint == old(impactPoint) && impactNormal == old(impactNormal)
    {
      fire0, fire1 := false, false;
      var rb0, rb1 := m.side0, m.side1;
      assert objects[rb0.body].body.userPointer in {None, Some(rb0.body)};
      assert objects[rb1.body].body.userPointer in {None, Some(rb1.body)};
      var threeObject0 := objects[rb0.body].body.userPointer;
      var threeObject1 := objects[rb1.body].body.userPointer;
      if threeObject0.None? && threeObject1.None? {
        return;
      }
      var breakable0 := if threeObject0.Some? then objects[threeObject0.value].mesh.breakable else false;
      var breakable1 := if threeObject1.Some? then objects[threeObject1.value].mesh.breakable else false;
      var collided0 := if threeObject0.Some? then objects[threeObject0.value].collided else false;
      var collided1 := if threeObject1.Some? then objects[threeObject1.value].collided else false;
      assert ViewOf(objects, [], rb0) == SideView(threeObject0, breakable0, collided0);
      assert ViewOf(objects, [], rb1) == SideView(threeObject1, breakable1, collided1);
      if (!breakable0 && !breakable1) || (collided0 && collided1) {
        return;
      }
      var contact, maxImpulse, impact := ScanContacts(m.contacts);
      if impact.Some? {
        impactPoint := impact.value.positionWorldOnB;
        impactNormal := impact.value.normalWorldOnB;
      }
      if !contact {
        return;
      }
      fire0 := breakable0 && !collided0 && maxImpulse > FRACTURE_IMPULSE;
      fire1 := breakable1 && !collided1 && maxImpulse > FRACTURE_IMPULSE;
    }

    /** The body of the manifold loop: judge the manifold, then break each
        side it fires. */
    method ProcessManifold(m: Manifold, subdivide: (Mesh, Vec3, Vec3) -> seq<Mesh>)
      requires Valid() && WellFormedManifold(m, objects)
      modifies this`objects, this`nextId, this`rigidBodies, this`scene, this`physicsWorld,
               this`objectsToRemove, this`numObjectsToRemove, this`impactPoint, this`impactNormal
      ensures Valid()
      ensures Breaks(old(Now()), Now(), Fired(old(objects), [], m), Spawned(old(objects), [], m, subdivide))
      ensures var impact := Examine(m.contacts).impact;
        if !Skipped(ViewOf(old(objects), [], m.side0), ViewOf(old(objects), [], m.side1)) && impact.Some?
        then impactPoint == impact.value.positionWorldOnB && impactNormal == impact.value.normalWorldOnB
        else impactPoint == old(impactPoint) && impactNormal == old(impactNormal)
    {
      var fire0, fire1 := JudgeManifold(m);
      ghost var start := Now();
      BreakSides(m, fire0, fire1, subdivide);
      ManifoldBreaks(start, Now(), m, fire0, fire1, subdivide);
    }

    /** The loop over the manifolds the engine reports for this step.
        `impactPoint` and `impactNormal` are scratch values: each manifold's
        judgement may overwrite them, and only the fragments computed from
        them are part of the result, so their final values are left open. */
    method ScanManifolds(ms: seq<Manifold>, subdivide: (Mesh, Vec3, Vec3) -> seq<Mesh>)
      requires Valid() && AllWellFormed(ms, objects)
      modifies this`objects, this`nextId, this`rigidBodies, this`scene, this`physicsWorld,
               this`objectsToRemove, this`numObjectsToRemove, this`impactPoint, this`impactNormal
      ensures Valid()
      ensures Breaks(old(Now()), Now(), Trace(old(objects), ms), Fragments(old(objects), ms, subdivide))
    {
      ghost var start := Now();
      BreaksNone(start);
      var i, il := 0, |ms|;
      while i < il
        invariant 0 <= i <= il
        invariant Valid()
        invariant AllWellFormed(ms[..i], start.objects)
        invariant Breaks(start, Now(), Trace(start.objects, ms[..i]), Fragments(start.objects, ms[..i], subdivide))
      {
        ghost var now := Now();
        assert WellFormedManifold(ms[i], start.objects);
        ProcessManifold(ms[i], subdivide);
        ScanStep(start, now, Now(), ms, i, subdivide);
        i := i + 1;
      }
      assert ms[..il] == ms;
    }

    /** The loop at the end of a step: every queued object is taken out of
        the scene and the physics world, then the count is reset. The
        array keeps its stale entries. */
    method DrainRemovals()
      requires Valid()
      modifies this`scene, this`physicsWorld, this`numObjectsToRemove
      ensures Valid()
      ensures numObjectsToRemove == 0 && Pending() == []
      ensures forall j :: j in scene <==> j in old(scene) && Some(j) !in old(Pending())
      ensures forall j :: j in physicsWorld <==> j in old(physicsWorld) && Some(j) !in old(Pending())
    {
      var i := 0;
      while i < numObjectsToRemove
        invariant 0 <= i <= numObjectsToRemove
        invariant Valid() && numObjectsToRemove == old(numObjectsToRemove)
        invariant forall j :: j in scene <==> j in old(scene) && Some(j) !in objectsToRemove[..i]
        invariant forall j :: j in physicsWorld <==> j in old(physicsWorld) && Some(j) !in objectsToRemove[..i]
      {
        TakeOneMore(objectsToRemove, i);
        RemoveDebris(objectsToRemove[i].value);
        i := i + 1;
      }
      numObjectsToRemove := 0;
    }

    /** One physics step after the engine has moved the bodies (`motion`)
        and reported the contact manifolds `ms`: sync the meshes, break
        what the manifolds break, then remove every queued object. As in
        `ScanManifolds`, the impact point and normal are scratch values whose
        final values are left open. */
    method UpdatePhysics(motion: ObjId -> Transform, ms: seq<Manifold>, subdivide: (Mesh, Vec3, Vec3) -> seq<Mesh>)
      requires Valid() && AllWellFormed(ms, objects)
      modifies this`objects, this`nextId, this`rigidBodies, this`scene, this`physicsWorld,
               this`objectsToRemove, this`numObjectsToRemove, this`impactPoint, this`impactNormal
      ensures Valid()
      ensures var synced := Synchronized(old(objects), old(rigidBodies), motion);
        && AllWellFormed(ms, synced)
        && Stepped(old(Now()), Now(), synced, Trace(synced, ms), Fragments(synced, ms, subdivide))
      ensures old(rigidBodies) <= rigidBodies
    {
      ghost var before := Now();
      SyncTransforms(motion);
      assert AllWellFormed(ms, objects) by {
        forall k | 0 <= k < |ms| ensures WellFormedManifold(ms[k], objects) {
          assert WellFormedManifold(ms[k], old(objects));
        }
      }
      ghost var synced := Now();
      ScanManifolds(ms, subdivide);
      ghost var scanned := Now();
      BreaksKeepsDynamic(synced, scanned, Trace(synced.objects, ms), Fragments(synced.objects, ms, subdivide));
      DrainRemovals();
      StepComposes(before, synced, scanned, Now(), Trace(synced.objects, ms), Fragments(synced.objects, ms, subdivide));
    }
  }
}
