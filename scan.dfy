/** The specification of one physics step's bookkeeping as functions of
    the state: the transform sync, how a manifold side is resolved to an
    object, which sides a manifold breaks, and the sequence of objects a
    whole scan queues for removal. */
module Scan {
  import opened Types
  import opened Contacts
  import opened Fracture
  import opened Bodies

  /** One body of a manifold, named by the object it belongs to, with the
      velocities the engine reports for it. */
  datatype Side = Side(body: ObjId, linearVelocity: Vec3, angularVelocity: Vec3)

  datatype Manifold = Manifold(side0: Side, side1: Side, contacts: seq<ContactPoint>)

  /** The engine reports manifolds between two distinct existing bodies. */
  predicate WellFormedManifold(m: Manifold, objects: map<ObjId, Obj>) {
    m.side0.body in objects && m.side1.body in objects && m.side0.body != m.side1.body
  }

  /** Every user pointer leads back to the object owning the body. */
  ghost predicate LinksBack(objects: map<ObjId, Obj>) {
    forall id :: id in objects ==> objects[id].body.userPointer in {None, Some(id)}
  }

  /** The objects with ids below `n` whose body has positive mass, in id
      (that is, creation) order. */
  ghost function DynamicIds(objects: map<ObjId, Obj>, n: nat): (r: seq<ObjId>)
    requires forall id: ObjId :: id < n ==> id in objects
    ensures |r| <= n && forall id :: id in r ==> id < n
  {
    if n == 0 then []
    else DynamicIds(objects, n - 1) + (if objects[n - 1].body.mass > 0.0 then [n - 1] else [])
  }

  lemma {:induction false} DynamicIdsFrame(a: map<ObjId, Obj>, b: map<ObjId, Obj>, n: nat)
    requires forall id: ObjId :: id < n ==> id in a && id in b && a[id].body.mass == b[id].body.mass
    ensures DynamicIds(a, n) == DynamicIds(b, n)
  {
    if n > 0 {
      DynamicIdsFrame(a, b, n - 1);
    }
  }

  /** The dynamic list holds only positive-mass bodies, in creation order. */
  lemma {:induction false} DynamicIdsAreDynamic(objects: map<ObjId, Obj>, n: nat)
    requires forall id: ObjId :: id < n ==> id in objects
    ensures forall k :: 0 <= k < |DynamicIds(objects, n)| ==>
      DynamicIds(objects, n)[k] < n && objects[DynamicIds(objects, n)[k]].body.mass > 0.0
    ensures forall i, j :: 0 <= i < j < |DynamicIds(objects, n)| ==>
      DynamicIds(objects, n)[i] < DynamicIds(objects, n)[j]
    ensures forall id: ObjId :: id < n && objects[id].body.mass > 0.0 ==> id in DynamicIds(objects, n)
  {
    if n > 0 {
      DynamicIdsAreDynamic(objects, n - 1);
      var prev := DynamicIds(objects, n - 1);
      var tail := if objects[n - 1].body.mass > 0.0 then [n - 1] else [];
      var r := DynamicIds(objects, n);
      assert r == prev + tail;
      forall i, j | 0 <= i < j < |r|
        ensures r[i] < r[j]
      {
        if j >= |prev| {
          assert r[j] == n - 1 && r[i] == prev[i];
        }
      }
    }
  }

  /** An object after its mesh pose was overwritten from the physics
      transform and its `collided` flag cleared. */
  function Synced(o: Obj, t: Transform): (r: Obj)
    ensures r.body == o.body && r.mesh.breakable == o.mesh.breakable && !r.collided
    ensures r.mesh.position == t.origin && r.mesh.quaternion == t.rotation
  {
    o.(mesh := o.mesh.(position := t.origin, quaternion := t.rotation), collided := false)
  }

  /** The objects after the sync loop: every listed dynamic object whose
      body has a motion state takes that body's transform and has
      `collided` cleared; every other object is untouched. */
  ghost function Synchronized(objects: map<ObjId, Obj>, rigidBodies: seq<ObjId>, motion: ObjId -> Transform): (r: map<ObjId, Obj>)
    ensures r.Keys == objects.Keys
  {
    map id | id in objects ::
      if id in rigidBodies && objects[id].body.motionState.Some? then Synced(objects[id], motion(id)) else objects[id]
  }

  /** Syncing twice without the engine moving gives the same objects. */
  lemma SyncIdempotent(objects: map<ObjId, Obj>, rigidBodies: seq<ObjId>, motion: ObjId -> Transform)
    ensures Synchronized(Synchronized(objects, rigidBodies, motion), rigidBodies, motion)
            == Synchronized(objects, rigidBodies, motion)
  {
  }

  /** Syncing one more listed object updates just that object. */
  lemma SyncStep(objects: map<ObjId, Obj>, synced: seq<ObjId>, id: ObjId, motion: ObjId -> Transform)
    requires id in objects
    ensures var cur := Synchronized(objects, synced, motion);
      Synchronized(objects, synced + [id], motion)
      == if cur[id].body.motionState.Some? then cur[id := Synced(cur[id], motion(id))] else cur
  {
  }

  /** Syncing changes no body, hence neither the dynamic list nor any link. */
  lemma SyncKeepsBodies(objects: map<ObjId, Obj>, rigidBodies: seq<ObjId>, motion: ObjId -> Transform)
    ensures forall id :: id in objects ==>
      Synchronized(objects, rigidBodies, motion)[id].body == objects[id].body
      && Synchronized(objects, rigidBodies, motion)[id].mesh.breakable == objects[id].mesh.breakable
  {
  }

  /** How the scan sees one side: the object the body's user pointer leads
      to, with its `breakable` flag and its `collided` flag, where
      `done` lists the objects already broken earlier in the scan. */
  function ViewOf(objects: map<ObjId, Obj>, done: seq<ObjId>, side: Side): (v: SideView)
    requires side.body in objects
    ensures WellFormedView(v)
  {
    match objects[side.body].body.userPointer
    case None => SideView(None, false, false)
    case Some(o) =>
      if o in objects then SideView(Some(o), objects[o].mesh.breakable, objects[o].collided || o in done)
      else SideView(None, false, false)
  }

  /** The objects one manifold breaks: side 0's, then side 1's. */
  function Fired(objects: map<ObjId, Obj>, done: seq<ObjId>, m: Manifold): (r: seq<ObjId>)
    requires m.side0.body in objects && m.side1.body in objects
    ensures |r| <= 2
    ensures forall id :: id in r ==> id in objects && objects[id].mesh.breakable && !objects[id].collided && id !in done
  {
    var v0, v1 := ViewOf(objects, done, m.side0), ViewOf(objects, done, m.side1);
    var outcome := Outcome(v0, v1, m.contacts);
    (if outcome.0 then [v0.owner.value] else []) + (if outcome.1 then [v1.owner.value] else [])
  }

  ghost predicate AllWellFormed(ms: seq<Manifold>, objects: map<ObjId, Obj>) {
    forall i :: 0 <= i < |ms| ==> WellFormedManifold(ms[i], objects)
  }

  /** The objects queued for removal by scanning `ms` in order from
      `objects`: each manifold sees as collided what the earlier ones broke. */
  ghost function Trace(objects: map<ObjId, Obj>, ms: seq<Manifold>): (r: seq<ObjId>)
    requires AllWellFormed(ms, objects)
    ensures |r| <= 2 * |ms|
    ensures forall id :: id in r ==> id in objects && objects[id].mesh.breakable && !objects[id].collided
    decreases |ms|
  {
    if ms == [] then []
    else
      var prior := Trace(objects, ms[..|ms| - 1]);
      prior + Fired(objects, prior, ms[|ms| - 1])
  }

  /** What one manifold breaks is a breakable object of one of its sides,
      not yet collided and not broken earlier in the scan, reached through
      its body's user pointer; no object twice. */
  lemma FiredCandidates(objects: map<ObjId, Obj>, done: seq<ObjId>, m: Manifold)
    requires LinksBack(objects) && WellFormedManifold(m, objects)
    ensures |Fired(objects, done, m)| <= 2
    ensures forall i, j :: 0 <= i < j < |Fired(objects, done, m)| ==>
      Fired(objects, done, m)[i] != Fired(objects, done, m)[j]
    ensures forall id :: id in Fired(objects, done, m) ==>
      (id == m.side0.body || id == m.side1.body)
      && id in objects && objects[id].mesh.breakable && !objects[id].collided
      && objects[id].body.userPointer == Some(id) && id !in done
  {
    var v0, v1 := ViewOf(objects, done, m.side0), ViewOf(objects, done, m.side1);
    FractureCondition(v0, v1, m.contacts);
    assert objects[m.side0.body].body.userPointer in {None, Some(m.side0.body)};
    assert objects[m.side1.body].body.userPointer in {None, Some(m.side1.body)};
  }

  /** A scan queues each object at most once, and only breakable objects
      that were not collided when the scan began. */
  lemma {:induction false} TraceAtMostOnce(objects: map<ObjId, Obj>, ms: seq<Manifold>)
    requires LinksBack(objects) && AllWellFormed(ms, objects)
    ensures forall i, j :: 0 <= i < j < |Trace(objects, ms)| ==> Trace(objects, ms)[i] != Trace(objects, ms)[j]
    ensures forall id :: id in Trace(objects, ms) ==>
      id in objects && objects[id].mesh.breakable && !objects[id].collided
      && objects[id].body.userPointer == Some(id)
    decreases |ms|
  {
    if ms != [] {
      var init := ms[..|ms| - 1];
      assert AllWellFormed(init, objects) by {
        forall i | 0 <= i < |init| ensures WellFormedManifold(init[i], objects) {
          assert init[i] == ms[i];
        }
      }
      TraceAtMostOnce(objects, init);
      var prior := Trace(objects, init);
      assert WellFormedManifold(ms[|ms| - 1], objects);
      FiredCandidates(objects, prior, ms[|ms| - 1]);
      var now := Fired(objects, prior, ms[|ms| - 1]);
      var t := prior + now;
      assert Trace(objects, ms) == t;
      forall i, j | 0 <= i < j < |t| ensures t[i] != t[j] {
        if j >= |prior| && i < |prior| {
          assert t[j] in now && t[i] in prior;
        }
      }
    }
  }

  /** The dynamic list only grows when objects are added and no body's
      mass changes. */
  lemma {:induction false} DynamicIdsGrow(a: map<ObjId, Obj>, n: nat, b: map<ObjId, Obj>, n': nat)
    requires n <= n'
    requires forall id: ObjId :: id < n' ==> id in b
    requires forall id: ObjId :: id < n ==> id in a && a[id].body.mass == b[id].body.mass
    ensures DynamicIds(a, n) <= DynamicIds(b, n')
    decreases n' - n
  {
    if n == n' {
      DynamicIdsFrame(a, b, n);
    } else {
      DynamicIdsGrow(a, n, b, n' - 1);
    }
  }

  /** A manifold judged later in the scan sees what the objects look like
      after the earlier manifolds marked `done` as collided. */
  lemma FiredAgrees(now: map<ObjId, Obj>, start: map<ObjId, Obj>, done: seq<ObjId>, m: Manifold)
    requires WellFormedManifold(m, start) && LinksBack(start)
    requires forall j :: j in start ==> j in now && now[j] == if j in done then start[j].(collided := true) else start[j]
    ensures WellFormedManifold(m, now)
    ensures Fired(now, [], m) == Fired(start, done, m)
  {
    assert start[m.side0.body].body.userPointer in {None, Some(m.side0.body)};
    assert start[m.side1.body].body.userPointer in {None, Some(m.side1.body)};
    assert ViewOf(now, [], m.side0) == ViewOf(start, done, m.side0);
    assert ViewOf(now, [], m.side1) == ViewOf(start, done, m.side1);
  }
}
