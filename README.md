# VaseCastle fracture bookkeeping in Dafny

VaseCastle is a three.js and Ammo.js demo. A pyramid of 36 breakable cups
stands on a ground box. A contact impulse above 250 breaks a cup into
convex-hull debris, and each piece becomes a new rigid body. This project
models the bookkeeping of `index.js` around that:

- how `createRigidBody` registers bodies;
- how debris is created and removed;
- how convex hulls are fed from position buffers;
- the pyramid built by `createObjects`;
- the per-frame `updatePhysics` step: the transform sync, the manifold scan
  with its skip rules and contact selection, the fracture decision, and the
  deferred removal queue.

The module globals of `index.js` become the fields of class
`Simulation.World`. These are the registered objects, the dynamic list
`rigidBodies`, the scene, the physics world, the removal array
`objectsToRemove` with its count, and the impact point and normal. Each
scene object is an `Obj` value (mesh, `userData.collided` and physics body)
in the map `objects`. It is keyed by an id handed out in creation order. A
body's user pointer is the id of the object it leads back to. Only
`createDebrisFromBreakableObject` sets one.

The functions that change state are methods with loops and `modifies`
frames. Each is proved against value-level specification functions:

- `Synchronized` is the sync loop;
- `Examine` is the contact loop;
- `Outcome` and `Fired` are the per-manifold decision;
- `Trace` and `Fragments` are the whole manifold scan;
- `Breaks` and `Stepped` relate the state before and after the scan and the step;
- `Row`, `Rows` and `Layout` are the pyramid.

Lemmas about those functions state what the program promises. Examples: an
object is queued at most once per step, a first penetrating impulse of
exactly 250 breaks nothing, and the stack has 36 cups, symmetric level by
level.

The engine's outputs are parameters of `UpdatePhysics`:

- `motion` is the transform each body's motion state holds after
  `stepSimulation`;
- `ms` is the list of contact manifolds, with each side's velocities;
- `subdivide` stands for `ConvexObjectBreaker.subdivideByImpact`.

Where the code differs from what one might expect, the model follows the code:

- The contact loop stops at the first contact point with a negative
  distance (`index.js:475`). It does not take the largest impulse over all
  penetrating points. `Contacts.MaxPenetratingImpulse` is that larger
  reading. `Contacts.ExamineAtMostMax` and
  `Contacts.EarlyExitMissesLargerImpulse` relate the two.
- The code does not check for an empty point cloud: an empty buffer gives
  an empty hull, and the body is registered anyway.
- The first `continue` also skips a manifold when neither side leads to an
  object. This is the case for the ground and the ball, whose bodies carry
  no user pointer.

## Model

| member | source | states |
|---|---|---|
| Contacts.FirstPenetrating | index.js:460-476 | the index returned is the first contact point with a negative distance; none is returned exactly when no point penetrates |
| Contacts.FirstPenetratingUnique | index.js:460-476 | a first penetrating point is unique: any index meeting the definition is the one the scan finds |
| Contacts.Examine | index.js:458-476 | the verdict's impulse is never negative; without contact it is 0 and there is no impact point; an impact point is a penetrating contact point, and the impulse kept is its impulse |
| Contacts.ScanContacts | index.js:458-476 | the contact loop, with its early exit: `contact`, `maxImpulse` and the impact point copied out equal the verdict of `Examine` (only the first penetrating point counts, and its impulse replaces 0 only when larger) |
| Contacts.RestingContact | index.js:458-480 | with no penetrating point there is no contact and the impulse stays 0, whatever impulses the points carry |
| Contacts.FirstPointDecides | index.js:463-475 | the points before the first penetrating one and every point after it leave the verdict unchanged; the verdict carries that point's impulse when it is positive, otherwise 0 and no impact point |
| Contacts.ExceedsIffFirstExceeds | index.js:458-486 | the scan's impulse exceeds a non-negative threshold if and only if the first penetrating point's impulse does |
| Contacts.ExamineAtMostMax | index.js:458-476 | the impulse the early-exit scan keeps is at most the largest impulse over all penetrating points |
| Contacts.ExamineSkipsResting | index.js:463 | a leading point that does not penetrate does not change the verdict |
| Contacts.EarlyExitMissesLargerImpulse | index.js:475 | for two penetrating points with impulses 10 then 400 the scan keeps 10, while the maximum is 400 |
| Fracture.Outcome | index.js:441-486 | a skipped manifold, or one without a penetrating point, breaks neither side; a side breaks only when its object is breakable and not collided and the impulse exceeds 250 |
| Fracture.FractureCondition | index.js:432-486 | a side breaks if and only if it leads to an object that is breakable and not yet collided, and the first penetrating point's impulse exceeds 250; both directions, for both sides |
| Fracture.SkippedManifoldsNeverFracture | index.js:441-456 | a manifold breaks nothing when neither side leads to an object, when neither side is breakable, or when both sides are already collided |
| Fracture.ThresholdIsStrict | index.js:484-486 | a first penetrating impulse of exactly 250 breaks nothing; any larger one breaks every side that is breakable and not collided |
| Fracture.RestingContactNeverFractures | index.js:480 | a manifold without a penetrating point breaks nothing |
| Hull.Coordinates | index.js:266-270 | the flat buffer of n hull points has 3n numbers |
| Hull.CreateConvexHullPhysicsShape | index.js:263-273 | one point per coordinate triple, in buffer order, so the points flatten back to the buffer; exactly the final point is flagged `lastOne` |
| Pyramid.Row | index.js:196-201 | level L holds 9 - L cups, all at one height and in the plane z = 0 |
| Pyramid.Rows | index.js:194-205 | every cup of the first levels lies in z = 0 and has one of the four base colours |
| Pyramid.Layout | index.js:194-205 | the stack holds 36 cups |
| Pyramid.RowsCount | index.js:191-200 | level L holds 9 - L cups; the first n levels hold n(17 - n)/2 cups together |
| Pyramid.LayoutCount | index.js:191-205 | the stack holds 36 cups |
| Pyramid.RowColor | index.js:188-197 | level L is coloured `baseColors[(L - 1) % 4]`, so the colours repeat every four levels |
| Pyramid.RowSymmetric | index.js:189-201 | each level is mirror-symmetric about x = 0, lies in z = 0, and sits one cup height above the level below |
| Pyramid.PlacementFormula | index.js:196-201 | the position and colour the loop computes for cup i of a level are those of `Row` |
| Pyramid.RowInLayout | index.js:194-205 | cup i of level L is created right after all cups of the levels below L |
| Scan.DynamicIds | index.js:324-325 | the dynamic list of the first n objects has at most n entries, each one of those objects |
| Scan.DynamicIdsFrame | index.js:323-326 | the dynamic list depends only on the bodies' masses |
| Scan.DynamicIdsAreDynamic | index.js:323-326 | the dynamic list holds only ids of positive-mass bodies, in increasing creation order, and every positive-mass body |
| Scan.DynamicIdsGrow | index.js:323-326 | when objects are only added and no mass changes, the old dynamic list is a prefix of the new one |
| Scan.Synced | index.js:408-416 | a synced object keeps its body and its `breakable` flag, takes the engine transform's origin and rotation as its pose, and has `collided` cleared |
| Scan.Synchronized | index.js:403-417 | the sync keeps the set of objects |
| Scan.SyncIdempotent | index.js:403-417 | syncing twice from the same engine transforms gives the same objects as syncing once |
| Scan.SyncStep | index.js:403-417 | syncing one more listed object changes only that object, and only when its body has a motion state |
| Scan.SyncKeepsBodies | index.js:403-417 | the sync changes no physics body and no `breakable` flag |
| Scan.ViewOf | index.js:432-453 | a side without an object reads as not breakable and not collided |
| Scan.Fired | index.js:486-539 | one manifold breaks at most two objects, each registered, breakable, not collided and not broken earlier in the scan |
| Scan.Trace | index.js:419-541 | a scan breaks at most two objects per manifold, each registered, breakable and not collided when the scan began |
| Scan.FiredCandidates | index.js:486-539 | one manifold breaks at most two distinct objects; each is one of its sides' own objects, breakable, not collided, linked back from its body, and not broken earlier in the scan |
| Scan.TraceAtMostOnce | index.js:415-539 | a whole scan queues each object at most once, and only breakable objects that were not collided when the scan began |
| Scan.FiredAgrees | index.js:511-539 | a later manifold sees the objects broken earlier in the scan as collided, and nothing else changed |
| Simulation.Pieces | index.js:495-508 | a side that does not break spawns nothing, and every piece it spawns carries the side's linear and angular velocity |
| Simulation.Spawned | index.js:486-539 | a manifold that breaks nothing spawns nothing |
| Simulation.Fragments | index.js:419-541 | a scan that breaks nothing spawns nothing |
| Simulation.SpawnedAgrees | index.js:488-535 | the fragments a later manifold spawns depend on the earlier breaks only through the collided flags |
| Simulation.SidesCombine | index.js:486-539 | what a manifold breaks and spawns is side 0's part followed by side 1's, as each side's decision says |
| Simulation.SideBreaks | index.js:486-511 | composition lemma: registering the fragments under the next ids, queueing the object and marking it collided is a break of that object into those fragments |
| Simulation.ManifoldBreaks | index.js:484-540 | composition lemma: breaking each side as decided is breaking what the manifold fires into what it spawns |
| Simulation.BreaksCompose | index.js:419-541 | composition lemma: two breaks in a row are one break of both lists: the fragments are numbered consecutively and the queue lists the objects in order |
| Simulation.BreaksNone | index.js:419 | composition lemma: breaking nothing is the step that changes nothing, the start of every scan |
| Simulation.BreaksKeepsDynamic | index.js:323-326 | breaking never drops an entry of the dynamic list |
| Simulation.StepComposes | index.js:399-548 | composition lemma: the sync, the scan and the drain compose into one step |
| Simulation.ScanUnfold | index.js:419-541 | composition lemma: the scan of one more manifold is the shorter scan followed by that manifold, judged against what the shorter scan broke |
| Simulation.ScanStep | index.js:419-541 | composition lemma: the state after one more manifold is the scan of the longer prefix |
| Simulation.OneDebris | index.js:232-255 | composition lemma: registering one debris body under the next id is a break that marks nothing |
| Simulation.LevelStep | index.js:194-205 | composition lemma: the cups of the lower levels, then those of the next level, are the cups of the first levels of the layout |
| Simulation.AddObjectKeepsRegistry | index.js:323-326 | a new object extends the dynamic list by its id exactly when its body's mass is positive |
| Simulation.SyncKeepsRegistry | index.js:403-417 | the sync keeps the set of ids, the user pointers and the dynamic list |
| Simulation.SyncKeepsConsistent | index.js:403-417 | the sync keeps the world consistent |
| Simulation.AddKeepsConsistent | index.js:275-334 | registering an object under the next id keeps the world consistent |
| Simulation.World.constructor | index.js:34-50 | empty registry, empty dynamic list, 500 empty removal slots and a count of 0 |
| Simulation.World.CreateRigidBody | index.js:275-334 | keeps the given pose or else the mesh's own; sets `collided` to false and friction to 0.5; sets velocities only when given; the body joins the dynamic list, and gets activation state 4, exactly when the mass is positive; it always joins the scene and the physics world; no other object changes |
| Simulation.World.CreateDebrisFromBreakableObject | index.js:232-255 | the mesh becomes a body of its own mass and velocities, with a convex hull built from its position buffer, the shared margin and a user pointer back to the object |
| Simulation.World.CreateParallelepiped | index.js:208-230 | a box of half the given extents, with the shared margin, registered at the given pose without a user pointer |
| Simulation.World.CreateCup | index.js:140-163 | a breakable cup of the given mass, at rest, registered as a debris body |
| Simulation.World.CreateLevel | index.js:196-203 | the level's cups are registered left to right as debris under consecutive ids, at the positions and in the colour of `Row` |
| Simulation.World.CreateStack | index.js:191-205 | all 36 cups of `Layout` are registered in order, and nothing else changes |
| Simulation.World.CreateObjects | index.js:165-206 | a static 40 x 1 x 40 ground box at y = -0.5, then the cups of `Layout` under the following ids; scene and physics world gain exactly these |
| Simulation.World.RemoveDebris | index.js:257-261 | the object leaves the scene and the physics world; the dynamic list is untouched |
| Simulation.World.SyncTransforms | index.js:403-417 | the objects become `Synchronized(old objects)`: each dynamic object with a motion state takes that transform and has `collided` cleared |
| Simulation.World.Enqueue | index.js:510 | the object is written to the next slot and the count grows by one; the array grows past its 500 pre-filled slots once they are used up |
| Simulation.World.RegisterFragments | index.js:495-508 | each fragment gets the broken body's velocities and is registered as a debris body under the next id, in order |
| Simulation.World.MarkCollided | index.js:511 | only the object's `collided` flag changes |
| Simulation.World.FractureSide | index.js:487-511 | the fragments of the subdivision at the current impact point are registered, the object is queued once and marked collided, and no other object changes |
| Simulation.World.FractureIf | index.js:486-511 | a side that fires is broken into its pieces; one that does not fire changes nothing |
| Simulation.World.BreakSides | index.js:484-540 | side 0 and then side 1 are broken as decided, both at the one shared impact point |
| Simulation.World.JudgeManifold | index.js:420-486 | the decision equals `Outcome` of the two side views; when a side fires, the impact point and normal are those of the first penetrating point; they are written exactly when the manifold is not skipped and that point's impulse is positive, and keep their values otherwise |
| Simulation.World.ProcessManifold | index.js:420-540 | one manifold breaks what `Fired` names into what `Spawned` gives |
| Simulation.World.ScanManifolds | index.js:419-541 | the scan breaks `Trace(objects, ms)` into `Fragments(objects, ms)` |
| Simulation.World.DrainRemovals | index.js:543-547 | exactly the queued objects leave the scene and the physics world, and the count ends at 0 |
| Simulation.World.UpdatePhysics | index.js:399-548 | a whole step: each object the scan breaks is marked collided and leaves the scene and the physics world; every fragment is registered as debris under the next ids; every other object is the synced one; the queue ends empty; the dynamic list only grows |

## Left out

- Rendering, camera, lights, shadows, textures, window resizing and the animation loop: presentation only. The ground's grid texture and `castShadow`/`receiveShadow` are not modelled.
- Ammo's asynchronous start-up and the construction of the physics world, dispatcher and solver: foreign library set-up.
- `stepSimulation`, inertia, friction and motion-state internals: these belong to a physics engine that is not visible here. Their effect enters as the `motion` parameter. A body's motion state is modelled as present from its creation.
- `ConvexObjectBreaker.subdivideByImpact` and `prepareBreakableObject`: foreign geometry. The first is the `subdivide` parameter. The second becomes a mesh that records mass, zero velocities and `breakable`.
- The pointer handler that throws the ball, and random colours: input, raycasting and randomness.
- Float arithmetic: positions, quaternions, velocities and impulses are exact reals, so no rounding is modelled. Each side's velocities are taken as the values the engine reports during the step.
- Hull.CreateConvexHullPhysicsShape: assumes a position buffer whose length is a multiple of 3, as three.js position attributes are. A ragged tail, which the code would read past, is not modelled.
- Per-step error handling: the code has no error paths in this part, so none are modelled.
- Identity of meshes: objects are named by ids in a map, so the aliasing between a mesh and its userData is not modelled.
