/** What `createRigidBody` builds: a physics body paired with a mesh. */
module Bodies {
  import opened Types
  import opened Hull

  /** Collision margin given to every shape. */
  const MARGIN: real := 0.05
  /** Friction coefficient given to every body. */
  const FRICTION: real := 0.5
  /** The activation state that keeps a body from ever being put to sleep. */
  const DISABLE_DEACTIVATION: int := 4

  /** A three.js mesh: the position buffer of its geometry, its pose, its
      material colour, and the userData fields the fracture code reads
      (mass, velocity, angular velocity, breakable). */
  datatype Mesh = Mesh(
    coords: Coords,
    position: Vec3,
    quaternion: Quat,
    color: int,
    mass: real,
    velocity: Vec3,
    angularVelocity: Vec3,
    breakable: bool)

  datatype Geometry = Box(halfExtents: Vec3) | ConvexHull(points: seq<HullPoint>)

  datatype Shape = Shape(geometry: Geometry, margin: real)

  /** A physics body. A `None` velocity or activation state is one that was
      never set, so the engine's default holds; `userPointer` is the object
      the body's user pointer leads back to, if one was attached. */
  datatype Body = Body(
    mass: real,
    shape: Shape,
    motionState: Option<Transform>,
    friction: real,
    linearVelocity: Option<Vec3>,
    angularVelocity: Option<Vec3>,
    activationState: Option<int>,
    userPointer: Option<ObjId>)

  /** A scene object: the mesh, its `userData.collided` flag and its
      `userData.physicsBody`. */
  datatype Obj = Obj(mesh: Mesh, collided: bool, body: Body)

  /** The hull built from `coords`: one point per triple, flattening back
      to `coords`, with only the final point flagged. */
  ghost predicate IsHullOf(g: Geometry, coords: Coords) {
    g.ConvexHull?
    && Coordinates(g.points) == coords
    && forall k :: 0 <= k < |g.points| ==> (g.points[k].lastOne <==> k == |g.points| - 1)
  }

  /** `o` is what `createDebrisFromBreakableObject` registers for `mesh`
      under `id`: the mesh in its own pose, not collided, with a convex
      hull body of the mesh's mass moving with the mesh's velocities and
      a user pointer back to the object. */
  ghost predicate IsDebrisBody(o: Obj, mesh: Mesh, id: ObjId) {
    && o.mesh == mesh
    && !o.collided
    && o.body.mass == mesh.mass
    && IsHullOf(o.body.shape.geometry, mesh.coords)
    && o.body.shape.margin == MARGIN
    && o.body.motionState == Some(Transform(mesh.position, mesh.quaternion))
    && o.body.friction == FRICTION
    && o.body.linearVelocity == Some(mesh.velocity)
    && o.body.angularVelocity == Some(mesh.angularVelocity)
    && o.body.activationState == (if mesh.mass > 0.0 then Some(DISABLE_DEACTIVATION) else None)
    && o.body.userPointer == Some(id)
  }
}
