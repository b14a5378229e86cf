/** Value types shared by the whole model: optional values, 3-vectors,
    quaternions and rigid transforms. Coordinates are exact reals: the
    model makes decisions on them but never relies on float rounding. */
module Types {

  datatype Option<+T> = None | Some(value: T) {
    /** The value held, or `default` when there is none. */
    function GetOr(default: T): T {
      match this
      case Some(v) => v
      case None => default
    }
  }

  /** Identity of a scene object (a mesh together with its userData and
      its physics body); handed out in creation order. */
  type ObjId = nat

  datatype Vec3 = Vec3(x: real, y: real, z: real)

  datatype Quat = Quat(x: real, y: real, z: real, w: real)

  /** Position and orientation, as held by a physics motion state. */
  datatype Transform = Transform(origin: Vec3, rotation: Quat)

  const ORIGIN: Vec3 := Vec3(0.0, 0.0, 0.0)

  const IDENTITY: Quat := Quat(0.0, 0.0, 0.0, 1.0)
}
