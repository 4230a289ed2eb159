/** Small value types shared by every module: an optional value (JavaScript's
    `undefined` / `null` for an absent property) and a three-component vector. */
module Base {

  datatype Option<+T> = None | Some(value: T)

  /** A position, offset or scale in world units, as THREE.Vector3 holds it. */
  datatype Vec3 = Vec3(x: real, y: real, z: real) {
    /** Component-wise sum, as `Vector3.add` computes it. */
    function Plus(o: Vec3): (r: Vec3)
      ensures r.x - x == o.x && r.y - y == o.y && r.z - z == o.z
    {
      Vec3(x + o.x, y + o.y, z + o.z)
    }
  }

  /** The same factor on every axis, as `scale.set(s, s, s)` writes it. */
  function Uniform(s: real): Vec3 {
    Vec3(s, s, s)
  }

  const Origin: Vec3 := Vec3(0.0, 0.0, 0.0)
  const UnitScale: Vec3 := Uniform(1.0)
}
