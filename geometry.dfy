/**
 * The implicit cube around the camera: the six faces with the integer ids the
 * program stores in its lookup table, the plane of each face, and the last step
 * of FindFaceUV, which turns the point where a ray meets a face into a texel
 * coordinate (u, v) on that face.
 *
 * The ray construction, the plane intersection and the atan correction are
 * trigonometry on doubles and are not modelled: their outcome is a `Hit`.
 * The (u, v) arithmetic is modelled over `real`.
 */
module Geometry {
  import opened Wrappers

  datatype Face = Left | Right | Top | Front | Back | Down

  /** The integer id of a face: LEFT 0, RIGHT 1, TOP 2, FRONT 3, BACK 4, DOWN 5. */
  function FaceId(f: Face): (id: int)
    ensures 0 <= id < 6
  {
    match f
    case Left => 0
    case Right => 1
    case Top => 2
    case Front => 3
    case Back => 4
    case Down => 5
  }

  /** The face with a given id; ids outside 0..5 name no face. */
  function FaceOf(id: int): (r: Option<Face>)
    ensures r.Some? <==> 0 <= id < 6
    ensures r.Some? ==> FaceId(r.value) == id
  {
    if id == 0 then Some(Left)
    else if id == 1 then Some(Right)
    else if id == 2 then Some(Top)
    else if id == 3 then Some(Front)
    else if id == 4 then Some(Back)
    else if id == 5 then Some(Down)
    else None
  }

  /** Ids and faces are in one-to-one correspondence. */
  lemma FaceIdRoundTrip(f: Face)
    ensures FaceOf(FaceId(f)) == Some(f)
  {
  }

  // ---------------------------------------------------------------------------
  // The cube planes a*x + b*y + c*z + d = 0, as set up by init_default_params.

  datatype Plane = Plane(a: int, b: int, c: int, d: int)

  /** The normal (a, b, c) is a unit vector along one of the three axes. */
  predicate AxisUnitNormal(p: Plane)
  {
    || (p.b == 0 && p.c == 0 && (p.a == 1 || p.a == -1))
    || (p.a == 0 && p.c == 0 && (p.b == 1 || p.b == -1))
    || (p.a == 0 && p.b == 0 && (p.c == 1 || p.c == -1))
  }

  function CubePlane(f: Face): (p: Plane)
    ensures p.d == -1
    ensures AxisUnitNormal(p)
  {
    match f
    case Left => Plane(-1, 0, 0, -1)
    case Right => Plane(1, 0, 0, -1)
    case Top => Plane(0, 0, 1, -1)
    case Down => Plane(0, 0, -1, -1)
    case Front => Plane(0, 1, 0, -1)
    case Back => Plane(0, -1, 0, -1)
  }

  /** The planes in face-id order, as they sit in the faces[6] array of the parameters. */
  function CubePlanes(): (ps: seq<Plane>)
    ensures |ps| == 6
    ensures forall f :: ps[FaceId(f)] == CubePlane(f)
  {
    [CubePlane(Left), CubePlane(Right), CubePlane(Top), CubePlane(Front), CubePlane(Back), CubePlane(Down)]
  }

  function Negated(p: Plane): Plane
  {
    Plane(-p.a, -p.b, -p.c, p.d)
  }

  /** A plane with an axis-aligned unit normal and d = -1 is a face of the cube of half-width one: the tip of its normal lies on it. */
  lemma CubePlaneAtUnitDistance(f: Face)
    ensures var p := CubePlane(f); p.a * p.a + p.b * p.b + p.c * p.c + p.d == 0
  {
    var p := CubePlane(f);
    assert p.a * p.a + p.b * p.b + p.c * p.c == 1 by {
      assert AxisUnitNormal(p);
    }
  }

  /** Opposite faces have opposite normals. */
  lemma CubePlanesOpposite()
    ensures CubePlane(Left) == Negated(CubePlane(Right))
    ensures CubePlane(Down) == Negated(CubePlane(Top))
    ensures CubePlane(Back) == Negated(CubePlane(Front))
  {
    assert CubePlane(Right) == Plane(1, 0, 0, -1);
    assert CubePlane(Top) == Plane(0, 0, 1, -1);
    assert CubePlane(Front) == Plane(0, 1, 0, -1);
  }

  /** The face whose outward normal a plane has, read off its coefficients. */
  function FaceOfNormal(p: Plane): Option<Face>
  {
    if p.a == -1 then Some(Left)
    else if p.a == 1 then Some(Right)
    else if p.c == 1 then Some(Top)
    else if p.c == -1 then Some(Down)
    else if p.b == 1 then Some(Front)
    else if p.b == -1 then Some(Back)
    else None
  }

  /** Each face is recovered from its plane, so no two faces share a plane. */
  lemma CubePlanesDistinct(f: Face, g: Face)
    ensures FaceOfNormal(CubePlane(f)) == Some(f)
    ensures f != g ==> CubePlane(f) != CubePlane(g)
  {
  }

  // ---------------------------------------------------------------------------
  // The tail of FindFaceUV.

  /** The value a coordinate of 1 or more is replaced with; below one. */
  const NearlyOne: real := 0.99999

  datatype UV = UV(u: real, v: real)

  /**
   * What the ray search produced: no face (found < 0), or the face found and
   * the intersection point q with its two in-plane coordinates already mapped
   * through atan(q)*4/pi.
   */
  datatype Hit = NoFace | Hit(face: Face, x: real, y: real, z: real)

  /** Outcome of FindFaceUV: the value -1, or a face id together with the stored (u, v). */
  datatype FaceUV = Fail | Found(face: Face, uv: UV)

  /** The face-local coordinate before halving, by the sign and axis rule of each face. */
  function RawUV(face: Face, x: real, y: real, z: real): (r: UV)
    // a point of the cube's surface has face-local coordinates in [0, 2]
    ensures -1.0 <= x <= 1.0 && -1.0 <= y <= 1.0 && -1.0 <= z <= 1.0 ==>
              0.0 <= r.u <= 2.0 && 0.0 <= r.v <= 2.0
  {
    match face
    case Left => UV(y + 1.0, z + 1.0)
    case Right => UV(1.0 - y, z + 1.0)
    case Front => UV(x + 1.0, z + 1.0)
    case Back => UV(1.0 - x, z + 1.0)
    case Down => UV(1.0 - x, 1.0 - y)
    case Top => UV(1.0 - x, y + 1.0)
  }

  /** The two coordinates of q that lie in the plane of the face. */
  function InPlane(h: Hit): (real, real)
    requires h.Hit?
  {
    match h.face
    case Left => (h.y, h.z)
    case Right => (h.y, h.z)
    case Front => (h.x, h.z)
    case Back => (h.x, h.z)
    case Top => (h.x, h.y)
    case Down => (h.x, h.y)
  }

  /** Half of a face-local coordinate, with NEARLYONE in place of anything that reaches one. */
  function Halved(c: real): (h: real)
    ensures h < 1.0
    ensures c < 2.0 ==> h == c / 2.0
    ensures c >= 2.0 ==> h == NearlyOne
  {
    var h := c * 0.5;
    if h >= 1.0 then NearlyOne else h
  }

  /** Halve, clamp to NEARLYONE, then reject anything outside [0,1). */
  function FindFaceUV(hit: Hit): (r: FaceUV)
    ensures r.Found? ==> hit.Hit? && r.face == hit.face
    ensures r.Found? ==> 0.0 <= r.uv.u < 1.0 && 0.0 <= r.uv.v < 1.0
    // a face is reported exactly when one was hit and neither coordinate is negative
    ensures r.Found? <==> hit.Hit? && RawUV(hit.face, hit.x, hit.y, hit.z).u >= 0.0
                                   && RawUV(hit.face, hit.x, hit.y, hit.z).v >= 0.0
    // halving keeps values below one and replaces the others by NEARLYONE
    ensures r.Found? ==> var raw := RawUV(hit.face, hit.x, hit.y, hit.z);
                         (raw.u < 2.0 ==> r.uv.u == raw.u / 2.0) && (raw.u >= 2.0 ==> r.uv.u == NearlyOne) &&
                         (raw.v < 2.0 ==> r.uv.v == raw.v / 2.0) && (raw.v >= 2.0 ==> r.uv.v == NearlyOne)
  {
    match hit
    case NoFace => Fail
    case Hit(face, x, y, z) =>
      var raw := RawUV(face, x, y, z);
      var uv := UV(Halved(raw.u), Halved(raw.v));
      if uv.u < 0.0 || uv.v < 0.0 || uv.u >= 1.0 || uv.v >= 1.0 then Fail
      else Found(face, uv)
  }

  /** The integer FindFaceUV returns: -1 on failure, else the face id. */
  function FaceCode(r: FaceUV): (code: int)
    ensures -1 <= code < 6
    ensures code == -1 <==> r.Fail?
  {
    if r.Fail? then -1 else FaceId(r.face)
  }

  /**
   * A hit whose in-plane coordinates lie in [-1, 1], which is what the ray
   * search demands before it reports a face, always yields a (u, v) in
   * [0, 1) on that face: the range check never fires for such a hit.
   */
  lemma InRangeHitIsFound(hit: Hit)
    requires hit.Hit?
    requires -1.0 <= InPlane(hit).0 <= 1.0 && -1.0 <= InPlane(hit).1 <= 1.0
    ensures FindFaceUV(hit).Found? && FindFaceUV(hit).face == hit.face
  {
  }

  /** A hit with an in-plane coordinate outside the cube on the negative side of its rule is rejected. */
  lemma NegativeCoordinateFails(hit: Hit)
    requires hit.Hit?
    requires RawUV(hit.face, hit.x, hit.y, hit.z).u < 0.0 || RawUV(hit.face, hit.x, hit.y, hit.z).v < 0.0
    ensures FindFaceUV(hit) == Fail
  {
  }
}
