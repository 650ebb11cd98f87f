/**
  Geometry of the cube map. A face pixel at normalised coordinates (u, v) in [0, 1] x [0, 1]
  lies on the face of the cube [-1, 1]^3 given by a fixed linear basis per face; the opposite
  direction finds the face whose axis dominates a vector and its (u, v). Only comparisons,
  sign changes and division are involved, so the model is exact over the reals.

  Face indices and names follow face_names: 0 front, 1 right, 2 back, 3 left, 4 up, 5 down.
 */
module CubeGeometry {
  import opened Wrappers

  datatype Face = Front | Right | Back | Left | Up | Down

  /** The faces in face_names order, so FaceNames[i] is the face of index i. */
  const FaceNames: seq<Face> := [Front, Right, Back, Left, Up, Down]

  /** Every face, as the key set of a complete cube map. */
  const AllFaces: set<Face> := {Front, Right, Back, Left, Up, Down}

  /** face_names lists every face exactly once. */
  lemma AllFacesListed()
    ensures (set j | 0 <= j < 6 :: FaceNames[j]) == AllFaces
  {
    assert FaceNames[0] == Front && FaceNames[1] == Right && FaceNames[2] == Back;
    assert FaceNames[3] == Left && FaceNames[4] == Up && FaceNames[5] == Down;
  }

  /** The dictionary key under which a face is stored. */
  function Name(f: Face): (s: string)
    ensures |s| >= 2
  {
    match f
    case Front => "front"
    case Right => "right"
    case Back => "back"
    case Left => "left"
    case Up => "up"
    case Down => "down"
  }

  /** Distinct faces are stored under distinct names. */
  lemma NamesDistinct(f: Face, g: Face)
    ensures Name(f) == Name(g) <==> f == g
  {
    if f != g {
      assert Name(f)[0] != Name(g)[0];
    }
  }

  /** The position of a face in face_names. */
  function IndexOf(f: Face): (i: nat)
    ensures i < 6 && FaceNames[i] == f
  {
    match f
    case Front => 0
    case Right => 1
    case Back => 2
    case Left => 3
    case Up => 4
    case Down => 5
  }

  /** IndexOf inverts the face_names lookup. */
  lemma IndexOfName(i: nat)
    requires i < 6
    ensures IndexOf(FaceNames[i]) == i
  {
    assert FaceNames[i] == [Front, Right, Back, Left, Up, Down][i];
  }

  datatype Vec3 = Vec3(x: real, y: real, z: real)

  function Scale(k: real, d: Vec3): Vec3 {
    Vec3(k * d.x, k * d.y, k * d.z)
  }

  function Dot(a: Vec3, b: Vec3): real {
    a.x * b.x + a.y * b.y + a.z * b.z
  }

  function Abs(r: real): (a: real)
    ensures 0.0 <= a && (a == r || a == -r)
  {
    if r < 0.0 then -r else r
  }

  /** face_vectors: the outward axis of each face. */
  function FaceVector(f: Face): Vec3 {
    match f
    case Front => Vec3(1.0, 0.0, 0.0)
    case Right => Vec3(0.0, 0.0, 1.0)
    case Back => Vec3(-1.0, 0.0, 0.0)
    case Left => Vec3(0.0, 0.0, -1.0)
    case Up => Vec3(0.0, 1.0, 0.0)
    case Down => Vec3(0.0, -1.0, 0.0)
  }

  /**
    The face basis of _cube_to_sphere_single, cube_to_sphere_coords and cube_to_sphere,
    before normalisation: with un = 2u - 1 and vn = 2v - 1, front (1, -vn, -un), right
    (un, -vn, 1), back (-1, -vn, un), left (-un, -vn, -1), up (un, 1, vn), down (un, -1, -vn);
    an unknown face index gives (1, 0, 0). For u and v in [0, 1] the vector lies on the surface
    of the cube [-1, 1]^3.
   */
  function CubeVector(faceIndex: int, u: real, v: real): (d: Vec3)
    ensures !(0 <= faceIndex < 6) ==> d == Vec3(1.0, 0.0, 0.0)
    ensures 0.0 <= u <= 1.0 && 0.0 <= v <= 1.0 ==>
      Abs(d.x) <= 1.0 && Abs(d.y) <= 1.0 && Abs(d.z) <= 1.0
  {
    var un := u * 2.0 - 1.0;
    var vn := v * 2.0 - 1.0;
    if faceIndex == 0 then Vec3(1.0, -vn, -un)
    else if faceIndex == 1 then Vec3(un, -vn, 1.0)
    else if faceIndex == 2 then Vec3(-1.0, -vn, un)
    else if faceIndex == 3 then Vec3(-un, -vn, -1.0)
    else if faceIndex == 4 then Vec3(un, 1.0, vn)
    else if faceIndex == 5 then Vec3(un, -1.0, -vn)
    else Vec3(1.0, 0.0, 0.0)
  }

  /** The vector of face i lies in the plane of that face: its component along the face axis is 1. */
  lemma OnFacePlane(i: nat, u: real, v: real)
    requires i < 6
    ensures Dot(CubeVector(i, u, v), FaceVector(FaceNames[i])) == 1.0
  {
    assert FaceNames[i] == [Front, Right, Back, Left, Up, Down][i];
  }

  /** The centre of every face is the axis that face_vectors lists for it. */
  lemma FaceCentre(i: nat)
    requires i < 6
    ensures CubeVector(i, 0.5, 0.5) == FaceVector(FaceNames[i])
  {
  }

  /** (a / m + 1) / 2: the coordinate along one face axis of a vector whose dominant component has length m. */
  function Coord(a: real, m: real): real
    requires m != 0.0
  {
    (a / m + 1.0) / 2.0
  }

  /** A numerator bounded by the positive denominator gives a coordinate in [0, 1]. */
  lemma CoordBound(a: real, m: real)
    requires 0.0 < m && Abs(a) <= m
    ensures 0.0 <= Coord(a, m) <= 1.0
  {
    var q := a / m;
    assert q * m == a;
    assert -m <= a <= m;
    assert (q + 1.0) * m == a + m;
    assert (q - 1.0) * m == a - m;
    if q < -1.0 { MulNegPos(q + 1.0, m); }
    if q > 1.0 { MulNegPos(1.0 - q, m); }
    assert Coord(a, m) == (q + 1.0) / 2.0;
  }

  lemma MulNegPos(a: real, b: real)
    requires a < 0.0 < b
    ensures a * b < 0.0
  {
  }

  /** Scaling the vector does not move its coordinates. */
  lemma CoordScale(k: real, a: real, m: real, ka: real, km: real)
    requires 0.0 < k && m != 0.0 && ka == k * a && km == k * m
    ensures km != 0.0 && Coord(ka, km) == Coord(a, m)
  {
    assert (k * a) / (k * m) == a / m;
  }

  /** The coordinate of a component m * p is (p + 1) / 2. */
  lemma CoordOfMultiple(m: real, p: real)
    requires m != 0.0
    ensures Coord(m * p, m) == (p + 1.0) / 2.0
  {
    assert (m * p) / m == p;
  }

  /** Recovering the component from its coordinate. */
  lemma CoordInverse(a: real, m: real)
    requires m != 0.0
    ensures m * (Coord(a, m) * 2.0 - 1.0) == a
  {
    assert Coord(a, m) * 2.0 - 1.0 == a / m;
    assert (a / m) * m == a;
  }

  predicate XDominant(d: Vec3) {
    Abs(d.x) >= Abs(d.y) && Abs(d.x) >= Abs(d.z)
  }

  predicate YDominant(d: Vec3) {
    Abs(d.y) >= Abs(d.x) && Abs(d.y) >= Abs(d.z)
  }

  /**
    The face selection of _sphere_to_cube_face: x-dominance is checked first, then
    y-dominance, and z takes the rest; a positive component picks front, up or right, any
    other picks back, down or left. The zero vector reaches the back branch, whose division
    by -x fails; that is None.
   */
  function SelectFace(d: Vec3): (r: Option<Face>)
    ensures r.None? <==> d == Vec3(0.0, 0.0, 0.0)
    ensures r.Some? ==> (r.value in {Front, Back} <==> XDominant(d))
    ensures r.Some? ==> (r.value in {Up, Down} <==> !XDominant(d) && YDominant(d))
  {
    if XDominant(d) then
      if d.x > 0.0 then Some(Front) else if d.x == 0.0 then None else Some(Back)
    else if YDominant(d) then
      if d.y > 0.0 then Some(Up) else Some(Down)
    else
      if d.z > 0.0 then Some(Right) else Some(Left)
  }

  /** The component of d along the outward axis of face f (the divisor of that face's branch). */
  function Depth(d: Vec3, f: Face): real {
    match f
    case Front => d.x
    case Back => -d.x
    case Up => d.y
    case Down => -d.y
    case Right => d.z
    case Left => -d.z
  }

  /** The component of d along the direction of increasing u on face f (the u numerator). */
  function Across(d: Vec3, f: Face): real {
    match f
    case Front => -d.z
    case Back => d.z
    case Up => d.x
    case Down => d.x
    case Right => d.x
    case Left => -d.x
  }

  /** The component of d along the direction of increasing v on face f (the v numerator). */
  function Downward(d: Vec3, f: Face): real {
    match f
    case Front => -d.y
    case Back => -d.y
    case Up => d.z
    case Down => -d.z
    case Right => -d.y
    case Left => -d.y
  }

  /** The depth along a face is the dot product with the axis face_vectors lists for it. */
  lemma DepthIsDot(d: Vec3, f: Face)
    ensures Depth(d, f) == Dot(d, FaceVector(f))
  {
    match f
    case Front =>
    case Back =>
    case Up =>
    case Down =>
    case Right =>
    case Left =>
  }

  /**
    The face selected for a vector lies in front of it, and its depth dominates every
    component, so both numerators lie within [-depth, depth].
   */
  lemma SelectedDepth(d: Vec3)
    requires SelectFace(d).Some?
    ensures var f := SelectFace(d).value;
      var m := Depth(d, f);
      && 0.0 < m && Abs(d.x) <= m && Abs(d.y) <= m && Abs(d.z) <= m
      && Abs(Across(d, f)) <= m && Abs(Downward(d, f)) <= m
  {
  }

  /**
    _sphere_to_cube_face: the selected face and the coordinates (a / m + 1) / 2 of the vector
    along the two face axes, m being its depth. Written out, front gives ((-z/x + 1)/2,
    (-y/x + 1)/2), back ((z/-x + 1)/2, (-y/-x + 1)/2), up ((x/y + 1)/2, (z/y + 1)/2), down
    ((x/-y + 1)/2, (-z/-y + 1)/2), right ((x/z + 1)/2, (-y/z + 1)/2) and left
    ((-x/-z + 1)/2, (-y/-z + 1)/2). Every non-zero vector gets coordinates in [0, 1].
   */
  function SphereToCubeFace(d: Vec3): (r: Option<(Face, real, real)>)
    ensures r.None? <==> d == Vec3(0.0, 0.0, 0.0)
    ensures r.Some? ==> SelectFace(d) == Some(r.value.0) && 0.0 < Depth(d, r.value.0)
    ensures r.Some? ==> 0.0 <= r.value.1 <= 1.0 && 0.0 <= r.value.2 <= 1.0
  {
    match SelectFace(d)
    case None => None
    case Some(f) =>
      SelectedDepth(d);
      var m := Depth(d, f);
      CoordBound(Across(d, f), m);
      CoordBound(Downward(d, f), m);
      Some((f, Coord(Across(d, f), m), Coord(Downward(d, f), m)))
  }

  /** The lookup result once the face is known. */
  lemma LookupOf(d: Vec3, f: Face)
    requires SelectFace(d) == Some(f)
    ensures 0.0 < Depth(d, f)
    ensures SphereToCubeFace(d) == Some((f, Coord(Across(d, f), Depth(d, f)), Coord(Downward(d, f), Depth(d, f))))
  {
    SelectedDepth(d);
  }

  lemma AbsScale(k: real, a: real)
    requires 0.0 < k
    ensures Abs(k * a) == k * Abs(a)
    ensures k * a > 0.0 <==> a > 0.0
    ensures k * a == 0.0 <==> a == 0.0
  {
  }

  /** Multiplying by a positive factor keeps the order: ka >= kb exactly when a >= b. */
  lemma ScaleCompare(k: real, a: real, b: real, ka: real, kb: real)
    requires 0.0 < k && ka == k * a && kb == k * b
    ensures ka >= kb <==> a >= b
  {
    assert k * a - k * b == k * (a - b);
  }

  /** Face selection reads only the dominance tests and the signs of the components. */
  lemma SelectSameSigns(d: Vec3, e: Vec3)
    requires XDominant(e) == XDominant(d) && YDominant(e) == YDominant(d)
    requires (e.x > 0.0) == (d.x > 0.0) && (e.x == 0.0) == (d.x == 0.0)
    requires (e.y > 0.0) == (d.y > 0.0) && (e.z > 0.0) == (d.z > 0.0)
    ensures SelectFace(e) == SelectFace(d)
  {
  }

  /** A positive factor keeps the order of magnitudes. */
  lemma AbsOrder(k: real, a: real, b: real, ka: real, kb: real)
    requires 0.0 < k && ka == k * a && kb == k * b
    ensures Abs(ka) >= Abs(kb) <==> Abs(a) >= Abs(b)
  {
    AbsScale(k, a);
    AbsScale(k, b);
    ScaleCompare(k, Abs(a), Abs(b), Abs(ka), Abs(kb));
  }

  /** e is d scaled by k, component by component. */
  ghost predicate ScaledBy(d: Vec3, e: Vec3, k: real) {
    e.x == k * d.x && e.y == k * d.y && e.z == k * d.z
  }

  lemma XDominanceScaled(d: Vec3, e: Vec3, k: real)
    requires 0.0 < k && ScaledBy(d, e, k)
    ensures XDominant(e) == XDominant(d)
  {
    AbsOrder(k, d.x, d.y, e.x, e.y);
    AbsOrder(k, d.x, d.z, e.x, e.z);
  }

  lemma YDominanceScaled(d: Vec3, e: Vec3, k: real)
    requires 0.0 < k && ScaledBy(d, e, k)
    ensures YDominant(e) == YDominant(d)
  {
    AbsOrder(k, d.y, d.x, e.y, e.x);
    AbsOrder(k, d.y, d.z, e.y, e.z);
  }

  lemma SignsScaled(d: Vec3, e: Vec3, k: real)
    requires 0.0 < k && ScaledBy(d, e, k)
    ensures (e.x > 0.0) == (d.x > 0.0) && (e.x == 0.0) == (d.x == 0.0)
    ensures (e.y > 0.0) == (d.y > 0.0) && (e.z > 0.0) == (d.z > 0.0)
  {
    AbsScale(k, d.x);
    AbsScale(k, d.y);
    AbsScale(k, d.z);
  }

  lemma SelectScaled(d: Vec3, e: Vec3, k: real)
    requires 0.0 < k && ScaledBy(d, e, k)
    ensures SelectFace(e) == SelectFace(d)
  {
    XDominanceScaled(d, e, k);
    YDominanceScaled(d, e, k);
    SignsScaled(d, e, k);
    SelectSameSigns(d, e);
  }

  /** Face selection depends only on the direction of the vector. */
  lemma SelectScaleInvariant(d: Vec3, k: real)
    requires 0.0 < k
    ensures SelectFace(Scale(k, d)) == SelectFace(d)
  {
    SelectScaled(d, Scale(k, d), k);
  }

  /** Depth and both numerators scale with the vector. */
  lemma ComponentsScale(d: Vec3, e: Vec3, f: Face, k: real)
    requires ScaledBy(d, e, k)
    ensures Depth(e, f) == k * Depth(d, f)
    ensures Across(e, f) == k * Across(d, f)
    ensures Downward(e, f) == k * Downward(d, f)
  {
    match f
    case Front =>
    case Back =>
    case Up =>
    case Down =>
    case Right =>
    case Left =>
  }

  /** Two vectors on the same face with the same coordinates have the same lookup result. */
  lemma SameLookup(d: Vec3, e: Vec3, f: Face)
    requires SelectFace(d) == Some(f) && SelectFace(e) == Some(f)
    requires Depth(d, f) != 0.0 && Depth(e, f) != 0.0
    requires Coord(Across(e, f), Depth(e, f)) == Coord(Across(d, f), Depth(d, f))
    requires Coord(Downward(e, f), Depth(e, f)) == Coord(Downward(d, f), Depth(d, f))
    ensures SphereToCubeFace(e) == SphereToCubeFace(d)
  {
    LookupOf(d, f);
    LookupOf(e, f);
  }

  /** Scaling a vector keeps its coordinates on any face in front of it. */
  lemma CoordsScaled(d: Vec3, e: Vec3, f: Face, k: real)
    requires 0.0 < k && ScaledBy(d, e, k) && Depth(d, f) != 0.0
    ensures Depth(e, f) != 0.0
    ensures Coord(Across(e, f), Depth(e, f)) == Coord(Across(d, f), Depth(d, f))
    ensures Coord(Downward(e, f), Depth(e, f)) == Coord(Downward(d, f), Depth(d, f))
  {
    ComponentsScale(d, e, f, k);
    CoordScale(k, Across(d, f), Depth(d, f), Across(e, f), Depth(e, f));
    CoordScale(k, Downward(d, f), Depth(d, f), Downward(e, f), Depth(e, f));
  }

  lemma LookupScaled(d: Vec3, e: Vec3, k: real)
    requires 0.0 < k && ScaledBy(d, e, k)
    ensures SphereToCubeFace(e) == SphereToCubeFace(d)
  {
    SelectScaled(d, e, k);
    if SelectFace(d).Some? {
      var f := SelectFace(d).value;
      SelectedDepth(d);
      CoordsScaled(d, e, f, k);
      SameLookup(d, e, f);
    }
  }

  /**
    Face lookup depends only on the direction of the vector, not on its length: normalising
    the vector before the lookup does not change the face or the coordinates.
   */
  lemma ScaleInvariant(d: Vec3, k: real)
    requires 0.0 < k
    ensures SphereToCubeFace(Scale(k, d)) == SphereToCubeFace(d)
  {
    LookupScaled(d, Scale(k, d), k);
  }

  /** The vector of face i at (u, v) has depth 1 and numerators 2u - 1 and 2v - 1 on that face. */
  lemma CubeVectorComponents(i: nat, u: real, v: real)
    requires i < 6
    ensures Depth(CubeVector(i, u, v), FaceNames[i]) == 1.0
    ensures Across(CubeVector(i, u, v), FaceNames[i]) == u * 2.0 - 1.0
    ensures Downward(CubeVector(i, u, v), FaceNames[i]) == v * 2.0 - 1.0
  {
    assert FaceNames[i] == [Front, Right, Back, Left, Up, Down][i];
  }

  /**
    Face lookup inverts the face basis on face interiors: any positive multiple of the vector
    of face i at (u, v), u and v strictly inside (0, 1), is sent back to face i at (u, v).
   */
  lemma LookupInvertsBasis(i: nat, u: real, v: real, k: real)
    requires i < 6 && 0.0 < u < 1.0 && 0.0 < v < 1.0 && 0.0 < k
    ensures SphereToCubeFace(Scale(k, CubeVector(i, u, v))) == Some((FaceNames[i], u, v))
  {
    var d := CubeVector(i, u, v);
    ScaleInvariant(d, k);
    var f := FaceNames[i];
    assert f == [Front, Right, Back, Left, Up, Down][i];
    assert SelectFace(d) == Some(f);
    CubeVectorComponents(i, u, v);
    CoordOfMultiple(1.0, u * 2.0 - 1.0);
    CoordOfMultiple(1.0, v * 2.0 - 1.0);
  }

  /** A vector is determined by its depth and numerators on any one face. */
  lemma Determined(d: Vec3, e: Vec3, f: Face)
    requires Depth(d, f) == Depth(e, f) && Across(d, f) == Across(e, f) && Downward(d, f) == Downward(e, f)
    ensures d == e
  {
    match f
    case Front =>
    case Back =>
    case Up =>
    case Down =>
    case Right =>
    case Left =>
  }

  /** The face vector at (u, v) scaled by m has depth m and numerators m(2u - 1) and m(2v - 1). */
  lemma ScaledCubeVector(f: Face, u: real, v: real, m: real, un: real, vn: real)
    requires un == u * 2.0 - 1.0 && vn == v * 2.0 - 1.0
    ensures Depth(Scale(m, CubeVector(IndexOf(f), u, v)), f) == m
    ensures Across(Scale(m, CubeVector(IndexOf(f), u, v)), f) == m * un
    ensures Downward(Scale(m, CubeVector(IndexOf(f), u, v)), f) == m * vn
  {
    var c := CubeVector(IndexOf(f), u, v);
    var e := Scale(m, c);
    CubeVectorComponents(IndexOf(f), u, v);
    ComponentsScale(c, e, f, m);
    ScaledValue(Depth(e, f), m, Depth(c, f), 1.0);
    ScaledValue(Across(e, f), m, Across(c, f), un);
    ScaledValue(Downward(e, f), m, Downward(c, f), vn);
  }

  /** A multiple of a value is that multiple of anything equal to it. */
  lemma ScaledValue(p: real, m: real, q: real, x: real)
    requires p == m * q && q == x
    ensures p == m * x
  {
  }

  /** Scaling the face vector at the coordinates of (a, b) by m gives numerators a and b back. */
  lemma ScaledAtCoords(f: Face, a: real, b: real, m: real)
    requires m != 0.0
    ensures var e := Scale(m, CubeVector(IndexOf(f), Coord(a, m), Coord(b, m)));
      Depth(e, f) == m && Across(e, f) == a && Downward(e, f) == b
  {
    CoordInverse(a, m);
    CoordInverse(b, m);
    ScaledAt(f, Coord(a, m), Coord(b, m), m, Coord(a, m) * 2.0 - 1.0, Coord(b, m) * 2.0 - 1.0, a, b);
  }

  /** The face vector at (u, v) scaled by m has the numerators m(2u - 1) and m(2v - 1). */
  lemma ScaledAt(f: Face, u: real, v: real, m: real, un: real, vn: real, a: real, b: real)
    requires un == u * 2.0 - 1.0 && vn == v * 2.0 - 1.0
    requires m * un == a && m * vn == b
    ensures var e := Scale(m, CubeVector(IndexOf(f), u, v));
      Depth(e, f) == m && Across(e, f) == a && Downward(e, f) == b
  {
    ScaledCubeVector(f, u, v, m, un, vn);
  }

  /** A vector is its depth times the face vector at the coordinates of its numerators. */
  lemma Reconstruct(d: Vec3, f: Face)
    requires Depth(d, f) != 0.0
    ensures var m := Depth(d, f);
      d == Scale(m, CubeVector(IndexOf(f), Coord(Across(d, f), m), Coord(Downward(d, f), m)))
  {
    var m := Depth(d, f);
    ScaledAtCoords(f, Across(d, f), Downward(d, f), m);
    Determined(d, Scale(m, CubeVector(IndexOf(f), Coord(Across(d, f), m), Coord(Downward(d, f), m))), f);
  }

  /**
    The converse: whatever face and coordinates the lookup returns, the vector is the face
    basis vector at those coordinates scaled by its (positive) depth along that face.
   */
  lemma LookupIsScaledBasis(d: Vec3)
    requires d != Vec3(0.0, 0.0, 0.0)
    ensures var r := SphereToCubeFace(d);
      && r.Some?
      && 0.0 < Depth(d, r.value.0)
      && d == Scale(Depth(d, r.value.0), CubeVector(IndexOf(r.value.0), r.value.1, r.value.2))
  {
    Reconstruct(d, SelectFace(d).value);
  }
}
