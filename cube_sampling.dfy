/**
  The pixel builders between an equirectangular panorama and a cube map. Both directions walk
  the pixels of the image they create and copy one pixel of the other image into each: a face
  pixel reads the panorama at the column and row its viewing angles select, a panorama pixel
  reads the face and face coordinates that _sphere_to_cube_face selects for its direction.

  The trigonometry (normalising the cube vector, atan2, acos, cos and sin) is not modelled. A
  face builder receives `angles`, which maps the unnormalised cube vector of a face pixel to
  (theta / 2pi, phi / pi); the panorama builder receives `direction`, which gives the
  Cartesian direction of each output pixel.
 */
module CubeSampling {
  import opened Image
  import opened Wrappers
  import opened CubeGeometry

  /** (i + 0.5) / n: the normalised coordinate of the centre of pixel i out of n. */
  function PixelCentre(i: nat, n: nat): (c: real)
    requires 0 < n
    ensures i < n ==> 0.0 < c < 1.0
  {
    var c := (i as real + 0.5) / n as real;
    if i < n then RatioInUnit(i as real + 0.5, n as real); c else c
  }

  lemma RatioInUnit(a: real, n: real)
    requires 0.0 < a < n
    ensures 0.0 < a / n < 1.0
  {
    var q := a / n;
    assert q * n == a;
    if q >= 1.0 {
      MulNonPos(1.0 - q, n);
    }
    if q <= 0.0 {
      MulNonPos(q, n);
    }
  }

  lemma MulNonPos(q: real, n: real)
    requires q <= 0.0 < n
    ensures q * n <= 0.0
  {
  }

  /**
    int((theta / (2 pi) + 0.5) * width) % width for turn = theta / (2 pi): Python's modulo by a
    positive width, which Dafny's % agrees with, brings every turn into a valid column.
   */
  function SampleColumn(turn: real, width: nat): (x: nat)
    requires 0 < width
    ensures x < width
  {
    Trunc((turn + 0.5) * width as real) % width
  }

  /** max(0, min(height - 1, int(phi / pi * height))) for polar = phi / pi. */
  function SampleRow(polar: real, height: nat): (y: nat)
    requires 0 < height
    ensures y < height
    ensures polar < 0.0 ==> y == 0
  {
    Clamp(Trunc(polar * height as real), 0, height - 1)
  }

  /** max(0, min(size - 1, int(coord * (size - 1)))): the pixel of a face at a face coordinate. */
  function FaceIndex(coord: real, size: nat): (i: nat)
    requires 0 < size
    ensures i < size
  {
    Clamp(Trunc(coord * (size - 1) as real), 0, size - 1)
  }

  lemma MulBelow(a: real, n: real, an: real)
    requires 0.0 <= a < 1.0 && 0.0 < n && an == a * n
    ensures 0.0 <= an < n
  {
    assert n - an == (1.0 - a) * n;
  }

  lemma MulAtMost(a: real, n: real, an: real)
    requires 0.0 <= a <= 1.0 && 0.0 <= n && an == a * n
    ensures 0.0 <= an <= n
  {
    assert n - an == (1.0 - a) * n;
  }

  /**
    atan2 gives theta in [-pi, pi], so turn lies in [-1/2, 1/2]; below 1/2 the modulo never
    wraps and the column is the floor of (turn + 1/2) * width.
   */
  lemma ColumnWithoutWrap(turn: real, width: nat)
    requires 0 < width && -0.5 <= turn < 0.5
    ensures SampleColumn(turn, width) == ((turn + 0.5) * width as real).Floor
  {
    MulBelow(turn + 0.5, width as real, (turn + 0.5) * width as real);
  }

  /** At theta = pi the product reaches width, and the modulo wraps it to column 0. */
  lemma ColumnWrapsAtHalfTurn(width: nat)
    requires 0 < width
    ensures SampleColumn(0.5, width) == 0
  {
    assert (0.5 + 0.5) * width as real == width as real;
  }

  /**
    acos gives phi in [0, pi], so polar lies in [0, 1]; below 1 the clamp never acts and the
    row is the floor of polar * height, while polar = 1 is clamped onto the last row.
   */
  lemma RowWithoutClamp(polar: real, height: nat)
    requires 0 < height && 0.0 <= polar < 1.0
    ensures SampleRow(polar, height) == (polar * height as real).Floor
  {
    MulBelow(polar, height as real, polar * height as real);
  }

  lemma RowAtPole(height: nat)
    requires 0 < height
    ensures SampleRow(1.0, height) == height - 1
  {
  }

  /**
    Face coordinates from _sphere_to_cube_face lie in [0, 1], so the clamp of the panorama
    builder never acts on them: the index is the floor of coord * (size - 1).
   */
  lemma FaceIndexWithoutClamp(coord: real, size: nat)
    requires 0 < size && 0.0 <= coord <= 1.0
    ensures FaceIndex(coord, size) == (coord * (size - 1) as real).Floor
  {
    MulAtMost(coord, (size - 1) as real, coord * (size - 1) as real);
  }

  /**
    The panorama pixel (row, column) that face pixel (u, v) of face faceIndex copies, for a
    panorama of the given size; it lies inside the panorama whatever the angles are.
   */
  function SourcePixel(width: nat, height: nat, faceIndex: nat, faceSize: nat, u: nat, v: nat,
                       angles: Vec3 -> (real, real)): (p: (nat, nat))
    requires 0 < width && 0 < height && 0 < faceSize
    ensures p.0 < height && p.1 < width
  {
    var a := angles(CubeVector(faceIndex, PixelCentre(u, faceSize), PixelCentre(v, faceSize)));
    (SampleRow(a.1, height), SampleColumn(a.0, width))
  }

  /** face is faceSize x faceSize and each of its pixels is the panorama pixel SourcePixel selects. */
  ghost predicate FaceSampled(image: array2<RGB>, face: array2<RGB>, faceIndex: nat, faceSize: nat,
                              angles: Vec3 -> (real, real))
    reads image, face
  {
    && face.Length0 == faceSize && face.Length1 == faceSize
    && (0 < faceSize ==>
         && 0 < image.Length0 && 0 < image.Length1
         && forall v, u :: 0 <= v < faceSize && 0 <= u < faceSize ==>
              var p := SourcePixel(image.Length1, image.Length0, faceIndex, faceSize, u, v, angles);
              face[v, u] == image[p.0, p.1])
  }

  /**
    One face of _equirect_to_cube_simple, equirect_to_cubemap_simple and create_cube_map: a
    new black faceSize x faceSize image whose pixel (u, v) receives the panorama pixel at the
    sampled column and row. The sampling divides by the width and reads row 0 or later, so a
    panorama with no pixels fails as soon as there is a face pixel to fill.
   */
  method BuildFace(image: array2<RGB>, faceIndex: nat, faceSize: nat, angles: Vec3 -> (real, real))
    returns (face: array2<RGB>)
    requires faceSize == 0 || (0 < image.Length0 && 0 < image.Length1)
    ensures fresh(face)
    ensures FaceSampled(image, face, faceIndex, faceSize, angles)
  {
    face := new RGB[faceSize, faceSize]((_, _) => Black);
    var width, height := image.Length1, image.Length0;
    var v := 0;
    while v < faceSize
      invariant 0 <= v <= faceSize
      invariant forall r, c :: 0 <= r < v && 0 <= c < faceSize ==>
        var p := SourcePixel(width, height, faceIndex, faceSize, c, r, angles);
        face[r, c] == image[p.0, p.1]
    {
      var u := 0;
      while u < faceSize
        invariant 0 <= u <= faceSize
        invariant forall r, c :: 0 <= r < faceSize && 0 <= c < faceSize && (r < v || (r == v && c < u)) ==>
          var p := SourcePixel(width, height, faceIndex, faceSize, c, r, angles);
          face[r, c] == image[p.0, p.1]
      {
        var a := angles(CubeVector(faceIndex, PixelCentre(u, faceSize), PixelCentre(v, faceSize)));
        var x := SampleColumn(a.0, width);
        var y := SampleRow(a.1, height);
        face[v, u] := image[y, x];
        u := u + 1;
      }
      v := v + 1;
    }
  }

  /** The face size of the conversions: the argument, or height // 2 when it is None. */
  function FaceSizeFor(faceSize: Option<nat>, height: nat): nat {
    faceSize.GetOr(height / 2)
  }

  /**
    The six faces, in face_names order, of the simple equirectangular to cube map conversion:
    a new image per face, each sampled by BuildFace with its face index.
   */
  method BuildCubemap(image: array2<RGB>, faceSize: nat, angles: Vec3 -> (real, real))
    returns (faces: map<Face, array2<RGB>>)
    requires faceSize == 0 || (0 < image.Length0 && 0 < image.Length1)
    ensures faces.Keys == AllFaces
    ensures forall f :: f in faces ==> fresh(faces[f]) && FaceSampled(image, faces[f], IndexOf(f), faceSize, angles)
    ensures forall f, g :: f in faces && g in faces && f != g ==> faces[f] != faces[g]
  {
    faces := map[];
    var i := 0;
    while i < 6
      invariant 0 <= i <= 6
      invariant faces.Keys == set j | 0 <= j < i :: FaceNames[j]
      invariant forall f :: f in faces ==> fresh(faces[f]) && FaceSampled(image, faces[f], IndexOf(f), faceSize, angles)
      invariant forall f, g :: f in faces && g in faces && f != g ==> faces[f] != faces[g]
    {
      var face := BuildFace(image, i, faceSize, angles);
      IndexOfName(i);
      faces := faces[FaceNames[i] := face];
      i := i + 1;
    }
    AllFacesListed();
  }

  /**
    A map of faces that the panorama builder can read: the builder takes the size of a face
    from its width and clamps both indices below it, so every face needs at least one column
    and at least as many rows as columns.
   */
  ghost predicate ReadableFaces(faces: map<Face, array2<RGB>>)
  {
    forall f :: f in faces ==> 0 < faces[f].Length1 <= faces[f].Length0
  }

  /**
    The colour of the panorama pixel whose direction is d: the face _sphere_to_cube_face
    selects, read at the clamped indices of its face coordinates, or black when the map has no
    such face.
   */
  ghost function EquirectPixel(faces: map<Face, array2<RGB>>, d: Vec3): RGB
    requires ReadableFaces(faces) && d != Vec3(0.0, 0.0, 0.0)
    reads faces.Values
  {
    var r := SphereToCubeFace(d).value;
    if r.0 in faces then
      var img := faces[r.0];
      img[FaceIndex(r.2, img.Length1), FaceIndex(r.1, img.Length1)]
    else Black
  }

  /**
    _cube_to_equirect_simple: a new black width x height image; each pixel with a face in the
    map receives that face's pixel, the others stay black. The size of a face is read from its
    width. A direction from cos and sin is never the zero vector, which is the one input the
    face lookup rejects.
   */
  method CubeToEquirect(faces: map<Face, array2<RGB>>, width: nat, height: nat, direction: (nat, nat) -> Vec3)
    returns (result: array2<RGB>)
    requires ReadableFaces(faces)
    requires forall x, y :: direction(x, y) != Vec3(0.0, 0.0, 0.0)
    ensures fresh(result) && result.Length0 == height && result.Length1 == width
    ensures forall y, x :: 0 <= y < height && 0 <= x < width ==> result[y, x] == EquirectPixel(faces, direction(x, y))
  {
    result := new RGB[height, width]((_, _) => Black);
    var y := 0;
    while y < height
      invariant 0 <= y <= height
      invariant forall r, c :: 0 <= r < height && 0 <= c < width ==>
        result[r, c] == if r < y then EquirectPixel(faces, direction(c, r)) else Black
    {
      var x := 0;
      while x < width
        invariant 0 <= x <= width
        invariant forall r, c :: 0 <= r < height && 0 <= c < width ==>
          result[r, c] == if r < y || (r == y && c < x) then EquirectPixel(faces, direction(c, r)) else Black
      {
        var d := direction(x, y);
        var found := SphereToCubeFace(d);
        var face, faceU, faceV := found.value.0, found.value.1, found.value.2;
        if face in faces {
          var img := faces[face];
          var size := img.Length1;
          var pixelU := FaceIndex(faceU, size);
          var pixelV := FaceIndex(faceV, size);
          result[y, x] := img[pixelV, pixelU];
        }
        x := x + 1;
      }
      y := y + 1;
    }
  }

  /**
    The two builders meet on the cube: a panorama pixel whose direction is a positive multiple
    of the vector of face i at the interior point (u, v) copies the pixel of face i at the
    indices of (u, v); FaceIndexWithoutClamp gives those as the floors of u and v times (size - 1).
   */
  lemma EquirectReadsFace(faces: map<Face, array2<RGB>>, d: Vec3, i: nat, u: real, v: real, k: real)
    requires ReadableFaces(faces) && i < 6 && FaceNames[i] in faces
    requires 0.0 < u < 1.0 && 0.0 < v < 1.0 && 0.0 < k && d == Scale(k, CubeVector(i, u, v))
    ensures d != Vec3(0.0, 0.0, 0.0)
    ensures var img := faces[FaceNames[i]];
      EquirectPixel(faces, d) == img[FaceIndex(v, img.Length1), FaceIndex(u, img.Length1)]
  {
    assert SphereToCubeFace(d) == Some((FaceNames[i], u, v)) by {
      LookupInvertsBasis(i, u, v, k);
    }
    PixelOfLookup(faces, d, FaceNames[i], u, v);
  }

  /** A panorama pixel whose selected face is missing from the map stays black. */
  lemma MissingFaceStaysBlack(faces: map<Face, array2<RGB>>, d: Vec3)
    requires ReadableFaces(faces) && d != Vec3(0.0, 0.0, 0.0)
    requires SphereToCubeFace(d).value.0 !in faces
    ensures EquirectPixel(faces, d) == Black
  {
  }

  /** The panorama pixel once the lookup of its direction is known. */
  lemma PixelOfLookup(faces: map<Face, array2<RGB>>, d: Vec3, f: Face, u: real, v: real)
    requires ReadableFaces(faces) && f in faces && SphereToCubeFace(d) == Some((f, u, v))
    ensures d != Vec3(0.0, 0.0, 0.0)
    ensures EquirectPixel(faces, d) == faces[f][FaceIndex(v, faces[f].Length1), FaceIndex(u, faces[f].Length1)]
  {
  }
}
