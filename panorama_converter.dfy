/**
  The two conversions of the panorama converter, on the pixel-by-pixel path: an
  equirectangular panorama to the six faces of a cube map, and a cube map back to a panorama.
 */
module PanoramaConverter {
  import opened Wrappers
  import opened Image
  import opened CubeGeometry
  import opened CubeSampling

  /**
    equirectangular_to_cubemap through _equirect_to_cube_simple: exactly the six faces of
    face_names, each a new square image of the face size whose pixels are sampled from the
    panorama. A panorama without pixels makes the source raise as soon as a face pixel exists.
   */
  method EquirectangularToCubemap(image: array2<RGB>, faceSize: Option<nat>, angles: Vec3 -> (real, real))
    returns (faces: map<Face, array2<RGB>>)
    requires FaceSizeFor(faceSize, image.Length0) == 0 || (0 < image.Length0 && 0 < image.Length1)
    ensures faces.Keys == AllFaces
    ensures forall f :: f in faces ==>
      fresh(faces[f]) && FaceSampled(image, faces[f], IndexOf(f), FaceSizeFor(faceSize, image.Length0), angles)
  {
    faces := BuildCubemap(image, FaceSizeFor(faceSize, image.Length0), angles);
  }

  /** The output size of cubemap_to_equirectangular: the argument, or (2048, 1024). */
  function OutputSize(outputSize: Option<(nat, nat)>): (nat, nat) {
    outputSize.GetOr((2048, 1024))
  }

  /**
    cubemap_to_equirectangular without NumPy, through _cube_to_equirect_simple: a new width x height panorama
    whose every pixel is the face pixel the direction of that pixel selects, black where the
    map lacks that face.
   */
  method CubemapToEquirectangular(faces: map<Face, array2<RGB>>, outputSize: Option<(nat, nat)>,
                                  direction: (nat, nat) -> Vec3)
    returns (result: array2<RGB>)
    requires ReadableFaces(faces)
    requires forall x, y :: direction(x, y) != Vec3(0.0, 0.0, 0.0)
    ensures fresh(result)
    ensures (result.Length1, result.Length0) == OutputSize(outputSize)
    ensures forall y, x :: 0 <= y < result.Length0 && 0 <= x < result.Length1 ==>
      result[y, x] == EquirectPixel(faces, direction(x, y))
  {
    var size := OutputSize(outputSize);
    result := CubeToEquirect(faces, size.0, size.1, direction);
  }
}
