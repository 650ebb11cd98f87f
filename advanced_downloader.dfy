/**
  The core of the advanced downloader that is not shared verbatim with the other files: its
  tile download with dark-grey and dark-red placeholders and a None result for an unknown zoom,
  the cube map conversion with its fallback to uniform grey faces, and its PanoID extraction and
  validation, which use the eight common patterns.
 */
module AdvancedDownloader {
  import opened Wrappers
  import opened Image
  import opened Zoom
  import opened TileGrid
  import opened PanoPatterns
  import opened CubeGeometry
  import opened CubeSampling
  import StreetviewUtils

  /** (64, 64, 64) for a status other than 200, (128, 0, 0) when the request or decoding raised. */
  const TilePlaceholders: Placeholders := Placeholders(DarkGray, ErrorRed)

  /**
    download_streetview_image: the zoom_config lookup raises KeyError for a zoom outside 0..4,
    which the outer handler turns into None; otherwise the assembled panorama of that zoom.
   */
  method DownloadStreetviewImage(zoom: int, fetch: (nat, nat) -> TileOutcome) returns (image: Option<array2<RGB>>)
    ensures image.Some? <==> 0 <= zoom <= 4
    ensures image.Some? ==> fresh(image.value)
    ensures image.Some? ==>
      && image.value.Length0 == ZoomTable(zoom).value.1 * TileSize
      && image.value.Length1 == ZoomTable(zoom).value.0 * TileSize
      && forall r, c :: 0 <= r < image.value.Length0 && 0 <= c < image.value.Length1 ==>
           image.value[r, c] == Assembled(fetch, TilePlaceholders, r, c)
  {
    var grid := ZoomTable(zoom);
    if grid.None? {
      return None;
    }
    var canvas, requested, downloaded, failed := AssembleTiles(grid.value.0, grid.value.1, fetch, TilePlaceholders);
    return Some(canvas);
  }

  /** A faceSize x faceSize image of one colour. */
  ghost predicate UniformFace(img: array2<RGB>, faceSize: nat, colour: RGB)
    reads img
  {
    img.Length0 == faceSize && img.Length1 == faceSize
    && forall r, c :: 0 <= r < faceSize && 0 <= c < faceSize ==> img[r, c] == colour
  }

  /** create_empty_cubemap: the six faces, each a new uniform (128, 128, 128) image. */
  method CreateEmptyCubemap(faceSize: nat) returns (faces: map<Face, array2<RGB>>)
    ensures faces.Keys == AllFaces
    ensures forall f :: f in faces ==> fresh(faces[f]) && UniformFace(faces[f], faceSize, MidGray)
    ensures forall f, g :: f in faces && g in faces && f != g ==> faces[f] != faces[g]
  {
    faces := map[];
    var i := 0;
    while i < 6
      invariant 0 <= i <= 6
      invariant faces.Keys == set j | 0 <= j < i :: FaceNames[j]
      invariant forall f :: f in faces ==> fresh(faces[f]) && UniformFace(faces[f], faceSize, MidGray)
      invariant forall f, g :: f in faces && g in faces && f != g ==> faces[f] != faces[g]
    {
      var face := NewImage(faceSize, faceSize, MidGray);
      faces := faces[FaceNames[i] := face];
      i := i + 1;
    }
    AllFacesListed();
  }

  /**
    Whether the conversion reaches its exception handler: the local numpy import fails, or the
    simple builder divides by a zero width or reads a row of an image without rows.
   */
  predicate ConversionFails(image: array2<RGB>, faceSize: nat, numpyImports: bool)
  {
    !numpyImports || (0 < faceSize && (image.Length0 == 0 || image.Length1 == 0))
  }

  /**
    equirect_to_cubemap. The name 'numpy' is never a global of the module, so a successful
    import always leads to equirect_to_cubemap_simple. Any exception gives the grey fallback of
    side face_size, or 512 when that is 0.
   */
  method EquirectToCubemap(image: array2<RGB>, faceSize: Option<nat>, numpyImports: bool, angles: Vec3 -> (real, real))
    returns (faces: map<Face, array2<RGB>>)
    ensures faces.Keys == AllFaces
    ensures forall f :: f in faces ==> fresh(faces[f])
    ensures forall f, g :: f in faces && g in faces && f != g ==> faces[f] != faces[g]
    ensures var size := FaceSizeFor(faceSize, image.Length0);
      ConversionFails(image, size, numpyImports) ==>
        forall f :: f in faces ==> UniformFace(faces[f], if size == 0 then 512 else size, MidGray)
    ensures var size := FaceSizeFor(faceSize, image.Length0);
      !ConversionFails(image, size, numpyImports) ==>
        forall f :: f in faces ==> FaceSampled(image, faces[f], IndexOf(f), size, angles)
  {
    var size := FaceSizeFor(faceSize, image.Length0);
    if ConversionFails(image, size, numpyImports) {
      faces := CreateEmptyCubemap(if size == 0 then 512 else size);
    } else {
      faces := BuildCubemap(image, size, angles);
    }
  }

  /** extract_panoid_from_url over the eight common patterns (a pure lookup here). */
  function ExtractPanoidFromUrl(url: string): (r: Option<string>)
    ensures r.None? <==> forall i :: 0 <= i < |UrlPatterns| ==> Search(url, UrlPatterns[i]).None?
    ensures r.Some? ==> IsId(r.value, 20)
  {
    FirstSearchSpec(url, UrlPatterns);
    PatternsCaptureTwenty();
    FirstSearchFindsId(url, UrlPatterns, 20);
    FirstSearch(url, UrlPatterns)
  }

  /** Without the cbp= pattern the result is still that of the extractor class. */
  lemma SameAsExtractor(url: string)
    ensures ExtractPanoidFromUrl(url) == StreetviewUtils.ExtractFromUrl(url)
  {
    CbpNeverDecidesSearch(url);
  }
}
