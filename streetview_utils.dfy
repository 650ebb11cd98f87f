/**
  The utilities module: the PanoIDExtractor class (extraction from a URL and from a page's
  source, the length guard in front of the existence probe), the panorama information derived
  from the list of available zoom levels, and the cube map built from a panorama.
 */
module StreetviewUtils {
  import opened Wrappers
  import opened Image
  import opened Zoom
  import opened PanoPatterns
  import opened CubeGeometry
  import opened CubeSampling

  /** extract_from_url: group 1 of the first of the nine patterns that matches anywhere in url. */
  function ExtractFromUrl(url: string): (r: Option<string>)
    ensures r.None? <==> forall i :: 0 <= i < |ExtractorPatterns| ==> Search(url, ExtractorPatterns[i]).None?
    ensures r.Some? ==> IsId(r.value, 20)
  {
    FirstSearchSpec(url, ExtractorPatterns);
    PatternsCaptureTwenty();
    FirstSearchFindsId(url, ExtractorPatterns, 20);
    FirstSearch(url, ExtractorPatterns)
  }

  /**
    Pattern priority for the nine patterns: the id is the capture of pattern FirstMatchIndex,
    the first in list order that matches (no earlier one matches anywhere), at its leftmost
    match; it directly follows the pattern's prefix and cannot be extended by another id
    character.
   */
  lemma ExtractFromUrlShape(url: string)
    requires ExtractFromUrl(url).Some?
    ensures FirstMatchIndex(url, ExtractorPatterns) < |ExtractorPatterns|
    ensures ExtractFromUrl(url) == Some(Capture(url, FirstMatch(url, ExtractorPatterns)))
    ensures EndsRun(url, FirstMatch(url, ExtractorPatterns))
    ensures ExtractorPatterns[FirstMatchIndex(url, ExtractorPatterns)].Prefixed? ==>
      FirstMatch(url, ExtractorPatterns).start ==
        FirstMatch(url, ExtractorPatterns).pos + |ExtractorPatterns[FirstMatchIndex(url, ExtractorPatterns)].prefix|
  {
    FirstSearchFound(url, ExtractorPatterns);
    FirstSearchShape(url, ExtractorPatterns);
  }

  /**
    extract_from_page_source: the first pattern with any findall match decides, and the longest
    of its matches is returned, the earliest of them on a tie.
   */
  function ExtractFromPageSource(page: string): (r: Option<string>)
    ensures r.None? <==> ExtractFromUrl(page).None?
    ensures r.Some? ==> IsId(r.value, 20)
  {
    PatternsAdvance();
    FirstFindAllAgrees(page, ExtractorPatterns);
    FirstFindAllSpec(page, ExtractorPatterns);
    var i := FirstMatchIndex(page, ExtractorPatterns);
    if i < |ExtractorPatterns| then
      FindAllShape(page, 0, ExtractorPatterns[i]);
      FirstFindAll(page, ExtractorPatterns)
    else FirstFindAll(page, ExtractorPatterns)
  }

  /** The page-source result is the first longest findall match of the first matching pattern. */
  lemma ExtractFromPageSourceLongest(page: string)
    requires ExtractFromPageSource(page).Some?
    ensures PatternsAdvanceAll()
    ensures var i := FirstMatchIndex(page, ExtractorPatterns);
      && i < |ExtractorPatterns|
      && var ids := FindAll(page, ExtractorPatterns[i]);
      && |ids| > 0
      && var k := LongestIndex(ids);
      && ExtractFromPageSource(page) == Some(ids[k])
      && (forall j :: 0 <= j < |ids| ==> |ids[j]| <= |ids[k]|)
      && (forall j :: 0 <= j < k ==> |ids[j]| < |ids[k]|)
  {
    PatternsAdvance();
    FirstFindAllSpec(page, ExtractorPatterns);
  }

  predicate PatternsAdvanceAll() {
    forall i :: 0 <= i < |ExtractorPatterns| ==> Advances(ExtractorPatterns[i])
  }

  /** What the HEAD request of a validation gives. */
  datatype ProbeReply =
    | Status(code: int)
    | Raised

  /**
    validate_panoid: an empty id or one shorter than 20 characters is rejected before any
    request; otherwise the id is valid exactly when the probe answers 200. The request is made
    only for the longer ids, so the reply of a probe that is never sent cannot matter.
   */
  function ValidatePanoid(panoid: string, probe: ProbeReply): (valid: bool)
    ensures |panoid| < 20 ==> !valid
    ensures valid ==> probe == Status(200)
  {
    if |panoid| == 0 || |panoid| < 20 then false
    else match probe
      case Status(code) => code == 200
      case Raised => false
  }

  /** The guard decides alone for short ids and the probe decides alone for the others. */
  lemma ValidateDecidedByGuardThenProbe(panoid: string, a: ProbeReply, b: ProbeReply)
    ensures |panoid| < 20 ==> ValidatePanoid(panoid, a) == ValidatePanoid(panoid, b)
    ensures |panoid| >= 20 ==> (ValidatePanoid(panoid, a) <==> a == Status(200))
  {
  }

  /** The dictionary get_panorama_info returns. */
  datatype PanoramaInfo = PanoramaInfo(
    panoid: string,
    availableZooms: seq<int>,
    maxResolution: Option<int>,
    estimatedSize: Option<(nat, nat)>)

  /** Python's max over a non-empty list. */
  function MaxOf(zs: seq<int>): (m: int)
    requires |zs| > 0
    ensures m in zs
    ensures forall i :: 0 <= i < |zs| ==> zs[i] <= m
  {
    if |zs| == 1 then zs[0]
    else
      var rest := MaxOf(zs[1..]);
      assert forall i :: 1 <= i < |zs| ==> zs[i] == zs[1..][i - 1];
      if zs[0] >= rest then zs[0] else rest
  }

  /** The if/elif chain of estimated sizes, (width, height) in pixels. */
  function EstimatedSize(maxZoom: int): Option<(nat, nat)> {
    if maxZoom == 0 then Some((512, 512))
    else if maxZoom == 1 then Some((1024, 512))
    else if maxZoom == 2 then Some((2048, 1024))
    else if maxZoom == 3 then Some((4096, 2048))
    else if maxZoom == 4 then Some((8192, 4096))
    else None
  }

  /** The estimated size is the size of the tile grid of that zoom level. */
  lemma EstimatedSizeIsGrid(maxZoom: int)
    ensures EstimatedSize(maxZoom) ==
      match ZoomTable(maxZoom)
      case Some(t) => Some((TileSize * t.0, TileSize * t.1))
      case None => None
  {
  }

  /**
    get_panorama_info for the given list of available zooms: no maximum and no size when the
    list is empty; otherwise the largest zoom and the size of its tile grid.
   */
  function GetPanoramaInfo(panoid: string, zooms: seq<int>): (info: PanoramaInfo)
    ensures info.panoid == panoid && info.availableZooms == zooms
    ensures zooms == [] <==> info.maxResolution.None?
    ensures zooms == [] ==> info.estimatedSize.None?
    ensures zooms != [] ==> info.maxResolution.value in zooms
    ensures zooms != [] ==> forall i :: 0 <= i < |zooms| ==> zooms[i] <= info.maxResolution.value
    ensures zooms != [] ==> info.estimatedSize.Some? == (0 <= info.maxResolution.value <= 4)
    ensures zooms != [] && info.estimatedSize.Some? ==>
      info.estimatedSize.value == (TileSize * ZoomTable(info.maxResolution.value).value.0,
                                   TileSize * ZoomTable(info.maxResolution.value).value.1)
  {
    if zooms == [] then PanoramaInfo(panoid, zooms, None, None)
    else
      var m := MaxOf(zooms);
      EstimatedSizeIsGrid(m);
      PanoramaInfo(panoid, zooms, Some(m), EstimatedSize(m))
  }

  /**
    create_cube_map: no faces without NumPy; otherwise six faces of side height // 2 sampled from
    the panorama. The source divides by the width, so a panorama without columns is only
    accepted while the faces are empty.
   */
  method CreateCubeMap(image: array2<RGB>, hasNumpy: bool, angles: Vec3 -> (real, real))
    returns (faces: map<Face, array2<RGB>>)
    requires image.Length0 / 2 == 0 || 0 < image.Length1
    ensures !hasNumpy ==> faces == map[]
    ensures hasNumpy ==> faces.Keys == AllFaces
    ensures hasNumpy ==> forall f :: f in faces ==>
      fresh(faces[f]) && FaceSampled(image, faces[f], IndexOf(f), image.Length0 / 2, angles)
  {
    if !hasNumpy {
      return map[];
    }
    faces := BuildCubemap(image, image.Length0 / 2, angles);
  }
}
