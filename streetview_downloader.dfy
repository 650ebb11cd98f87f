/**
  The Selenium-based downloader: its own four URL patterns, which accept ids of any length,
  the pattern loop over the page source, and a download thread whose zoom chain never fails and
  whose placeholders are black and mid-grey. Only the regular-expression loop of the browser
  extraction is modelled; the page source is its input.
 */
module StreetviewDownloader {
  import opened Wrappers
  import opened Text
  import opened Image
  import opened Zoom
  import opened TileGrid
  import opened PanoPatterns

  /** (0, 0, 0) for a status other than 200, (128, 128, 128) when the request or decoding raised. */
  const TilePlaceholders: Placeholders := Placeholders(Black, MidGray)

  /** The URL patterns, in the order they are tried; `+` accepts one or more id characters. */
  const UrlPatterns4: seq<Pattern> := [
    Prefixed("!1s", 1, false),
    Prefixed("photosphereId=", 1, false),
    Prefixed("panoid=", 1, false),
    Prefixed("pano=", 1, false)
  ]

  /** The patterns searched in the page source, each closed by a double quote. */
  const PagePatterns4: seq<Pattern> := [
    Prefixed("\"pano\":\"", 1, true),
    Prefixed("\"panoid\":\"", 1, true),
    Prefixed("pano:\"", 1, true),
    Prefixed("\"panoId\":\"", 1, true)
  ]

  /** The patterns of this file capture ids of any non-zero length. */
  lemma PatternsCaptureOne()
    ensures AllAtLeast(UrlPatterns4, 1) && AllAtLeast(PagePatterns4, 1)
  {
    assert forall i :: 0 <= i < |UrlPatterns4| ==> UrlPatterns4[i].Prefixed? && UrlPatterns4[i].minLen == 1;
    assert forall i :: 0 <= i < |PagePatterns4| ==> PagePatterns4[i].Prefixed? && PagePatterns4[i].minLen == 1;
  }

  /**
    extract_panoid_from_url: the first of the four patterns with a match gives the id, which is
    never empty; None when none matches.
   */
  method ExtractPanoidFromUrl(url: string) returns (r: Option<string>)
    ensures r == FirstSearch(url, UrlPatterns4)
    ensures r.None? <==> forall i :: 0 <= i < |UrlPatterns4| ==> Search(url, UrlPatterns4[i]).None?
    ensures r.Some? ==> IsId(r.value, 1)
  {
    r := SearchEach(url, UrlPatterns4);
    FirstSearchSpec(url, UrlPatterns4);
    PatternsCaptureOne();
    FirstSearchFindsId(url, UrlPatterns4, 1);
  }

  /**
    The loop over the page source in extract_panoid_with_selenium: findall with each pattern in
    turn, and the first element of the first non-empty result, after which the loop breaks.
    That element is the leftmost match, so the result is the search of the pattern list.
   */
  method PageSourcePanoid(page: string) returns (panoid: Option<string>)
    ensures panoid == FirstSearch(page, PagePatterns4)
    ensures panoid.Some? ==> IsId(panoid.value, 1)
  {
    panoid := None;
    var i := 0;
    while i < |PagePatterns4|
      invariant 0 <= i <= |PagePatterns4|
      invariant panoid.None?
      invariant FirstSearch(page, PagePatterns4) == FirstSearch(page, PagePatterns4[i..])
    {
      var matches := FindAll(page, PagePatterns4[i]);
      FindAllStartsWithSearch(page, PagePatterns4[i]);
      if |matches| > 0 {
        panoid := Some(matches[0]);
        break;
      }
      assert PagePatterns4[i..][1..] == PagePatterns4[i + 1..];
      i := i + 1;
    }
    PatternsCaptureOne();
    FirstSearchFindsId(page, PagePatterns4, 1);
  }

  /** The final status after a download of a width x height panorama. */
  function SuccessMessage(width: nat, height: nat): string {
    "Download completato! Immagine " + NatToString(width) + "x" + NatToString(height)
  }

  class Downloader {
    /** self.current_image: the last panorama downloaded, None before the first one. */
    var currentImage: Option<array2<RGB>>
    /** The text of status_var. */
    var status: string

    constructor ()
      ensures currentImage.None?
    {
      currentImage := None;
      status := "";
    }

    /**
      download_thread for a non-empty id: the zoom chain picks the grid (every zoom outside
      0..3 gets the largest one), the grid is assembled, becomes the current image and the
      status reports its size. `downloaded` is the tile counter at the end of the loops.
     */
    method DownloadImage(zoom: int, fetch: (nat, nat) -> TileOutcome) returns (downloaded: nat)
      modifies this
      ensures var tilesX, tilesY := ZoomChain(zoom).0, ZoomChain(zoom).1;
        && currentImage.Some? && fresh(currentImage.value)
        && currentImage.value.Length0 == tilesY * TileSize && currentImage.value.Length1 == tilesX * TileSize
        && (forall r, c :: 0 <= r < currentImage.value.Length0 && 0 <= c < currentImage.value.Length1 ==>
              currentImage.value[r, c] == Assembled(fetch, TilePlaceholders, r, c))
        && downloaded == tilesX * tilesY
        && status == SuccessMessage(tilesX * TileSize, tilesY * TileSize)
    {
      var grid := ZoomChain(zoom);
      var canvas, requested, failed;
      canvas, requested, downloaded, failed := AssembleTiles(grid.0, grid.1, fetch, TilePlaceholders);
      RowMajorLength(grid.0, grid.1);
      currentImage := Some(canvas);
      status := SuccessMessage(grid.0 * TileSize, grid.1 * TileSize);
    }
  }
}
