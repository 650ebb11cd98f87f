/**
  The simple downloader: extraction with the eight common patterns, the length guard in front
  of the existence probe, and the download thread, which counts the placeholder tiles and
  reports them in its final status message. The window is a class with the two pieces of state
  the thread leaves behind: the current image and the status line.
 */
module SimpleDownloader {
  import opened Wrappers
  import opened Text
  import opened Image
  import opened Zoom
  import opened TileGrid
  import opened PanoPatterns
  import StreetviewUtils

  /** (64, 64, 64) for a status other than 200, (128, 0, 0) when the request or decoding raised. */
  const TilePlaceholders: Placeholders := Placeholders(DarkGray, ErrorRed)

  const SuccessPrefix := "Download completato! Immagine "
  const FailureSuffix := " tiles non disponibili)"

  /** The status after a finished download of a width x height panorama with `failed` placeholders. */
  function SuccessMessage(width: nat, height: nat, failed: nat): (msg: string)
    ensures |msg| > |SuccessPrefix| && msg[..|SuccessPrefix|] == SuccessPrefix
  {
    var base := SuccessPrefix + NatToString(width) + "×" + NatToString(height);
    if failed > 0 then base + " (" + NatToString(failed) + FailureSuffix else base
  }

  /** The message mentions the placeholders exactly when there are some, and tells the count:
      two different counts give two different messages. */
  lemma SuccessMessageTellsFailures(width: nat, height: nat, f: nat, g: nat)
    requires SuccessMessage(width, height, f) == SuccessMessage(width, height, g)
    ensures f == g
  {
    var base := SuccessPrefix + NatToString(width) + "×" + NatToString(height);
    var m := SuccessMessage(width, height, f);
    if f > 0 && g > 0 {
      var tail := |FailureSuffix|;
      var mid := |base| + 2;
      assert m == base + " (" + NatToString(f) + FailureSuffix;
      assert m == base + " (" + NatToString(g) + FailureSuffix;
      assert |NatToString(f)| == |m| - mid - tail == |NatToString(g)|;
      assert NatToString(f) == m[mid..|m| - tail];
      assert NatToString(g) == m[mid..|m| - tail];
      NatToStringInjective(f, g);
    }
  }

  /** The message mentions the failures exactly when at least one tile failed. */
  lemma SuccessMessageShape(width: nat, height: nat, failed: nat)
    ensures var base := SuccessPrefix + NatToString(width) + "×" + NatToString(height);
      && (failed == 0 <==> SuccessMessage(width, height, failed) == base)
      && (failed > 0 ==> SuccessMessage(width, height, failed) == base + " (" + NatToString(failed) + FailureSuffix)
  {
    var base := SuccessPrefix + NatToString(width) + "×" + NatToString(height);
    if failed > 0 {
      assert |SuccessMessage(width, height, failed)| > |base|;
    }
  }

  /** The status after the handler caught the KeyError of an unknown zoom: str() of the key. */
  function ErrorMessage(zoom: int): string {
    "Errore nel download: " + IntToString(zoom)
  }

  /** What the validation leaves in the status line. */
  datatype ValidationStep =
    | EmptyId      // an error dialog; the status line is not touched
    | TooShort     // "PanoID troppo corto - non valido", no request
    | Probed       // the HEAD request is sent and its reply sets the status line

  /** The guard of validate_panoid: the request is made only for ids of 20 characters or more. */
  function ValidationFor(panoid: string): (step: ValidationStep)
    ensures step == Probed <==> 20 <= |panoid|
    ensures step == EmptyId <==> panoid == []
  {
    if panoid == [] then EmptyId
    else if |panoid| < 20 then TooShort
    else Probed
  }

  const TooShortMessage := "PanoID troppo corto - non valido"

  class Downloader {
    /** self.current_image: the last panorama downloaded, None before the first one. */
    var currentImage: Option<array2<RGB>>
    /** The text of status_var. */
    var status: string

    constructor ()
      ensures currentImage.None?
    {
      currentImage := None;
      status := "";
    }

    /** extract_panoid_from_url: the return-on-first-match loop over the eight patterns. */
    method ExtractPanoidFromUrl(url: string) returns (r: Option<string>)
      ensures r == FirstSearch(url, UrlPatterns)
      ensures r == StreetviewUtils.ExtractFromUrl(url)
      ensures r.Some? ==> IsId(r.value, 20)
    {
      r := SearchEach(url, UrlPatterns);
      CbpNeverDecidesSearch(url);
      PatternsCaptureTwenty();
      FirstSearchFindsId(url, UrlPatterns, 20);
    }

    /**
      validate_panoid with the reply the HEAD request would get: an empty id changes nothing,
      a short one sets the "too short" status without using the reply, a long one sets the
      status from the reply.
     */
    method ValidatePanoid(panoid: string, reply: StreetviewUtils.ProbeReply, reason: string)
      modifies this
      ensures currentImage == old(currentImage)
      ensures ValidationFor(panoid) == EmptyId ==> status == old(status)
      ensures ValidationFor(panoid) == TooShort ==> status == TooShortMessage
      ensures ValidationFor(panoid) == Probed && reply == StreetviewUtils.Status(200) ==> status == "PanoID valido: " + panoid
      ensures ValidationFor(panoid) == Probed && reply.Status? && reply.code != 200 ==>
        status == "PanoID non valido (status: " + IntToString(reply.code) + ")"
      ensures ValidationFor(panoid) == Probed && reply.Raised? ==> status == "Errore nella validazione: " + reason
    {
      match ValidationFor(panoid)
      case EmptyId =>
      case TooShort =>
        status := TooShortMessage;
      case Probed =>
        match reply
        case Status(code) =>
          if code == 200 {
            status := "PanoID valido: " + panoid;
          } else {
            status := "PanoID non valido (status: " + IntToString(code) + ")";
          }
        case Raised =>
          status := "Errore nella validazione: " + reason;
    }

    /**
      download_thread for a non-empty id (an empty one stops with a dialog before the thread).
      An unknown zoom raises KeyError at the zoom_config lookup: the handler sets the error
      status and no image is stored. Otherwise the panorama is the assembled grid, becomes the
      current image, and the status reports its size and the placeholder count.
     */
    method DownloadImage(zoom: int, fetch: (nat, nat) -> TileOutcome) returns (failed: nat, downloaded: nat)
      modifies this
      ensures ZoomTable(zoom).None? ==>
        currentImage == old(currentImage) && status == ErrorMessage(zoom) && failed == 0 && downloaded == 0
      ensures ZoomTable(zoom).Some? ==>
        var (tilesX, tilesY) := ZoomTable(zoom).value;
        && currentImage.Some? && fresh(currentImage.value)
        && currentImage.value.Length0 == tilesY * TileSize && currentImage.value.Length1 == tilesX * TileSize
        && (forall r, c :: 0 <= r < currentImage.value.Length0 && 0 <= c < currentImage.value.Length1 ==>
              currentImage.value[r, c] == Assembled(fetch, TilePlaceholders, r, c))
        && downloaded == tilesX * tilesY
        && failed == Failures(fetch, RowMajor(tilesX, tilesY))
        && failed <= downloaded
        && status == SuccessMessage(tilesX * TileSize, tilesY * TileSize, failed)
    {
      var grid := ZoomTable(zoom);
      if grid.None? {
        status := ErrorMessage(zoom);
        return 0, 0;
      }
      var tilesX, tilesY := grid.value.0, grid.value.1;
      var canvas, requested;
      canvas, requested, downloaded, failed := AssembleTiles(tilesX, tilesY, fetch, TilePlaceholders);
      RowMajorLength(tilesX, tilesY);
      currentImage := Some(canvas);
      status := SuccessMessage(tilesX * TileSize, tilesY * TileSize, failed);
    }
  }
}
