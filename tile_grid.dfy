/**
  Tile-grid assembly, shared by the three downloaders. The panorama of a zoom level is a grid
  of tilesX by tilesY tiles of 512 by 512 pixels. The downloaders visit the grid row by row,
  ask the tile service for each tile and paste either the tile or a uniformly coloured
  placeholder into the block at (x * 512, y * 512) of a black canvas. The downloaders differ
  only in the placeholder colours and in what they do with the counters, so this module is
  parameterised by the colours.

  The HTTP request, the status check and the decoding of the body are abstracted into one
  outcome per tile, supplied by the caller as a function of the tile coordinates.
 */
module TileGrid {
  import opened Image
  import opened Zoom

  /** What fetching and decoding one tile gives. */
  datatype TileOutcome =
    | Fetched(pixel: (nat, nat) -> RGB)  // status 200 and a decodable 512 x 512 body; pixel(row, column)
    | BadStatus                          // any status other than 200
    | Raised                             // the request or the decoding raised an exception

  /** The colours pasted in place of a tile that could not be used. */
  datatype Placeholders = Placeholders(badStatus: RGB, raised: RGB)

  /** Pixel (row, col) of the block pasted for a tile with the given outcome. */
  function BlockPixel(outcome: TileOutcome, colours: Placeholders, row: nat, col: nat): RGB {
    match outcome
    case Fetched(pixel) => pixel(row, col)
    case BadStatus => colours.badStatus
    case Raised => colours.raised
  }

  /** Whether the block pasted for this outcome is a placeholder. */
  predicate IsPlaceholder(outcome: TileOutcome) {
    !outcome.Fetched?
  }

  /** Pixel (r, c) of the finished canvas: pixel (r mod 512, c mod 512) of the block of tile (c / 512, r / 512). */
  function Assembled(fetch: (nat, nat) -> TileOutcome, colours: Placeholders, r: nat, c: nat): RGB {
    BlockPixel(fetch(c / TileSize, r / TileSize), colours, r % TileSize, c % TileSize)
  }

  /** The tile coordinates (x, y) of one grid row, left to right. */
  function Row(y: nat, count: nat): seq<(nat, nat)> {
    if count == 0 then [] else Row(y, count - 1) + [(count - 1, y)]
  }

  /** The tile coordinates of the first `rows` rows, in the order the nested loops request them. */
  function RowMajor(tilesX: nat, rows: nat): seq<(nat, nat)> {
    if rows == 0 then [] else RowMajor(tilesX, rows - 1) + Row(rows - 1, tilesX)
  }

  lemma {:induction false} RowAt(y: nat, count: nat)
    ensures |Row(y, count)| == count
    ensures forall x :: 0 <= x < count ==> Row(y, count)[x] == (x, y)
  {
    if count > 0 {
      RowAt(y, count - 1);
    }
  }

  /** There are tilesX * tilesY requests, and the tiles have distinct coordinates (RowMajorAt). */
  lemma {:induction false} RowMajorLength(tilesX: nat, tilesY: nat)
    ensures |RowMajor(tilesX, tilesY)| == tilesY * tilesX
  {
    if tilesY > 0 {
      RowMajorLength(tilesX, tilesY - 1);
      RowAt(tilesY - 1, tilesX);
      MulStep(tilesY - 1, tilesX);
      assert |RowMajor(tilesX, tilesY)| == |RowMajor(tilesX, tilesY - 1)| + tilesX;
    }
  }

  /**
    Every tile of the grid is requested exactly once, in row-major order: the request at
    position y * tilesX + x is tile (x, y).
   */
  lemma {:induction false} RowMajorAt(tilesX: nat, tilesY: nat, x: nat, y: nat)
    requires x < tilesX && y < tilesY
    ensures y * tilesX + x < |RowMajor(tilesX, tilesY)|
    ensures RowMajor(tilesX, tilesY)[y * tilesX + x] == (x, y)
  {
    RowMajorLength(tilesX, tilesY - 1);
    RowAt(tilesY - 1, tilesX);
    var prefix := RowMajor(tilesX, tilesY - 1);
    var k := y * tilesX + x;
    if y < tilesY - 1 {
      RowMajorAt(tilesX, tilesY - 1, x, y);
      assert k < |prefix|;
    } else {
      assert k == |prefix| + x;
    }
  }

  lemma MulStep(a: nat, n: nat)
    ensures (a + 1) * n == a * n + n
  {
  }

  lemma MulMono(a: nat, b: nat, n: nat)
    requires a <= b
    ensures a * n <= b * n
  {
  }

  /** How many of the given tiles got a placeholder. */
  function Failures(fetch: (nat, nat) -> TileOutcome, tiles: seq<(nat, nat)>): (n: nat)
    ensures n <= |tiles|
  {
    if tiles == [] then 0
    else
      var last := tiles[|tiles| - 1];
      Failures(fetch, tiles[..|tiles| - 1]) + (if IsPlaceholder(fetch(last.0, last.1)) then 1 else 0)
  }

  /** Requesting one more tile adds one to the failures exactly when that tile got a placeholder. */
  lemma FailuresSnoc(fetch: (nat, nat) -> TileOutcome, tiles: seq<(nat, nat)>, t: (nat, nat))
    ensures Failures(fetch, tiles + [t]) == Failures(fetch, tiles) + (if IsPlaceholder(fetch(t.0, t.1)) then 1 else 0)
  {
    assert (tiles + [t])[..|tiles|] == tiles;
  }

  /**
    The failure count is zero exactly when every tile was fetched, and equals the number of
    tiles exactly when every tile got a placeholder.
   */
  lemma {:induction false} FailuresExtremes(fetch: (nat, nat) -> TileOutcome, tiles: seq<(nat, nat)>)
    ensures Failures(fetch, tiles) == 0 <==> forall k :: 0 <= k < |tiles| ==> !IsPlaceholder(fetch(tiles[k].0, tiles[k].1))
    ensures Failures(fetch, tiles) == |tiles| <==> forall k :: 0 <= k < |tiles| ==> IsPlaceholder(fetch(tiles[k].0, tiles[k].1))
  {
    if tiles != [] {
      var init := tiles[..|tiles| - 1];
      FailuresExtremes(fetch, init);
      assert forall k :: 0 <= k < |init| ==> init[k] == tiles[k];
    }
  }

  /** A row index lies in block y exactly when dividing it by the tile size gives y. */
  lemma InBlock(r: nat, y: nat)
    ensures (y * TileSize <= r < y * TileSize + TileSize) <==> r / TileSize == y
    ensures r / TileSize == y ==> r % TileSize == r - y * TileSize
  {
  }

  ghost predicate Done(r: nat, c: nat, y: nat, x: nat) {
    r / TileSize < y || (r / TileSize == y && c / TileSize < x)
  }

  /** The canvas after the tiles before (x, y) in row-major order have been pasted. */
  ghost predicate Progress(canvas: array2<RGB>, fetch: (nat, nat) -> TileOutcome, colours: Placeholders, y: nat, x: nat)
    reads canvas
  {
    forall r, c :: 0 <= r < canvas.Length0 && 0 <= c < canvas.Length1 ==>
      canvas[r, c] == if Done(r, c, y, x) then Assembled(fetch, colours, r, c) else Black
  }

  /** One iteration of the inner loop: paste the block of tile (x, y). */
  method PasteBlock(canvas: array2<RGB>, fetch: (nat, nat) -> TileOutcome, colours: Placeholders,
                    tilesX: nat, tilesY: nat, x: nat, y: nat)
    returns (outcome: TileOutcome)
    requires canvas.Length0 == tilesY * TileSize && canvas.Length1 == tilesX * TileSize
    requires x < tilesX && y < tilesY
    requires Progress(canvas, fetch, colours, y, x)
    modifies canvas
    ensures outcome == fetch(x, y)
    ensures Progress(canvas, fetch, colours, y, x + 1)
  {
    outcome := fetch(x, y);
    MulStep(y, TileSize);
    MulMono(y + 1, tilesY, TileSize);
    MulStep(x, TileSize);
    MulMono(x + 1, tilesX, TileSize);
    Paste(canvas, y * TileSize, x * TileSize, TileSize, TileSize, (i: nat, j: nat) => BlockPixel(outcome, colours, i, j));
    forall r, c | 0 <= r < canvas.Length0 && 0 <= c < canvas.Length1
      ensures canvas[r, c] == if Done(r, c, y, x + 1) then Assembled(fetch, colours, r, c) else Black
    {
      InBlock(r, y);
      InBlock(c, x);
    }
  }

  lemma NextRow(canvas: array2<RGB>, fetch: (nat, nat) -> TileOutcome, colours: Placeholders, y: nat, tilesX: nat)
    requires canvas.Length1 == tilesX * TileSize
    requires Progress(canvas, fetch, colours, y, tilesX)
    ensures Progress(canvas, fetch, colours, y + 1, 0)
  {
    forall r, c | 0 <= r < canvas.Length0 && 0 <= c < canvas.Length1
      ensures canvas[r, c] == if Done(r, c, y + 1, 0) then Assembled(fetch, colours, r, c) else Black
    {
      assert c / TileSize < tilesX;
    }
  }

  /**
    The nested loops of the downloaders: a black canvas of tilesX * 512 by tilesY * 512, one
    block pasted per tile in row-major order, `downloaded` counting the tiles processed and
    `failed` the placeholders pasted. `requested` lists the tiles in the order they were asked for.
   */
  method AssembleTiles(tilesX: nat, tilesY: nat, fetch: (nat, nat) -> TileOutcome, colours: Placeholders)
    returns (canvas: array2<RGB>, requested: seq<(nat, nat)>, downloaded: nat, failed: nat)
    ensures fresh(canvas)
    ensures canvas.Length0 == tilesY * TileSize && canvas.Length1 == tilesX * TileSize
    ensures forall r, c :: 0 <= r < canvas.Length0 && 0 <= c < canvas.Length1 ==>
      canvas[r, c] == Assembled(fetch, colours, r, c)
    ensures requested == RowMajor(tilesX, tilesY)
    ensures downloaded == |requested|
    ensures failed == Failures(fetch, requested)
  {
    canvas := NewImage(tilesY * TileSize, tilesX * TileSize, Black);
    requested, downloaded, failed := [], 0, 0;
    var y := 0;
    while y < tilesY
      invariant 0 <= y <= tilesY
      invariant requested == RowMajor(tilesX, y)
      invariant downloaded == |requested| && failed == Failures(fetch, requested)
      invariant Progress(canvas, fetch, colours, y, 0)
    {
      requested, failed := AssembleRow(canvas, fetch, colours, tilesX, tilesY, y, requested, failed);
      downloaded := downloaded + tilesX;
      y := y + 1;
    }
    Finished(canvas, fetch, colours, tilesY);
  }

  /** The inner loop: the tiles of row y from left to right. */
  method AssembleRow(canvas: array2<RGB>, fetch: (nat, nat) -> TileOutcome, colours: Placeholders,
                     tilesX: nat, tilesY: nat, y: nat, before: seq<(nat, nat)>, failedBefore: nat)
    returns (requested: seq<(nat, nat)>, failed: nat)
    requires canvas.Length0 == tilesY * TileSize && canvas.Length1 == tilesX * TileSize
    requires y < tilesY
    requires failedBefore == Failures(fetch, before)
    requires Progress(canvas, fetch, colours, y, 0)
    modifies canvas
    ensures requested == before + Row(y, tilesX)
    ensures |requested| == |before| + tilesX
    ensures failed == Failures(fetch, requested)
    ensures Progress(canvas, fetch, colours, y + 1, 0)
  {
    requested, failed := before, failedBefore;
    var x := 0;
    while x < tilesX
      invariant 0 <= x <= tilesX
      invariant requested == before + Row(y, x)
      invariant failed == Failures(fetch, requested)
      invariant Progress(canvas, fetch, colours, y, x)
    {
      var outcome := PasteBlock(canvas, fetch, colours, tilesX, tilesY, x, y);
      if IsPlaceholder(outcome) {
        failed := failed + 1;
      }
      FailuresSnoc(fetch, requested, (x, y));
      SnocRow(before, y, x);
      requested := requested + [(x, y)];
      x := x + 1;
    }
    RowAt(y, tilesX);
    NextRow(canvas, fetch, colours, y, tilesX);
  }

  lemma SnocRow(prefix: seq<(nat, nat)>, y: nat, x: nat)
    ensures prefix + Row(y, x) + [(x, y)] == prefix + Row(y, x + 1)
  {
    assert Row(y, x + 1) == Row(y, x) + [(x, y)];
  }

  lemma Finished(canvas: array2<RGB>, fetch: (nat, nat) -> TileOutcome, colours: Placeholders, tilesY: nat)
    requires canvas.Length0 == tilesY * TileSize
    requires Progress(canvas, fetch, colours, tilesY, 0)
    ensures forall r, c :: 0 <= r < canvas.Length0 && 0 <= c < canvas.Length1 ==>
      canvas[r, c] == Assembled(fetch, colours, r, c)
  {
    forall r, c | 0 <= r < canvas.Length0 && 0 <= c < canvas.Length1
      ensures canvas[r, c] == Assembled(fetch, colours, r, c)
    {
      assert Done(r, c, tilesY, 0);
    }
  }

  /**
    What the finished canvas holds, block by block: the block at (x * 512, y * 512) is tile
    (x, y) when it was fetched and its placeholder colour otherwise.
   */
  lemma AssembledBlock(fetch: (nat, nat) -> TileOutcome, colours: Placeholders, x: nat, y: nat, i: nat, j: nat)
    requires i < TileSize && j < TileSize
    ensures Assembled(fetch, colours, y * TileSize + i, x * TileSize + j) ==
      match fetch(x, y)
      case Fetched(pixel) => pixel(i, j)
      case BadStatus => colours.badStatus
      case Raised => colours.raised
  {
    InBlock(y * TileSize + i, y);
    InBlock(x * TileSize + j, x);
  }

  /** The processed-tile counter ends at tilesX * tilesY, and the failures never exceed it. */
  lemma CountersAtEnd(fetch: (nat, nat) -> TileOutcome, tilesX: nat, tilesY: nat)
    ensures Failures(fetch, RowMajor(tilesX, tilesY)) <= |RowMajor(tilesX, tilesY)| == tilesY * tilesX
  {
    RowMajorLength(tilesX, tilesY);
  }

  /**
    A tile service that fails every request: every tile is counted as failed, so the failure
    count equals the number of tiles.
   */
  lemma AllFailed(fetch: (nat, nat) -> TileOutcome, tilesX: nat, tilesY: nat)
    requires forall x, y :: !fetch(x, y).Fetched?
    ensures Failures(fetch, RowMajor(tilesX, tilesY)) == tilesY * tilesX
  {
    RowMajorLength(tilesX, tilesY);
    FailuresExtremes(fetch, RowMajor(tilesX, tilesY));
  }
}
