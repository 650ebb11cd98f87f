/**
  Zoom levels of the tile service. A zoom level fixes how many 512-pixel tiles make up the
  panorama horizontally and vertically. Two lookups exist in the code base: a dictionary that
  knows zoom 0 to 4 and raises KeyError for anything else, and an if/elif chain that sends
  every unknown zoom to the largest grid.
 */
module Zoom {
  import opened Wrappers

  /** Edge length of one tile, in pixels. */
  const TileSize: nat := 512

  function Pow2(n: nat): (p: nat)
    ensures 1 <= p
  {
    if n == 0 then 1 else 2 * Pow2(n - 1)
  }

  /**
    The zoom_config dictionary of the advanced and simple downloaders, which holds the same
    grid sizes as ZOOM_LEVELS in the configuration: (tiles_x, tiles_y) for zoom 0 to 4, and a
    KeyError (None) for every other zoom. Each level doubles the width of the grid; the
    height doubles from level 2 on, so the panorama is 2:1 from zoom 1.
   */
  function ZoomTable(zoom: int): (t: Option<(nat, nat)>)
    ensures t.Some? <==> 0 <= zoom <= 4
    ensures t.Some? ==> t.value.0 == Pow2(zoom) && t.value.1 == (if zoom == 0 then 1 else Pow2(zoom - 1))
  {
    if zoom == 0 then Some((1, 1))
    else if zoom == 1 then Some((2, 1))
    else if zoom == 2 then Some((4, 2))
    else if zoom == 3 then Some((8, 4))
    else if zoom == 4 then Some((16, 8))
    else None
  }

  /**
    The if/elif chain of the Selenium-based downloader: zoom 0 to 3 get their own grid, the
    final else (written for zoom 4) catches every other integer, negatives included.
   */
  function ZoomChain(zoom: int): (nat, nat) {
    if zoom == 0 then (1, 1)
    else if zoom == 1 then (2, 1)
    else if zoom == 2 then (4, 2)
    else if zoom == 3 then (8, 4)
    else (16, 8)
  }

  /**
    The chain agrees with the table wherever the table has an entry, and it never fails: every
    zoom outside 0..3, negative or above 4, gets the grid of zoom 4.
   */
  lemma ZoomChainAgrees(zoom: int)
    ensures 0 <= zoom <= 4 ==> ZoomTable(zoom) == Some(ZoomChain(zoom))
    ensures !(0 <= zoom <= 3) ==> ZoomChain(zoom) == (16, 8)
    ensures ZoomTable(if 0 <= zoom <= 3 then zoom else 4) == Some(ZoomChain(zoom))
  {
  }
}
