# StreetPano Downloader — a verified model of its core

StreetPano Downloader fetches Google Street View panoramas as grids of 512 x 512 tiles, stitches
them into one equirectangular image, optionally widens that image with wrapped borders for
Structure-from-Motion tools, converts between equirectangular panoramas and six-face cube maps,
extracts panorama ids (PanoIDs) from URLs and page sources with regular expressions, and
localizes its interface in Italian and English. Three downloader front ends (advanced, simple
and Selenium-based) share near-identical copies of this logic. They differ in:

- the placeholder colours of tiles that failed;
- the handling of an unknown zoom;
- the pattern lists and minimum id lengths.

This project models that core in Dafny. Each shared piece is modelled once. The copy in each
file is then a small refinement of it:

- `Zoom`: the zoom table (tiles_x, tiles_y) and the if/elif zoom chain.
- `TileGrid`: the row-major tile loop. It pastes into a canvas (`array2<RGB>`) and keeps the
  tile counters. Each tile fetch is an abstract outcome: fetched, bad status, or raised.
- `Overlap`: the overlap canvas expansion. It covers the integer geometry, the horizontal
  wrap strips, the equator bands and the corner blocks, all as in-place copies on arrays.
- `CubeGeometry`: the per-face cube basis and the dominant-axis face lookup, exact over `real`.
  The lookup is proved to invert the basis on face interiors.
- `CubeSampling`: the pixel builders in both directions.
- `PanoPatterns`: a scanner for the PanoID regular expressions. It models `re.search` (leftmost
  match), `re.findall` (non-overlapping matches) and the first-pattern-wins loops.
- `StreetviewUtils`, `AdvancedDownloader`, `SimpleDownloader`, `StreetviewDownloader`,
  `PanoramaConverter`: one module per source file, with that file's constants and
  differences. The two windows' state (current image and status line) is a class.
- `Localization`: the translation tables and the `Localization` class. The class holds the
  current language, the registered callbacks, and the record of callback calls and caught errors.
- `Image`, `Text`, `Wrappers`: the pixel type, Python's `int()` truncation and clamp, `str()`
  of integers, and `Option`.

Trigonometry is not modelled. The face builders take `angles`, which maps a cube vector to
(theta / 2pi, phi / pi). The panorama builder takes `direction`, the Cartesian direction of each
output pixel.

## Model

| member | source | states |
|---|---|---|
| Zoom.ZoomTable | advanced_downloader.py:1005-1013 | the zoom_config lookup succeeds exactly for zoom 0..4, and any other zoom raises KeyError (None); tiles_x is 2^zoom, and tiles_y is 1 at zoom 0 and 2^(zoom-1) above it. The same dictionary is in simple_downloader.py:216-224, and the grids agree with ZOOM_LEVELS in config.py:97-103 |
| Zoom.ZoomChainAgrees | streetview_downloader.py:252-262 | the if/elif chain agrees with the table on 0..4; every zoom outside 0..3 (negatives, above 4) gets (16, 8), so the chain never fails |
| TileGrid.AssembleTiles | advanced_downloader.py:1015-1052 | the canvas is tiles_x*512 wide and tiles_y*512 high; every pixel is the pixel of its block's tile or that block's placeholder colour; tiles are requested in row-major order; the counter equals the number of requests, the failures equal the placeholder count. The Selenium-based downloader has the same loop (streetview_downloader.py:264-296) |
| TileGrid.AssembleRow | simple_downloader.py:236-262 | one pass of the inner loop: the row's tiles are appended left to right and the failure count follows them |
| TileGrid.PasteBlock | advanced_downloader.py:1026-1042 | one iteration pastes exactly the block of tile (x, y) and returns that tile's outcome |
| TileGrid.AssembledBlock | advanced_downloader.py:1030-1042 | pixel (i, j) of block (x, y) is the tile's pixel on status 200, the bad-status colour otherwise, and the raised colour on an exception |
| TileGrid.RowMajorAt | advanced_downloader.py:1024-1025 | request number y*tiles_x + x is tile (x, y): each tile is requested once, in row-major order |
| TileGrid.RowMajorLength | advanced_downloader.py:1020-1044 | there are tiles_y*tiles_x requests, so downloaded_tiles ends at total_tiles |
| TileGrid.RowAt | advanced_downloader.py:1025 | one grid row holds tiles (0, y) .. (tiles_x - 1, y) in order |
| TileGrid.InBlock | advanced_downloader.py:1033 | a row lies in block y exactly when dividing it by 512 gives y |
| TileGrid.Failures | simple_downloader.py:233-257 | the failure count never exceeds the number of tiles counted |
| TileGrid.FailuresSnoc | simple_downloader.py:246-259 | one more tile adds one failure exactly when that tile got a placeholder |
| TileGrid.FailuresExtremes | simple_downloader.py:246-257 | no failures exactly when every tile was fetched; all tiles failed exactly when none was |
| TileGrid.CountersAtEnd | simple_downloader.py:231-259 | at loop end, failed_tiles <= downloaded_tiles = tiles_x*tiles_y |
| TileGrid.AllFailed | simple_downloader.py:246-257 | a tile service that always fails leaves every tile counted as failed |
| AdvancedDownloader.DownloadStreetviewImage | advanced_downloader.py:1000-1067 | a panorama exactly for zoom 0..4, sized from the table and assembled with (64,64,64) and (128,0,0) placeholders; None otherwise |
| AdvancedDownloader.CreateEmptyCubemap | advanced_downloader.py:1285-1293 | exactly the six faces, six distinct new face_size squares of (128,128,128) |
| AdvancedDownloader.EquirectToCubemap | advanced_downloader.py:1177-1224 | face size defaults to height // 2; with numpy importable the simple builder's six sampled faces; when the import or the builder fails, six grey faces of side face_size, or 512 when that is 0; in both cases six distinct new arrays |
| AdvancedDownloader.ExtractPanoidFromUrl | advanced_downloader.py:425-431 | None exactly when none of the eight patterns matches; otherwise an id of at least 20 id characters |
| AdvancedDownloader.SameAsExtractor | advanced_downloader.py:35-44 | the eight-pattern result always equals PanoIDExtractor.extract_from_url |
| Overlap.ExpandedGeometry | advanced_downloader.py:1086-1097 | new width, new height and both offsets are the floors of w(1+p/100), h(1+p/200), w·p/200 and h·p/400 |
| Overlap.GeometryFits | advanced_downloader.py:1089-1097 | the base sits centred, the far margin equal to the near one or one wider; the canvas is wider exactly when w·p >= 100 and taller exactly when h·p >= 200; up to 200 percent every copied strip lies inside the base |
| Overlap.Margins | advanced_downloader.py:1089-1097 | along one axis the new size is the old one plus twice the margin, or one more; it grows exactly when the product reaches the divisor |
| Overlap.Geometry1024At30 | advanced_downloader.py:1089-1097 | a 1024 x 512 panorama at 30 percent gives a 1331 x 588 canvas with offsets (153, 38) |
| Overlap.CreateOverlapImage | advanced_downloader.py:1081-1109 | p <= 0 returns the base itself; when a band resize raises, the handler returns the base itself; otherwise a new canvas of the expanded geometry whose every pixel is the base, a strip, a band, a corner or black, as ExpandedPixel says |
| Overlap.BordersRaiseOnlyWithoutColumns | advanced_downloader.py:1130-1146 | the border fill can raise only for a panorama without columns |
| Overlap.ZeroWidthAt10Raises | advanced_downloader.py:1089-1109 | a 0 x 512 panorama at 10 percent gets bands of 12 and 13 rows, whose resize raises, so the base is returned |
| Overlap.FillOverlapBorders | advanced_downloader.py:1111-1149 | the strips and bands, then the corners, over what the canvas held |
| Overlap.StripsInOrder | advanced_downloader.py:1115-1146 | the left and right wrap strips and the top and bottom bands, each pasted only under its source condition |
| Overlap.PasteSides | advanced_downloader.py:1115-1128 | the left strip receives the right edge of each base row, the right strip the left edge; nothing else changes |
| Overlap.PasteBands | advanced_downloader.py:1130-1146 | the band above and the band below the base receive the stretched equator at the height of their margins; nothing else changes |
| Overlap.FillCornerOverlaps | advanced_downloader.py:1151-1175 | the four corner blocks when both offsets are positive, nothing otherwise |
| Overlap.CentreIsBase | advanced_downloader.py:1100 | the rectangle at the offsets equals the base pixel for pixel after all fills |
| Overlap.HorizontalWrap | advanced_downloader.py:1115-1128 | for every base row, the left border continues its right edge and the right border its left edge |
| Overlap.EquatorBands | advanced_downloader.py:1130-1146 | above and below the base, the base's columns hold the stretched equator band at the height of the margin |
| Overlap.Corners | advanced_downloader.py:1160-1175 | the top corners hold the base's top offset_y rows and the bottom corners its bottom rows, each with the columns of the opposite side: the top-left corner shows the base's top-right block |
| Overlap.UncoveredStaysBlack | advanced_downloader.py:1093 | corner-band cells no corner paste reaches keep the initial black |
| Image.NewImage | advanced_downloader.py:1093 | a new height x width image of one colour |
| Image.Paste | advanced_downloader.py:1137 | the rectangle at the position receives the source pixel for pixel; every other pixel is unchanged |
| Image.PasteCrop | advanced_downloader.py:1119-1120 | a crop of the base pasted at a position; every other pixel is unchanged |
| Image.Trunc | panorama_converter.py:107-108 | int() of a float truncates toward zero |
| Image.Clamp | panorama_converter.py:109 | max(lo, min(hi, v)) lies in [lo, hi] and leaves values inside it unchanged |
| CubeGeometry.CubeVector | panorama_converter.py:150-168 | the six face bases with u, v mapped to [-1, 1], (1, 0, 0) for an unknown index, on the surface of the cube for u, v in [0, 1]; cube_to_sphere_coords uses the same bases (the copy in advanced_downloader.py:1255-1273); cube_to_sphere uses the same bases and the same fallback (the copy in streetview_utils.py:134-150) |
| CubeGeometry.FaceCentre | panorama_converter.py:30-37 | at the face centre the basis vector is the axis face_vectors lists |
| CubeGeometry.OnFacePlane | panorama_converter.py:155-166 | every basis vector has component 1 along its face axis |
| CubeGeometry.DepthIsDot | panorama_converter.py:30-37 | each branch's divisor is the dot product with that face's axis |
| CubeGeometry.AllFacesListed | panorama_converter.py:29 | face_names lists the six faces |
| CubeGeometry.NamesDistinct | panorama_converter.py:29 | distinct faces have distinct dictionary keys |
| CubeGeometry.IndexOf | panorama_converter.py:94 | the enumerate index of a face in face_names |
| CubeGeometry.IndexOfName | panorama_converter.py:94 | IndexOf inverts the face_names lookup |
| CubeGeometry.SelectFace | panorama_converter.py:308-324 | x-dominance first, then y, then z; front/back exactly when x dominates, up/down exactly when y does and x does not; only the zero vector fails |
| CubeGeometry.SphereToCubeFace | panorama_converter.py:306-324 | every non-zero vector gets a face in front of it and u, v in [0, 1]; the zero vector fails |
| CubeGeometry.SelectedDepth | panorama_converter.py:310-324 | the chosen axis dominates all three components, so both numerators lie within its depth |
| CubeGeometry.LookupOf | panorama_converter.py:311-324 | the coordinates are (numerator / depth + 1) / 2 on the selected face |
| CubeGeometry.ScaleInvariant | panorama_converter.py:171-172 | normalising (any positive scaling) does not change the face or the coordinates |
| CubeGeometry.SelectScaleInvariant | panorama_converter.py:308-324 | face selection depends only on the direction |
| CubeGeometry.CubeVectorComponents | panorama_converter.py:150-166 | the basis vector of face i has depth 1 and numerators 2u - 1 and 2v - 1 on that face |
| CubeGeometry.LookupInvertsBasis | panorama_converter.py:148-172 | any positive multiple of the basis vector of face i at interior (u, v) is looked up as face i at (u, v) |
| CubeGeometry.LookupIsScaledBasis | panorama_converter.py:306-324 | conversely, every vector is the basis vector at its looked-up face and coordinates, scaled by its positive depth |
| CubeGeometry.Reconstruct | panorama_converter.py:312-324 | a vector is its depth times the basis vector at the coordinates of its numerators |
| CubeGeometry.CoordBound | panorama_converter.py:312 | a numerator within the depth gives a coordinate in [0, 1] |
| CubeSampling.PixelCentre | panorama_converter.py:100-101 | pixel centres lie strictly inside (0, 1) |
| CubeSampling.SampleColumn | panorama_converter.py:107 | the column lies in [0, width) for every angle |
| CubeSampling.SampleRow | panorama_converter.py:108-109 | the row lies in [0, height) for every angle, 0 for a negative one |
| CubeSampling.ColumnWithoutWrap | panorama_converter.py:107 | below half a turn the modulo never wraps: the column is a floor |
| CubeSampling.ColumnWrapsAtHalfTurn | panorama_converter.py:107 | at theta = pi the column wraps to 0 |
| CubeSampling.RowWithoutClamp | panorama_converter.py:108-109 | for phi in [0, pi) the clamp never acts |
| CubeSampling.RowAtPole | panorama_converter.py:108-109 | at phi = pi the row is clamped to the last one |
| CubeSampling.FaceIndex | panorama_converter.py:295-299 | the clamped face pixel index lies in [0, size) |
| CubeSampling.FaceIndexWithoutClamp | panorama_converter.py:295-299 | face coordinates in [0, 1] are never clamped: the index is a floor |
| CubeSampling.SourcePixel | panorama_converter.py:97-111 | the panorama pixel a face pixel copies is in bounds whatever the angles |
| CubeSampling.BuildFace | panorama_converter.py:95-112 | a new face_size square whose every pixel is the panorama pixel at its sampled column and row |
| CubeSampling.BuildCubemap | panorama_converter.py:89-116 | exactly the six faces, distinct new images, each sampled with its face index; equirect_to_cubemap_simple builds the same faces (the copy in advanced_downloader.py:1226-1251) |
| CubeSampling.CubeToEquirect | panorama_converter.py:268-304 | a new width x height image whose every pixel is the clamped pixel of the face its direction selects, black where that face is missing |
| CubeSampling.EquirectReadsFace | panorama_converter.py:288-302 | the two builders meet: a direction along the basis vector of face i at interior (u, v) reads that face at the indices of (u, v) |
| CubeSampling.PixelOfLookup | panorama_converter.py:288-302 | once a direction's face and coordinates are known, its pixel is that face's clamped pixel at them |
| CubeSampling.MissingFaceStaysBlack | panorama_converter.py:290-302 | a pixel whose face is not in the dictionary stays black |
| PanoramaConverter.EquirectangularToCubemap | panorama_converter.py:39-59 | face size defaults to height // 2; exactly the six faces, each a new sampled face of that size |
| PanoramaConverter.CubemapToEquirectangular | panorama_converter.py:180-196 | the output is output_size, (2048, 1024) by default, made by the simple builder of the branch without NumPy |
| PanoPatterns.RunLength | streetview_utils.py:217 | the captured run is all id characters and cannot be extended |
| PanoPatterns.PrefixedAt | streetview_utils.py:217-224 | a match starts at the prefix, captures after it, and ends after the quote when one is due |
| PanoPatterns.PrefixedGreedy | streetview_utils.py:217-224 | a match exists exactly when some capture length is accepted; the capture is the longest accepted, and the only one for the quoted patterns |
| PanoPatterns.PrefixedShape | streetview_utils.py:217-224 | a prefixed capture is a maximal run of at least the minimum length right after the prefix, followed by the quote when due |
| PanoPatterns.PrefixedPatternShape | streetview_utils.py:217-224 | the same facts read through the pattern datatype |
| PanoPatterns.CbpShape | streetview_utils.py:225 | a cbp= capture is a maximal run of at least 20 id characters |
| PanoPatterns.MatchAt | streetview_utils.py:217-225 | a match is anchored at its position and consumes at least one character |
| PanoPatterns.CaptureShape | streetview_utils.py:217-225 | a capture is an id of at least the minimum length, right after the prefix, not followed by an id character, followed by the quote when due |
| PanoPatterns.CbpContainsPanoid | streetview_utils.py:225 | a cbp= match contains a panoid= match with the same capture |
| PanoPatterns.SearchFrom | streetview_utils.py:231 | re.search: the leftmost match from a position, None when there is none |
| PanoPatterns.Search | streetview_utils.py:231 | Some exactly when the pattern matches somewhere; then at the leftmost position |
| PanoPatterns.FirstMatchIndex | streetview_utils.py:230-233 | the index of the first pattern that matches, every earlier one matching nowhere |
| PanoPatterns.FirstSearchSpec | streetview_utils.py:230-234 | the loop returns the first matching pattern's leftmost capture, None when none matches |
| PanoPatterns.FirstSearchFindsId | streetview_utils.py:230-234 | with minimum length n everywhere, a result is an id of at least n characters |
| PanoPatterns.FirstSearchSnoc | streetview_utils.py:230-234 | a pattern appended to the list matters only when no earlier one matches |
| PanoPatterns.FirstSearchFound | streetview_utils.py:230-234 | a result is the capture of the leftmost match of the first pattern that matches anywhere |
| PanoPatterns.FirstSearchShape | streetview_utils.py:216-234 | that match starts right after its pattern's prefix and its capture cannot be extended by an id character |
| PanoPatterns.MatchShape | streetview_utils.py:217-225 | the same facts for any match in hand |
| PanoPatterns.SearchEach | simple_downloader.py:135-139 | the return-on-first-match loop computes the first-pattern-wins search |
| PanoPatterns.FindAllStartsWithSearch | streetview_downloader.py:191-195 | findall is empty exactly when search fails; its first element is search's capture |
| PanoPatterns.FindAllShape | streetview_utils.py:239 | every findall element is an id of the pattern's minimum length |
| PanoPatterns.LongestIndex | streetview_utils.py:242 | max(key=len): no element is longer, every earlier one is strictly shorter |
| PanoPatterns.Longest | streetview_utils.py:242 | the longest match is one of the matches |
| PanoPatterns.FirstFindAllSpec | streetview_utils.py:238-243 | the first pattern with any findall match decides; its first longest match is returned |
| PanoPatterns.FirstFindAllSnoc | streetview_utils.py:238-243 | a pattern appended to the list matters only when no earlier one matches |
| PanoPatterns.FirstFindAllAgrees | streetview_utils.py:236-243 | the page-source loop finds something exactly when the URL loop does, with the same pattern |
| PanoPatterns.PatternsCaptureTwenty | streetview_utils.py:216-225 | every pattern of the nine (and of the eight) requires 20 id characters |
| PanoPatterns.PatternsAdvance | streetview_utils.py:216-225 | every pattern consumes input, so findall progresses |
| PanoPatterns.CbpImpliesEarlierMatch | streetview_utils.py:223-225 | wherever cbp= matches, the earlier panoid= pattern matches too |
| PanoPatterns.CbpNeverDecidesSearch | streetview_utils.py:216-234 | the nine-pattern search equals the eight-pattern search |
| PanoPatterns.CbpNeverDecidesFindAll | streetview_utils.py:236-243 | the nine-pattern findall loop equals the eight-pattern one |
| StreetviewUtils.ExtractFromUrl | streetview_utils.py:228-234 | None exactly when no pattern matches anywhere; otherwise an id of at least 20 id characters |
| StreetviewUtils.ExtractFromUrlShape | streetview_utils.py:216-234 | the id is the capture of the first pattern in list order that matches anywhere, at that pattern's leftmost match; it starts right after the prefix and ends where the id characters end |
| StreetviewUtils.ExtractFromPageSource | streetview_utils.py:236-243 | None exactly when extract_from_url gives None; otherwise an id of at least 20 characters |
| StreetviewUtils.ExtractFromPageSourceLongest | streetview_utils.py:236-243 | the result is the longest findall match of the first matching pattern, the earliest on a tie |
| StreetviewUtils.ValidatePanoid | streetview_utils.py:245-256 | an id shorter than 20 is invalid without a request; a valid id had a 200 reply; the advanced downloader's validate_panoid has the same guard and probe (the copy in advanced_downloader.py:988-998) |
| StreetviewUtils.ValidateDecidedByGuardThenProbe | streetview_utils.py:245-256 | the reply cannot matter for short ids; for the others the id is valid exactly when the reply is 200 |
| StreetviewUtils.MaxOf | streetview_utils.py:194 | max() is an element no smaller than any other |
| StreetviewUtils.EstimatedSizeIsGrid | streetview_utils.py:197-207 | the estimated size is 512 times the zoom grid, None above 4 |
| StreetviewUtils.GetPanoramaInfo | streetview_utils.py:182-209 | with zooms Z: max_resolution is max Z and the size its grid's pixels; both None when Z is empty |
| StreetviewUtils.CreateCubeMap | streetview_utils.py:89-127 | {} without NumPy; otherwise the six faces of side height // 2, each sampled |
| SimpleDownloader.SuccessMessage | simple_downloader.py:270-272 | the message starts with the success prefix |
| SimpleDownloader.SuccessMessageShape | simple_downloader.py:270-272 | the failed-tile count is mentioned exactly when it is positive |
| SimpleDownloader.SuccessMessageTellsFailures | simple_downloader.py:270-274 | different failure counts give different status messages |
| SimpleDownloader.ValidationFor | simple_downloader.py:171-178 | the request is made exactly for ids of 20 characters or more; an empty id stops first |
| SimpleDownloader.Downloader.constructor | simple_downloader.py:26 | there is no current image before the first download |
| SimpleDownloader.Downloader.ExtractPanoidFromUrl | simple_downloader.py:133-139 | the same result as extract_from_url, an id of at least 20 characters |
| SimpleDownloader.Downloader.ValidatePanoid | simple_downloader.py:169-195 | an empty id changes nothing, a short one sets "too short" without a request, a long one sets the status from the reply |
| SimpleDownloader.Downloader.DownloadImage | simple_downloader.py:208-280 | an unknown zoom sets the KeyError status and keeps the old image; otherwise the assembled panorama becomes current, failed_tiles counts placeholders, failed <= downloaded = tiles_x*tiles_y, and the status reports size and failures |
| StreetviewDownloader.PatternsCaptureOne | streetview_downloader.py:121-126 | the four URL patterns and the four page patterns accept any non-empty id |
| StreetviewDownloader.ExtractPanoidFromUrl | streetview_downloader.py:119-132 | the first of the four patterns that matches gives a non-empty id; None when none matches |
| StreetviewDownloader.PageSourcePanoid | streetview_downloader.py:183-199 | the first findall match of the first pattern with any match; None when none matches |
| StreetviewDownloader.Downloader.constructor | streetview_downloader.py:31-43 | there is no current image before the first download |
| StreetviewDownloader.Downloader.DownloadImage | streetview_downloader.py:245-306 | every zoom gives a panorama, sized from the chain and assembled with (0,0,0) and (128,128,128) placeholders; the counter ends at tiles_x*tiles_y |
| Text.NatToString | simple_downloader.py:270 | str() of a natural number is its decimal digits without leading zeros |
| Text.NatToStringRoundTrip | simple_downloader.py:272 | reading the digits back gives the number |
| Text.NatToStringInjective | simple_downloader.py:272 | distinct numbers print differently |
| Text.IntToString | simple_downloader.py:278 | str() of a negative key starts with a minus sign, and only then |
| Localization.LanguagesListed | localization.py:7-207 | the table has exactly the languages "it" and "en" |
| Localization.TranslateFallback | localization.py:237-247 | the current language's entry; failing that the English one; failing that the default, or the key |
| Localization.TranslateSource | localization.py:237-247 | the text is always an entry of some table, the default, or the key: t never raises |
| Localization.RaisingMembers | localization.py:219-223 | exactly the raising callbacks are reported |
| Localization.RaisingSnoc | localization.py:219-223 | a callback adds a report exactly when it raises |
| Localization.Localizer.constructor | localization.py:210-212 | the given code becomes current, unchecked, with no callbacks |
| Localization.Localizer.SetLanguage | localization.py:214-223 | an unknown code changes nothing and calls nothing; a known one becomes current, then every callback is called once in registration order and a raising one is reported without stopping the rest |
| Localization.Localizer.GetLanguage | localization.py:225-227 | the current language is the constructor's code or a known one |
| Localization.Localizer.GetAvailableLanguages | localization.py:229-231 | ["it", "en"], exactly the table's codes |
| Localization.Localizer.RegisterCallback | localization.py:233-235 | the callback is appended; nothing else changes |
| Localization.Localizer.T | localization.py:237-247 | the three fallback levels for the current language |

## Left out

- The Tk windows, dialogs, previews and log widget are not modelled. Neither are the progress bar and the intermediate "Download: k/n tiles" messages. The model keeps each window's current image and its final status line.
- Threads are not modelled. Each thread body is one method call.
- The network is not modelled: tile requests, HEAD probes, get_available_zoom_levels and Selenium. Each becomes an input: a tile outcome per coordinate, a probe reply, a list of zooms, or the page source. Tile URLs are not built.
- Tiles are assumed to be 512 x 512. A fetched tile of another size, or one that is not RGB, is not modelled.
- Trigonometry is not modelled: sqrt, atan2, acos, cos and sin. It becomes the `angles` and `direction` inputs. Vectorised NumPy paths, OpenCV and the 'quality' method are left out too. equirectangular_to_cubemap always uses the simple builder.
- LANCZOS resampling of the equator band is an input function (`stretched`).
- Overlap.CreateOverlapImage: the only exception of the handler that is modelled is PIL's refusal to resize the equator band to a size with no columns, unless the size is unchanged. Other failures of PIL, such as memory errors, are not modelled.
- Float products are modelled as exact rational floors. Python's float products can differ by one at an exact boundary.
- File I/O, batch processing and the batch URL list are not modelled.
- Overlap.CreateOverlapImage: requires a percentage of at most 50 (the range of the menu and of the docstring). Above 200 percent a crop would leave the base, and PIL would pad it.
- CubeSampling.BuildFace, CubeSampling.BuildCubemap and PanoramaConverter.EquirectangularToCubemap: a panorama with no rows or no columns is excluded while faces are non-empty. In the source that input raises ZeroDivisionError or IndexError.
- StreetviewUtils.CreateCubeMap: requires a non-empty width once height // 2 > 0. The source raises ZeroDivisionError there.
- CubeSampling.CubeToEquirect and PanoramaConverter.CubemapToEquirectangular: require every face to have at least one column and at least as many rows as columns, since the side is taken from the width. A face without columns, or one wider than tall, can make getpixel raise. They also require directions to be non-zero, which cos and sin always give.
- PanoramaConverter.CubemapToEquirectangular: models the `HAS_NUMPY = False` branch, `_cube_to_equirect_simple`. With NumPy installed the source takes `_cube_to_equirect_numpy`, which breaks ties between faces differently.
- AdvancedDownloader.EquirectToCubemap: an image without pixels is sent to the fallback. The model does not model other exceptions of the builder.
- The regular expressions accept ASCII digits only. Python's `\d` also matches other Unicode digits.
- The strip() of the entry fields is not modelled. The id and URL are inputs.
- SimpleDownloader.Downloader.DownloadImage and the Selenium-based downloader's DownloadImage return the tile counters, which are locals in the source. The error dialog and the zoom string-to-int parse are not modelled.
- StreetviewDownloader.Downloader.DownloadImage: the zoom is any integer. The int() of the menu text is not modelled.
- SimpleDownloader.ErrorMessage is str(KeyError(zoom)), which Python prints as the key.
- Localization.format and format_text need Python's str.format and are not modelled. The module-level helpers only forward to one global instance, so they are not modelled separately.
- Callbacks are identifiers with a raising flag. A callback that calls back into the localizer is not modelled.
- Localization.Localizer.GetLanguage states only which codes are possible.
- The `print` of caught errors is not modelled.
