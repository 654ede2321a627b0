# Map-tile image utilities

A model of the image core of a map-tile renderer (`utils/imgutils.go`). A
tile is a 256x256 RGBA raster. Its background is opaque white
(`WHITE`) or fully transparent (`TRANSP`); everything else is content drawn
by the map. The utilities:

- measure how much of a tile is one colour (`GetPixelPercent`);
- decide whether a tile is blank and may be deleted (`canDeleteImg`);
- erase the scan lines along an edge that hold no content (`CleanTileEdge`);
- find the covered part of a tile from a side or from a corner
  (`GetCoverageRectSide`, `GetCoverageRectCorner`);
- swap one colour for another (`ReplaceColor`);
- layer tiles onto fresh canvases with Porter-Duff "over"
  (`CombineImages`, `MergeNTiles`, `MergeTiles`, `GenerateOverviewTile`,
  `ImgOverRects`).

The modules follow these groups:

- `Pixels`: pixels, colours, rectangles, Go's `%` and the over operator.
- `Scan`: counting scans.
- `Transform`: `ReplaceColor`.
- `EdgeCleaner`: `CleanTileEdge`.
- `Coverage`: the side and corner scans.
- `Compositor`: `draw.Draw` and the canvas builders.
- `Merge`: `MergeTiles` and its ordering heuristic.

Tiles are `array2<Pixel>` indexed `[x, y]`. A scan method is proved against a
function that specifies it (`CountInRect`, `LineContent`/`CleanedAt`,
`FirstInkLine`, `CornerStops`, `DrawnAt`, `StackAt`, `OverviewAt`,
`MergedAt`). Lemmas then state what the source promises about that function.

Decoding a PNG becomes an `Option` argument (`None` is a tile that failed to
decode). Where the source returns an error other than an encode error, the
model returns `Result`; `CleanTileEdge`, `MergeNTiles` and
`GenerateOverviewTile` can fail only while encoding their output, which is
not modelled, so they return the canvas itself.

Three behaviours of the code that are easy to misread:

- **Side scan with no ink.** When `GetCoverageRectSide` finds no
  non-transparent pixel, the code leaves both scan variables at the range's
  last element. The rectangle is then `Rect(last, last, last, last)`, which
  is empty, and not the whole tile (`Coverage.SideOfEmptyTile`).
- **Overview tile that cannot be opened.** `GenerateOverviewTile` gives such
  a tile a *transparent* placeholder, although its log message says white.
  The quadrant stays transparent (`Compositor.Kept`).
- **Edge cleaning uses positions only.** The range `CleanTileEdge` picks
  only decides how many lines are scanned. `for *outer = range pxRng`
  assigns indices, not elements, so lines and positions always run upward
  from 0 (`EdgeCleaner.CleanTileEdge`).

## Model

| member | source | states |
|---|---|---|
| Pixels.GoRem | utils/imgutils.go:233 | Go's truncating `%`: the remainder lies strictly between -b and b and has the sign of the dividend, so `edge%2 == 1` is false for negative odd edges |
| Pixels.GoDivision | utils/imgutils.go:233 | with Go's truncating quotient, a == GoQuot(a, b) * b + GoRem(a, b), which together with the bound and sign fixes the remainder's value |
| Pixels.IsTransparent | utils/imgutils.go:211-214 | pixelIsTransparent: a pixel is transparent exactly when its alpha is 0, whatever its colour channels |
| Pixels.PixelAt | utils/imgutils.go:249 | `img.At(x, y)` on a decoded tile: the stored pixel inside the tile and TRANSP outside it, where the scans read at index 256, one past a 256-pixel tile |
| Pixels.Over | utils/imgutils.go:129 | draw.Over on one pixel: a source with alpha 0 keeps the destination, an opaque source replaces it, anything else is the blend of the two |
| Pixels.Rect | utils/imgutils.go:302 | `image.Rect` swaps coordinates so that min <= max and keeps the same corner coordinates |
| Scan.CountInRect | utils/imgutils.go:182-189 | the number of matching pixels in an X by Y rectangle is at most X*Y |
| Scan.CountInRectZero | utils/imgutils.go:198-208 | a count is zero exactly when no pixel of the rectangle matches, in both directions |
| Scan.CountInRectDisjoint | utils/imgutils.go:156-159 | two classes that share no pixel, such as exactly-white and exactly-transparent, together count exactly the pixels of their union |
| Scan.GetPixelPercent | utils/imgutils.go:178-191 | the fraction of pixels exactly equal to col: numerator = their count over the whole tile, denominator = width*height, numerator <= denominator |
| Scan.CanDeleteImg | utils/imgutils.go:193-209 | true exactly when the tile decoded and none of its pixels is content (neither WHITE nor transparent); false for a tile that failed to decode |
| Transform.ReplacedIdempotent | utils/imgutils.go:366-381 | replacing col by repl a second time changes nothing more |
| Transform.ReplaceColor | utils/imgutils.go:366-381 | a fresh buffer of the same size in which every pixel equal to col becomes repl and every other pixel is copied |
| Transform.CountInRectReplaced | utils/imgutils.go:161-164 | after replacing col by a different repl, no pixel equals col, and the pixels equal to repl are exactly the old col pixels plus the old repl pixels |
| EdgeCleaner.LineContentZero | utils/imgutils.go:247-253 | a line's content count is zero exactly when none of its scanned pixels is content |
| EdgeCleaner.CleanedLine | utils/imgutils.go:246-262 | inside the scanned square a pixel is kept when its line holds some content pixel and is TRANSP otherwise |
| EdgeCleaner.ContentKept | utils/imgutils.go:254-261 | a content pixel inside the scanned square survives cleaning unchanged |
| EdgeCleaner.NoContentCleared | utils/imgutils.go:256-257 | a tile without content pixels is cleaned to all-transparent |
| EdgeCleaner.CleanIdempotent | utils/imgutils.go:246-262 | cleaning an already cleaned tile along the same axis changes nothing |
| EdgeCleaner.CountLineContent | utils/imgutils.go:247-253 | the first inner loop counts exactly the content pixels of the line; the count is zero exactly when the line has none |
| EdgeCleaner.WriteLine | utils/imgutils.go:254-261 | the second inner loop writes the cleaned pixel at each scanned position of the line and leaves every other pixel of m unchanged |
| EdgeCleaner.CleanTileEdge | utils/imgutils.go:229-262 | a new buffer of the tile's size whose pixel (x, y) is the cleaned pixel for the line length chosen by the edge's parity; edges 0 and 1 clean columns, 2 and 3 rows |
| Coverage.FirstInkLine | utils/imgutils.go:288-300 | the index of the first scanned line with a non-transparent pixel: that line has ink and no earlier line has any; the range's length when no line has ink |
| Coverage.GetCoverageRectSide | utils/imgutils.go:271-305 | never an error; the rectangle runs from the first line with ink (inner coordinate = the range's first element) to the range's last element, and is the empty rectangle at the last element when no line has ink |
| Coverage.SideOfEmptyTile | utils/imgutils.go:288-302 | on an all-transparent tile no line has ink, so the side rectangle is the empty one at the range's last element |
| Coverage.SideOfInkOnFirstLine | utils/imgutils.go:288-302 | when the first scanned line has ink, the rectangle GetCoverageRectSide returns starts at the range's first element on both axes |
| Coverage.ProbeRow | utils/imgutils.go:323-331 | the backward x probe reports ink exactly when a pixel at an x index up to xIdx on row yIdx is not transparent |
| Coverage.ProbeColumn | utils/imgutils.go:336-343 | the backward y probe reports ink exactly when a pixel at a y index up to yIdx on column xIdx is not transparent |
| Coverage.GetCoverageRectCorner | utils/imgutils.go:308-359 | the loop stops at indices (xIdx, yIdx), each at most 256, such that the square below both is inkless; each probe that stopped before 256 met ink; the other probe kept going past the square; the two rectangles are built from those indices |
| Coverage.CornerStopsUnique | utils/imgutils.go:321-352 | the stopping indices are determined by the tile, so the corner rectangles are a function of the tile and the corner |
| Compositor.TransparentDrawsNothing | utils/imgutils.go:116-118 | drawing the transparent placeholder with "over" leaves every destination pixel as it was |
| Compositor.UniformPaintsRect | utils/imgutils.go:221 | a white uniform drawn into a rectangle that starts less than a billion pixels before the tile paints exactly the rectangle's part of the tile |
| Compositor.UniformOwnBoundsPaintsNothing | utils/imgutils.go:128-129 | the placeholder drawn with its own bounds as the rectangle writes no pixel of the tile, because its source points fall outside the uniform |
| Compositor.DrawOver | utils/imgutils.go:129 | draw.Draw with Over: inside r, where the source's bounds hold the point (point - r.Min), the source pixel there is laid over the old one; every other pixel is unchanged |
| Compositor.CombineImages | utils/imgutils.go:20-50 | an error exactly when a tile failed to load; otherwise a fresh 256x256 canvas that is img2 over img1 over opaque white |
| Compositor.Loaded | utils/imgutils.go:115-120 | the image MergeNTiles draws for a path: the decoded tile, or the transparent uniform when loading failed |
| Compositor.StackSkipsMissing | utils/imgutils.go:114-121 | a tile that fails to load contributes nothing: the merge equals the merge of only the tiles that loaded, in order |
| Compositor.MergeNTiles | utils/imgutils.go:112-131 | a fresh 256x256 canvas whose every pixel is the tiles layered in order over transparency, a failed tile standing in as transparent |
| Compositor.QuadrantDrawn | utils/imgutils.go:87-98 | drawing quadrant k's kept image onto a transparent pixel of that quadrant gives the overview pixel; pixels outside the quadrant are unchanged |
| Compositor.Kept | utils/imgutils.go:72-81 | the image GenerateOverviewTile keeps for a path: the transparent uniform when opening failed, nil when decoding failed, the tile otherwise |
| Compositor.KeepImages | utils/imgutils.go:69-82 | the image kept per path: the transparent uniform when opening failed, nil when decoding failed, the tile otherwise |
| Compositor.OverviewCorners | utils/imgutils.go:87-98 | the top-left pixel of each quadrant is the top-left pixel of that quadrant's tile laid over transparency |
| Compositor.GenerateOverviewTile | utils/imgutils.go:68-98 | a fresh 512x512 canvas whose pixel in each quadrant is the quadrant tile's pixel at the offset within the quadrant, or transparent where that tile is missing, failed or too small |
| Compositor.ImgOverRects | utils/imgutils.go:216-227 | a fresh 256x256 canvas: img laid over opaque white where some rectangle paints white (the rectangle itself, clipped to the white uniform's bounds) and over transparency elsewhere |
| Merge.Greater | utils/imgutils.go:167 | `a > b` between two float64 quotients, false when either is NaN |
| Merge.WithinQuarter | utils/imgutils.go:161 | `math.Abs(a - b) < 0.25` between two float64 quotients, false when either is NaN |
| Merge.FirstUnderneath | utils/imgutils.go:167 | img1 goes underneath when it has the larger white fraction or the larger transparent fraction |
| Merge.SameTotal | utils/imgutils.go:161-167 | for tiles of equal size the float tests are integer tests on the counts: 4*abs(c1-c2) < n and c1 > c2 |
| Merge.WithinQuarterSymmetric | utils/imgutils.go:161 | whether white is replaced does not depend on the argument order |
| Merge.WhiteAndTransparentFractions | utils/imgutils.go:156-159 | a tile's white and transparent fractions sum to the fraction of pixels that are either, hence to at most 1 |
| Merge.MergedOutsideBoth | utils/imgutils.go:152-154 | where neither tile reaches, the merged canvas stays transparent |
| Merge.LessWhiteOnTop | utils/imgutils.go:166-169 | when img1 has more white, an opaque non-white pixel of img2 is what the merge shows |
| Merge.MergeSwap | utils/imgutils.go:167-173 | swapping the tiles gives the same picture whenever the heuristic puts the same tile underneath both times |
| Merge.Prepare | utils/imgutils.go:161-164 | the tile itself, or a fresh copy with white made transparent when the white fractions are within 0.25 |
| Merge.DrawPair | utils/imgutils.go:167-173 | the two draw.Draw calls: every canvas pixel is the top tile laid over the underneath tile laid over the old pixel |
| Merge.LayeredIsMerged | utils/imgutils.go:167-173 | two prepared tiles drawn in the order the heuristic picks give exactly MergedAt |
| Merge.MergeTiles | utils/imgutils.go:136-176 | an error exactly when a tile failed to decode; otherwise a fresh 256x256 canvas equal to MergedAt: fractions taken before replacement, white replaced in both tiles or neither, img1 underneath exactly when it has more white or more transparency |

## Left out

- PNG decoding and encoding, `os.Open`, `os.Create`, `os.Remove`, `os.MkdirAll`, `DecodePNGFromPath` and `EncodePNGToPath` are file I/O. A decoded tile is an argument; the result canvas is the return value; encoding errors are not modelled.
- Logging through zerolog is not modelled.
- The nearest-neighbour resize from 512x512 to 256x256 in `GenerateOverviewTile` lies in an external library. `Compositor.GenerateOverviewTile` returns the 512x512 canvas before the resize.
- The arithmetic of Porter-Duff "over" for partially transparent pixels is a parameter (`Blend`). Only alpha 0 (keep the destination) and alpha 255 (take the source) are fixed.
- `Merge.WithinQuarter`, `Merge.Greater`: float64 quotients are compared exactly as rationals (a zero denominator stands for NaN). Float rounding is not modelled; it could only matter for quotients within one ulp of each other or of 0.25.
- Go compares colours with interface equality (`pxCol == col`). This is true only when the dynamic colour types match, for example NRGBA against NRGBA. The model compares pixel values, as if every decoded tile were non-premultiplied RGBA. The premultiplied `RGBA` canvas the source draws into is modelled with the same pixel type. Reads outside the tile (`Pixels.PixelAt`) are taken as TRANSP, the zero colour of NRGBA and RGBA buffers; a paletted or grey tile would read `Palette[0]` or opaque black there instead.
- Every tile's bounds are assumed to start at (0, 0), as a decoded PNG's do.
- `IntRange` is not part of this model. The ascending and descending scan ranges are parameters. `Coverage.GetCoverageRectCorner` needs at least 257 elements in each, because it reads index 256.
- `EdgeCleaner.CleanTileEdge`: a tile that fails to decode makes the source dereference a nil image. The model takes a decoded tile.
- `Compositor.MergeNTiles`, `Compositor.CombineImages`, `Merge.MergeTiles`: a tile is never the destination canvas; every canvas is freshly allocated.
