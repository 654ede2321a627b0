/** GetCoverageRectSide and GetCoverageRectCorner: boundary scans that look
    for the first non-transparent pixel from a side or from a corner. */
module Coverage {
  import opened Pixels

  /* ---------------- scanning inward from a side ---------------- */

  /** The range GetCoverageRectSide scans for an edge: odd edges use the
      descending range, the others the ascending one. */
  function SideRange(edge: int, ascending: seq<int>, descending: seq<int>): seq<int>
  {
    if GoRem(edge, 2) == 1 then descending else ascending
  }

  /** Whether pixel (LineX, LineY) of outer coordinate o and inner coordinate i is not transparent. */
  predicate InkOnLine(img: array2<Pixel>, byRow: bool, o: int, i: int)
    reads img
  {
    !IsTransparent(PixelAt(img, LineX(byRow, o, i), LineY(byRow, o, i)))
  }

  /** Whether the line with outer coordinate o holds a non-transparent pixel
      at one of the inner coordinates listed in rng. */
  predicate LineHasInk(img: array2<Pixel>, byRow: bool, rng: seq<int>, o: int)
    reads img
  {
    exists j :: 0 <= j < |rng| && InkOnLine(img, byRow, o, rng[j])
  }

  /** The index in rng of the first line, from index k on, that holds a
      non-transparent pixel; |rng| when there is none. */
  function FirstInkLine(img: array2<Pixel>, byRow: bool, rng: seq<int>, k: nat): (i: nat)
    reads img
    requires k <= |rng|
    ensures k <= i <= |rng|
    ensures i < |rng| ==> LineHasInk(img, byRow, rng, rng[i])
    ensures forall j :: k <= j < i ==> !LineHasInk(img, byRow, rng, rng[j])
    decreases |rng| - k
  {
    if k == |rng| then k
    else if LineHasInk(img, byRow, rng, rng[k]) then k
    else FirstInkLine(img, byRow, rng, k + 1)
  }

  /** The rectangle GetCoverageRectSide builds from the final values of its
      outer and inner scan variables. */
  function SideRect(byRow: bool, rng: seq<int>, o: int, i: int): Rectangle
    requires |rng| > 0
  {
    Rect(LineX(byRow, o, i), LineY(byRow, o, i), rng[|rng| - 1], rng[|rng| - 1])
  }

  /** GetCoverageRectSide. Edges 0 and 1 scan columns, 2 and 3 rows; the
      loops assign range ELEMENTS to x and y. The error is always nil. When
      a line holds ink, the first such line in range order gives the outer
      coordinate and the range's first element the inner one; otherwise both
      are left at the range's last element. */
  method GetCoverageRectSide(img: array2<Pixel>, edge: int, ascending: seq<int>, descending: seq<int>)
    returns (res: Result<Rectangle>)
    requires |SideRange(edge, ascending, descending)| > 0
    ensures res.Ok?
    ensures var rng := SideRange(edge, ascending, descending);
            var k := FirstInkLine(img, edge > 1, rng, 0);
            var last := rng[|rng| - 1];
            res.value == if k < |rng| then SideRect(edge > 1, rng, rng[k], rng[0]) else Rect(last, last, last, last)
  {
    var pxRng := SideRange(edge, ascending, descending);
    var byRow := edge > 1;
    var o, i := 0, 0;
    var edgeFound := false;
    var k := 0;
    while k < |pxRng|
      invariant 0 <= k <= |pxRng|
      invariant !edgeFound
      invariant forall j :: 0 <= j < k ==> !LineHasInk(img, byRow, pxRng, pxRng[j])
      invariant k > 0 ==> o == pxRng[k - 1] && i == pxRng[|pxRng| - 1]
    {
      o := pxRng[k];
      var j := 0;
      while j < |pxRng|
        invariant 0 <= j <= |pxRng|
        invariant !edgeFound
        invariant forall j' :: 0 <= j' < j ==> !InkOnLine(img, byRow, o, pxRng[j'])
        invariant j > 0 ==> i == pxRng[j - 1]
      {
        i := pxRng[j];
        if !IsTransparent(PixelAt(img, LineX(byRow, o, i), LineY(byRow, o, i))) {
          edgeFound := true;
          break;
        }
        j := j + 1;
      }
      if edgeFound {
        i := pxRng[0];
        break;
      }
      k := k + 1;
    }
    var last := pxRng[|pxRng| - 1];
    res := Ok(Rect(LineX(byRow, o, i), LineY(byRow, o, i), last, last));
  }

  /** On a tile without any non-transparent pixel the side scan yields an
      empty rectangle at the range's last element, not the full tile. */
  lemma SideOfEmptyTile(img: array2<Pixel>, byRow: bool, rng: seq<int>)
    requires forall x, y :: 0 <= x < img.Length0 && 0 <= y < img.Length1 ==> IsTransparent(img[x, y])
    ensures FirstInkLine(img, byRow, rng, 0) == |rng|
  {
    var k := FirstInkLine(img, byRow, rng, 0);
    if k < |rng| {
      var j :| 0 <= j < |rng| && InkOnLine(img, byRow, rng[k], rng[j]);
      assert false;
    }
  }

  /** Ink on the very first scanned line makes GetCoverageRectSide's
      rectangle start at the range's first element on both axes. */
  lemma SideOfInkOnFirstLine(img: array2<Pixel>, edge: int, ascending: seq<int>, descending: seq<int>)
    requires var rng := SideRange(edge, ascending, descending);
             |rng| > 0 && LineHasInk(img, edge > 1, rng, rng[0])
    ensures var rng := SideRange(edge, ascending, descending);
            var k := FirstInkLine(img, edge > 1, rng, 0);
            var last := rng[|rng| - 1];
            (if k < |rng| then SideRect(edge > 1, rng, rng[k], rng[0]) else Rect(last, last, last, last))
            == Rect(rng[0], rng[0], last, last)
  {
  }

  /* ---------------- scanning outward from a corner ---------------- */

  /** The x and y ranges GetCoverageRectCorner scans for a corner. */
  function CornerXRange(corner: int, ascending: seq<int>, descending: seq<int>): seq<int>
  {
    if GoRem(corner, 2) == 1 then descending else ascending
  }

  function CornerYRange(corner: int, ascending: seq<int>, descending: seq<int>): seq<int>
  {
    if corner > 1 then descending else ascending
  }

  /** Whether the pixel at x index c and y index r of the scan is not transparent. */
  predicate InkAt(img: array2<Pixel>, xRng: seq<int>, yRng: seq<int>, c: nat, r: nat)
    reads img
    requires c < |xRng| && r < |yRng|
  {
    !IsTransparent(PixelAt(img, xRng[c], yRng[r]))
  }

  function Min(a: nat, b: nat): nat { if a <= b then a else b }

  /** What the final indices of the corner scan say about the tile, with
      m = Min(xIdx, yIdx): both indices are at most 256; the m-by-m square at
      the corner holds no ink; an index that stopped below 256 stopped at ink
      (the x index on row m, the y index on column m); and the index that ran
      on after the other stopped passed only transparent pixels. */
  ghost predicate CornerStops(img: array2<Pixel>, xRng: seq<int>, yRng: seq<int>, xIdx: nat, yIdx: nat)
    reads img
    requires |xRng| > 256 && |yRng| > 256
  {
    var m := Min(xIdx, yIdx);
    xIdx <= 256 && yIdx <= 256 &&
    (forall c, r :: 0 <= c < m && 0 <= r < m ==> !InkAt(img, xRng, yRng, c, r)) &&
    (xIdx < 256 ==> exists c :: 0 <= c <= xIdx && InkAt(img, xRng, yRng, c, m)) &&
    (yIdx < 256 ==> exists r :: 0 <= r <= yIdx && InkAt(img, xRng, yRng, m, r)) &&
    (yIdx < xIdx ==> forall c :: 0 <= c < xIdx ==> !InkAt(img, xRng, yRng, c, yIdx)) &&
    (xIdx < yIdx ==> forall r :: 0 <= r < yIdx ==> !InkAt(img, xRng, yRng, xIdx, r))
  }

  /** The stopping point is the first ink the two probes meet: both probes
      start in the same inkless square. */
  lemma CornerStopsSameSquare(img: array2<Pixel>, xRng: seq<int>, yRng: seq<int>, a: nat, b: nat, a': nat, b': nat)
    requires |xRng| > 256 && |yRng| > 256
    requires CornerStops(img, xRng, yRng, a, b) && CornerStops(img, xRng, yRng, a', b')
    ensures Min(a, b) == Min(a', b')
  {
  }

  /** GetCoverageRectCorner's stopping point is unique: its result is a
      function of the tile and the corner. */
  lemma CornerStopsUnique(img: array2<Pixel>, xRng: seq<int>, yRng: seq<int>, a: nat, b: nat, a': nat, b': nat)
    requires |xRng| > 256 && |yRng| > 256
    requires CornerStops(img, xRng, yRng, a, b) && CornerStops(img, xRng, yRng, a', b')
    ensures a == a' && b == b'
  {
    CornerStopsSameSquare(img, xRng, yRng, a, b, a', b');
  }

  /** The first probe of the corner loop: walk the x index back from xIdx to
      0 along row yIdx, stopping at the first non-transparent pixel. */
  method ProbeRow(img: array2<Pixel>, xRng: seq<int>, yRng: seq<int>, xIdx: nat, yIdx: nat) returns (found: bool)
    requires xIdx < |xRng| && yIdx < |yRng|
    ensures found <==> exists c :: 0 <= c <= xIdx && InkAt(img, xRng, yRng, c, yIdx)
  {
    found := false;
    var revIdx: int := xIdx;
    while revIdx >= 0 && !found
      invariant -1 <= revIdx <= xIdx
      invariant found ==> exists c :: 0 <= c <= xIdx && InkAt(img, xRng, yRng, c, yIdx)
      invariant !found ==> forall c :: revIdx < c <= xIdx ==> !InkAt(img, xRng, yRng, c, yIdx)
      decreases revIdx + 1
    {
      var x := xRng[revIdx];
      var y := yRng[yIdx];
      if !IsTransparent(PixelAt(img, x, y)) {
        found := true;
        assert InkAt(img, xRng, yRng, revIdx, yIdx);
      }
      revIdx := revIdx - 1;
    }
  }

  /** The second probe: walk the y index back from yIdx to 0 along column xIdx. */
  method ProbeColumn(img: array2<Pixel>, xRng: seq<int>, yRng: seq<int>, xIdx: nat, yIdx: nat) returns (found: bool)
    requires xIdx < |xRng| && yIdx < |yRng|
    ensures found <==> exists r :: 0 <= r <= yIdx && InkAt(img, xRng, yRng, xIdx, r)
  {
    found := false;
    var revIdx: int := yIdx;
    while revIdx >= 0 && !found
      invariant -1 <= revIdx <= yIdx
      invariant found ==> exists r :: 0 <= r <= yIdx && InkAt(img, xRng, yRng, xIdx, r)
      invariant !found ==> forall r :: revIdx < r <= yIdx ==> !InkAt(img, xRng, yRng, xIdx, r)
      decreases revIdx + 1
    {
      var x := xRng[xIdx];
      var y := yRng[revIdx];
      if !IsTransparent(PixelAt(img, x, y)) {
        found := true;
        assert InkAt(img, xRng, yRng, xIdx, revIdx);
      }
      revIdx := revIdx - 1;
    }
  }

  /** The two rectangles GetCoverageRectCorner returns for final indices xIdx, yIdx. */
  function CornerRects(xRng: seq<int>, yRng: seq<int>, xIdx: nat, yIdx: nat): seq<Rectangle>
    requires xIdx < |xRng| && yIdx < |yRng|
  {
    [Rect(xRng[xIdx], yRng[0], xRng[|xRng| - 1], yRng[|yRng| - 1]),
     Rect(xRng[0], yRng[yIdx], xRng[|xRng| - 1], yRng[|yRng| - 1])]
  }

  /** GetCoverageRectCorner. The loop reads xRng[256] and yRng[256] before
      its stop at 256, so both ranges need at least 257 elements. It always
      terminates, the error is always nil, and the final indices are
      described by CornerStops. */
  method GetCoverageRectCorner(img: array2<Pixel>, corner: int, ascending: seq<int>, descending: seq<int>)
    returns (res: Result<seq<Rectangle>>)
    requires |ascending| > 256 && |descending| > 256
    ensures res.Ok? && |res.value| == 2
    ensures exists xIdx: nat, yIdx: nat ::
              CornerStops(img, CornerXRange(corner, ascending, descending),
                          CornerYRange(corner, ascending, descending), xIdx, yIdx) &&
              res.value == CornerRects(CornerXRange(corner, ascending, descending),
                                       CornerYRange(corner, ascending, descending), xIdx, yIdx)
  {
    var xRng := CornerXRange(corner, ascending, descending);
    var yRng := CornerYRange(corner, ascending, descending);
    var xFound, yFound := false, false;
    var xIdx, yIdx := 0, 0;
    ghost var steps := 0;
    // where the x probe and the y probe saw ink, once they did
    ghost var xWit, yWit := 0, 0;
    while !(xFound && yFound)
      invariant xIdx <= 256 && yIdx <= 256
      invariant !xFound ==> xIdx == steps
      invariant !yFound ==> yIdx == steps
      invariant xFound && !yFound ==> xIdx < yIdx
      invariant yFound && !xFound ==> yIdx < xIdx
      invariant forall c, r :: 0 <= c < Min(xIdx, yIdx) && 0 <= r < Min(xIdx, yIdx) ==>
                  !InkAt(img, xRng, yRng, c, r)
      invariant xFound && xIdx < 256 ==> xWit <= xIdx && InkAt(img, xRng, yRng, xWit, Min(xIdx, yIdx))
      invariant yFound && yIdx < 256 ==> yWit <= yIdx && InkAt(img, xRng, yRng, Min(xIdx, yIdx), yWit)
      invariant yIdx < xIdx ==> forall c :: 0 <= c < xIdx ==> !InkAt(img, xRng, yRng, c, yIdx)
      invariant xIdx < yIdx ==> forall r :: 0 <= r < yIdx ==> !InkAt(img, xRng, yRng, xIdx, r)
      decreases (if xFound then 0 else 257 - xIdx) + (if yFound then 0 else 257 - yIdx)
    {
      if !xFound {
        xFound := ProbeRow(img, xRng, yRng, xIdx, yIdx);
        if xFound {
          xWit :| 0 <= xWit <= xIdx && InkAt(img, xRng, yRng, xWit, yIdx);
        }
      }
      if xIdx == 256 {
        xFound := true;
      }
      if !yFound {
        yFound := ProbeColumn(img, xRng, yRng, xIdx, yIdx);
        if yFound {
          yWit :| 0 <= yWit <= yIdx && InkAt(img, xRng, yRng, xIdx, yWit);
        }
      }
      if yIdx == 256 {
        yFound := true;
      }
      if !xFound {
        xIdx := xIdx + 1;
      }
      if !yFound {
        yIdx := yIdx + 1;
      }
      steps := steps + 1;
    }
    assert CornerStops(img, xRng, yRng, xIdx, yIdx);
    res := Ok(CornerRects(xRng, yRng, xIdx, yIdx));
  }
}
