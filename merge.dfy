/** MergeTiles: two tiles layered in an order chosen from how much of each
    is background white and how much is transparent. */
module Merge {
  import opened Pixels
  import opened Scan
  import opened Transform
  import opened Compositor

  /** The white-fraction difference below which white counts as background in both tiles. */
  const WhiteThresholdDenominator := 4

  function Abs(n: int): nat { if n < 0 then -n else n }

  /** a > b between two float64 quotients; a NaN quotient (den == 0) compares false. */
  predicate Greater(a: Fraction, b: Fraction)
  {
    a.den > 0 && b.den > 0 && a.num * b.den > b.num * a.den
  }

  /** math.Abs(a - b) < 0.25 between two float64 quotients; false on NaN. */
  predicate WithinQuarter(a: Fraction, b: Fraction)
  {
    a.den > 0 && b.den > 0 && WhiteThresholdDenominator * Abs(a.num * b.den - b.num * a.den) < a.den * b.den
  }

  /** The order test of MergeTiles: img1 goes underneath when it has the
      larger white fraction or the larger transparent fraction. */
  predicate FirstUnderneath(w1: Fraction, w2: Fraction, t1: Fraction, t2: Fraction)
  {
    Greater(w1, w2) || Greater(t1, t2)
  }

  /** Over tiles of one pixel total n, the two tests are the integer tests
      on the counts: 4 * |c1 - c2| < n and c1 > c2. */
  lemma SameTotal(c1: nat, c2: nat, n: nat)
    requires n > 0
    ensures WithinQuarter(Fraction(c1, n), Fraction(c2, n)) <==> 4 * Abs(c1 - c2) < n
    ensures Greater(Fraction(c1, n), Fraction(c2, n)) <==> c1 > c2
  {
    assert c1 * n - c2 * n == (c1 - c2) * n;
    assert Abs(c1 * n - c2 * n) == Abs(c1 - c2) * n;
    assert 4 * (Abs(c1 - c2) * n) == (4 * Abs(c1 - c2)) * n;
    if 4 * Abs(c1 - c2) < n {
      assert (4 * Abs(c1 - c2)) * n < n * n;
    } else {
      assert (4 * Abs(c1 - c2)) * n >= n * n;
    }
    if c1 > c2 {
      assert c1 * n > c2 * n;
    } else {
      assert c1 * n <= c2 * n;
    }
  }

  /** Whether white is replaced does not depend on the argument order. */
  lemma WithinQuarterSymmetric(a: Fraction, b: Fraction)
    ensures WithinQuarter(a, b) <==> WithinQuarter(b, a)
  {
    assert Abs(a.num * b.den - b.num * a.den) == Abs(b.num * a.den - a.num * b.den);
    assert a.den * b.den == b.den * a.den;
  }

  /** Pixel (x, y) of tile img as MergeTiles lays it: white made transparent when rep holds. */
  function Prepared(img: array2<Pixel>, rep: bool, x: int, y: int): Pixel
    reads img
    requires 0 <= x < img.Length0 && 0 <= y < img.Length1
  {
    if rep then Replaced(img[x, y], WHITE, TRANSP) else img[x, y]
  }

  /** Pixel (x, y) after tile img, prepared with rep, is drawn at the origin over `below`. */
  function PreparedOver(img: array2<Pixel>, rep: bool, x: int, y: int, below: Pixel, blend: Blend): Pixel
    reads img
  {
    if 0 <= x < img.Length0 && 0 <= y < img.Length1 then Over(Prepared(img, rep, x, y), below, blend) else below
  }

  /** Pixel (x, y) of MergeTiles' result: both fractions of each tile taken
      before any replacement, white replaced in both tiles or in neither,
      the tile underneath drawn first onto a transparent canvas. */
  function MergedAt(img1: array2<Pixel>, img2: array2<Pixel>, x: int, y: int, blend: Blend): Pixel
    reads img1, img2
  {
    var w1, w2 := FractionOf(img1, EqualTo(WHITE)), FractionOf(img2, EqualTo(WHITE));
    var t1, t2 := FractionOf(img1, EqualTo(TRANSP)), FractionOf(img2, EqualTo(TRANSP));
    var rep := WithinQuarter(w1, w2);
    if FirstUnderneath(w1, w2, t1, t2)
    then PreparedOver(img2, rep, x, y, PreparedOver(img1, rep, x, y, TRANSP, blend), blend)
    else PreparedOver(img1, rep, x, y, PreparedOver(img2, rep, x, y, TRANSP, blend), blend)
  }

  /** Where neither tile reaches, the merge keeps the canvas' transparency. */
  lemma MergedOutsideBoth(img1: array2<Pixel>, img2: array2<Pixel>, x: int, y: int, blend: Blend)
    requires !(0 <= x < img1.Length0 && 0 <= y < img1.Length1)
    requires !(0 <= x < img2.Length0 && 0 <= y < img2.Length1)
    ensures MergedAt(img1, img2, x, y, blend) == TRANSP
  {
  }

  /** The tile with less white goes on top: where it has an opaque pixel,
      that pixel is what the merge shows. */
  lemma LessWhiteOnTop(img1: array2<Pixel>, img2: array2<Pixel>, x: int, y: int, blend: Blend)
    requires Greater(FractionOf(img1, EqualTo(WHITE)), FractionOf(img2, EqualTo(WHITE)))
    requires 0 <= x < img2.Length0 && 0 <= y < img2.Length1
    requires Alpha(img2[x, y]) == 255 && img2[x, y] != WHITE
    ensures MergedAt(img1, img2, x, y, blend) == img2[x, y]
  {
  }

  /** Swapping the arguments gives the same picture whenever the heuristic
      puts the same tile underneath both times. */
  lemma MergeSwap(img1: array2<Pixel>, img2: array2<Pixel>, x: int, y: int, blend: Blend)
    requires var w1, w2 := FractionOf(img1, EqualTo(WHITE)), FractionOf(img2, EqualTo(WHITE));
             var t1, t2 := FractionOf(img1, EqualTo(TRANSP)), FractionOf(img2, EqualTo(TRANSP));
             FirstUnderneath(w1, w2, t1, t2) != FirstUnderneath(w2, w1, t2, t1)
    ensures MergedAt(img1, img2, x, y, blend) == MergedAt(img2, img1, x, y, blend)
  {
    WithinQuarterSymmetric(FractionOf(img1, EqualTo(WHITE)), FractionOf(img2, EqualTo(WHITE)));
  }

  /** The fractions MergeTiles compares: a tile's white and transparent
      fractions add up to at most 1. */
  lemma WhiteAndTransparentFractions(img: array2<Pixel>)
    ensures FractionOf(img, EqualTo(WHITE)).num + FractionOf(img, EqualTo(TRANSP)).num
            == FractionOf(img, Either(EqualTo(WHITE), EqualTo(TRANSP))).num
    ensures FractionOf(img, EqualTo(WHITE)).num + FractionOf(img, EqualTo(TRANSP)).num <= img.Length0 * img.Length1
  {
    CountInRectDisjoint(img, EqualTo(WHITE), EqualTo(TRANSP), img.Length0, img.Length1);
  }

  /** A tile drawn from a buffer that holds its prepared pixels. */
  lemma DrawnPrepared(img: array2<Pixel>, d: array2<Pixel>, rep: bool, x: int, y: int, below: Pixel, blend: Blend)
    requires d.Length0 == img.Length0 && d.Length1 == img.Length1
    requires forall i, j :: 0 <= i < d.Length0 && 0 <= j < d.Length1 ==> d[i, j] == Prepared(img, rep, i, j)
    ensures DrawnAt(Bounds(Tile(d)), Tile(d), x, y, below, blend) == PreparedOver(img, rep, x, y, below, blend)
  {
  }

  /** Two prepared buffers layered in the order the decision picks give MergedAt. */
  lemma LayeredIsMerged(img1: array2<Pixel>, img2: array2<Pixel>, d1: array2<Pixel>, d2: array2<Pixel>,
                        rep: bool, first: bool, x: int, y: int, blend: Blend)
    requires rep == WithinQuarter(FractionOf(img1, EqualTo(WHITE)), FractionOf(img2, EqualTo(WHITE)))
    requires first == FirstUnderneath(FractionOf(img1, EqualTo(WHITE)), FractionOf(img2, EqualTo(WHITE)),
                                      FractionOf(img1, EqualTo(TRANSP)), FractionOf(img2, EqualTo(TRANSP)))
    requires d1.Length0 == img1.Length0 && d1.Length1 == img1.Length1
    requires forall i, j :: 0 <= i < d1.Length0 && 0 <= j < d1.Length1 ==> d1[i, j] == Prepared(img1, rep, i, j)
    requires d2.Length0 == img2.Length0 && d2.Length1 == img2.Length1
    requires forall i, j :: 0 <= i < d2.Length0 && 0 <= j < d2.Length1 ==> d2[i, j] == Prepared(img2, rep, i, j)
    ensures MergedAt(img1, img2, x, y, blend) ==
            if first
            then DrawnAt(Bounds(Tile(d2)), Tile(d2), x, y, DrawnAt(Bounds(Tile(d1)), Tile(d1), x, y, TRANSP, blend), blend)
            else DrawnAt(Bounds(Tile(d1)), Tile(d1), x, y, DrawnAt(Bounds(Tile(d2)), Tile(d2), x, y, TRANSP, blend), blend)
  {
    DrawnPrepared(img1, d1, rep, x, y, TRANSP, blend);
    DrawnPrepared(img2, d2, rep, x, y, TRANSP, blend);
    DrawnPrepared(img1, d1, rep, x, y, PreparedOver(img2, rep, x, y, TRANSP, blend), blend);
    DrawnPrepared(img2, d2, rep, x, y, PreparedOver(img1, rep, x, y, TRANSP, blend), blend);
  }

  /** The two draw.Draw calls of MergeTiles: `under` first, then `top` over it. */
  method DrawPair(bgImg: array2<Pixel>, under: array2<Pixel>, top: array2<Pixel>, blend: Blend)
    requires bgImg != under && bgImg != top
    modifies bgImg
    ensures forall x, y :: 0 <= x < bgImg.Length0 && 0 <= y < bgImg.Length1 ==>
              bgImg[x, y] == DrawnAt(Bounds(Tile(top)), Tile(top), x, y,
                               DrawnAt(Bounds(Tile(under)), Tile(under), x, y, old(bgImg[x, y]), blend), blend)
  {
    DrawOver(bgImg, Bounds(Tile(under)), Tile(under), blend);
    DrawOver(bgImg, Bounds(Tile(top)), Tile(top), blend);
  }

  /** The replacement step of MergeTiles for one tile: when rep holds, a fresh
      copy with white made transparent, otherwise the tile itself. */
  method Prepare(img: array2<Pixel>, rep: bool) returns (d: array2<Pixel>)
    ensures d == img || fresh(d)
    ensures d.Length0 == img.Length0 && d.Length1 == img.Length1
    ensures forall i, j :: 0 <= i < d.Length0 && 0 <= j < d.Length1 ==> d[i, j] == Prepared(img, rep, i, j)
  {
    d := img;
    if rep {
      d := ReplaceColor(img, WHITE, TRANSP);
    }
  }

  /** MergeTiles without its file handling. A tile that failed to load is an
      error; otherwise the white and transparent fractions of both tiles are
      taken first, white becomes transparent in both tiles when their white
      fractions differ by less than 0.25, and the tiles are layered over a
      transparent canvas, img1 underneath when it has more white or more
      transparency, img2 underneath otherwise. */
  method MergeTiles(img1: Option<array2<Pixel>>, img2: Option<array2<Pixel>>, blend: Blend)
    returns (res: Result<array2<Pixel>>)
    ensures res.Err? <==> img1.None? || img2.None?
    ensures res.Ok? ==>
              fresh(res.value) && res.value.Length0 == 256 && res.value.Length1 == 256 &&
              forall x, y :: 0 <= x < 256 && 0 <= y < 256 ==>
                res.value[x, y] == MergedAt(img1.value, img2.value, x, y, blend)
  {
    if img1.None? {
      return Err(CouldNotDecode);
    }
    if img2.None? {
      return Err(CouldNotDecode);
    }
    var img1D, img2D := img1.value, img2.value;
    var bgImg := new Pixel[256, 256]((_, _) => TRANSP);

    var img1WhiteP := GetPixelPercent(img1D, WHITE);
    var img2WhiteP := GetPixelPercent(img2D, WHITE);
    var img1TransP := GetPixelPercent(img1D, TRANSP);
    var img2TransP := GetPixelPercent(img2D, TRANSP);

    var rep := WithinQuarter(img1WhiteP, img2WhiteP);
    img1D := Prepare(img1D, rep);
    img2D := Prepare(img2D, rep);
    var first := Greater(img1WhiteP, img2WhiteP) || Greater(img1TransP, img2TransP);
    if first {
      DrawPair(bgImg, img1D, img2D, blend);
    } else {
      DrawPair(bgImg, img2D, img1D, blend);
    }
    forall x, y | 0 <= x < 256 && 0 <= y < 256
      ensures bgImg[x, y] == MergedAt(img1.value, img2.value, x, y, blend)
    {
      LayeredIsMerged(img1.value, img2.value, img1D, img2D, rep, first, x, y, blend);
    }
    res := Ok(bgImg);
  }
}
