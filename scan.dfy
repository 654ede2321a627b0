/** Counting scans over a tile: GetPixelPercent and the scan of canDeleteImg. */
module Scan {
  import opened Pixels

  /** Which pixels a scan counts. */
  datatype Class = EqualTo(c: Pixel) | Content | Ink | Either(k1: Class, k2: Class)

  predicate Matches(k: Class, p: Pixel)
  {
    match k
    case EqualTo(c) => p == c
    case Content => IsContent(p)
    case Ink => !IsTransparent(p)
    case Either(k1, k2) => Matches(k1, p) || Matches(k2, p)
  }

  /** Number of pixels (x, y) with x < X on row y that match k. */
  function CountInRow(img: array2<Pixel>, k: Class, y: nat, X: nat): (n: nat)
    reads img
    requires X <= img.Length0 && y < img.Length1
    ensures n <= X
  {
    if X == 0 then 0
    else CountInRow(img, k, y, X - 1) + (if Matches(k, img[X - 1, y]) then 1 else 0)
  }

  /** Number of pixels in [0, X) x [0, Y) that match k. */
  function CountInRect(img: array2<Pixel>, k: Class, X: nat, Y: nat): (n: nat)
    reads img
    requires X <= img.Length0 && Y <= img.Length1
    ensures n <= X * Y
  {
    if Y == 0 then 0
    else
      var n := CountInRect(img, k, X, Y - 1) + CountInRow(img, k, Y - 1, X);
      assert X * Y == X * (Y - 1) + X;
      n
  }

  lemma {:induction false} CountInRowZero(img: array2<Pixel>, k: Class, y: nat, X: nat)
    requires X <= img.Length0 && y < img.Length1
    ensures CountInRow(img, k, y, X) == 0 <==> forall x :: 0 <= x < X ==> !Matches(k, img[x, y])
  {
    if X > 0 {
      CountInRowZero(img, k, y, X - 1);
    }
  }

  /** A count is zero exactly when no pixel of the rectangle matches. */
  lemma {:induction false} CountInRectZero(img: array2<Pixel>, k: Class, X: nat, Y: nat)
    requires X <= img.Length0 && Y <= img.Length1
    ensures CountInRect(img, k, X, Y) == 0 <==>
            forall x, y :: 0 <= x < X && 0 <= y < Y ==> !Matches(k, img[x, y])
  {
    if Y > 0 {
      CountInRectZero(img, k, X, Y - 1);
      CountInRowZero(img, k, Y - 1, X);
      if CountInRect(img, k, X, Y) == 0 {
        forall x, y | 0 <= x < X && 0 <= y < Y ensures !Matches(k, img[x, y]) {
          if y < Y - 1 {
          } else {
            assert y == Y - 1;
          }
        }
      }
    }
  }

  lemma {:induction false} CountInRowDisjoint(img: array2<Pixel>, k1: Class, k2: Class, y: nat, X: nat)
    requires X <= img.Length0 && y < img.Length1
    requires forall p :: !(Matches(k1, p) && Matches(k2, p))
    ensures CountInRow(img, k1, y, X) + CountInRow(img, k2, y, X) == CountInRow(img, Either(k1, k2), y, X)
  {
    if X > 0 {
      CountInRowDisjoint(img, k1, k2, y, X - 1);
    }
  }

  /** Two classes no pixel belongs to at once count, together, exactly the
      pixels of their union: the fraction of white plus the fraction of
      transparent is the fraction of pixels that are either. */
  lemma {:induction false} CountInRectDisjoint(img: array2<Pixel>, k1: Class, k2: Class, X: nat, Y: nat)
    requires X <= img.Length0 && Y <= img.Length1
    requires forall p :: !(Matches(k1, p) && Matches(k2, p))
    ensures CountInRect(img, k1, X, Y) + CountInRect(img, k2, X, Y) == CountInRect(img, Either(k1, k2), X, Y)
  {
    if Y > 0 {
      CountInRectDisjoint(img, k1, k2, X, Y - 1);
      CountInRowDisjoint(img, k1, k2, Y - 1, X);
    }
  }

  /** A ratio num / den as float64 division computes it; den == 0 stands for NaN. */
  datatype Fraction = Fraction(num: nat, den: nat)

  /** The fraction of the whole tile's pixels that match k. */
  function FractionOf(img: array2<Pixel>, k: Class): Fraction
    reads img
  {
    Fraction(CountInRect(img, k, img.Length0, img.Length1), img.Length0 * img.Length1)
  }

  /** GetPixelPercent: the fraction of pixels exactly equal to col, counted row by row. */
  method GetPixelPercent(img: array2<Pixel>, col: Pixel) returns (f: Fraction)
    ensures f.den == img.Length0 * img.Length1
    ensures f.num == CountInRect(img, EqualTo(col), img.Length0, img.Length1)
    ensures f.num <= f.den
  {
    var countColor := 0;
    var y := 0;
    while y < img.Length1
      invariant 0 <= y <= img.Length1
      invariant countColor == CountInRect(img, EqualTo(col), img.Length0, y)
    {
      var x := 0;
      while x < img.Length0
        invariant 0 <= x <= img.Length0
        invariant countColor == CountInRect(img, EqualTo(col), img.Length0, y)
                                + CountInRow(img, EqualTo(col), y, x)
      {
        if img[x, y] == col {
          countColor := countColor + 1;
        }
        x := x + 1;
      }
      y := y + 1;
    }
    f := Fraction(countColor, img.Length0 * img.Length1);
  }

  /** The scan of canDeleteImg: a tile that failed to load is kept; a loaded
      tile may be deleted exactly when it has no content pixel. */
  method CanDeleteImg(img: Option<array2<Pixel>>) returns (ok: bool)
    ensures ok <==> img.Some? &&
                    forall x, y :: 0 <= x < img.value.Length0 && 0 <= y < img.value.Length1 ==>
                      !IsContent(img.value[x, y])
  {
    if img.None? {
      return false;
    }
    var a := img.value;
    var notWhiteCount := 0;
    var y := 0;
    while y < a.Length1
      invariant 0 <= y <= a.Length1
      invariant notWhiteCount == CountInRect(a, Content, a.Length0, y)
    {
      var x := 0;
      while x < a.Length0
        invariant 0 <= x <= a.Length0
        invariant notWhiteCount == CountInRect(a, Content, a.Length0, y) + CountInRow(a, Content, y, x)
      {
        if a[x, y] != WHITE && !IsTransparent(a[x, y]) {
          notWhiteCount := notWhiteCount + 1;
        }
        x := x + 1;
      }
      y := y + 1;
    }
    CountInRectZero(a, Content, a.Length0, a.Length1);
    ok := notWhiteCount == 0;
  }
}
