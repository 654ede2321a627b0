/** ReplaceColor: a pointwise colour substitution into a fresh buffer. */
module Transform {
  import opened Pixels
  import opened Scan

  /** What ReplaceColor makes of one pixel. */
  function Replaced(p: Pixel, col: Pixel, repl: Pixel): Pixel
  {
    if p == col then repl else p
  }

  /** Replacing twice with the same colours changes nothing more than replacing once. */
  lemma ReplacedIdempotent(p: Pixel, col: Pixel, repl: Pixel)
    ensures Replaced(Replaced(p, col, repl), col, repl) == Replaced(p, col, repl)
  {
  }

  /** ReplaceColor: a new buffer of the input's size in which every pixel
      equal to col is repl and every other pixel is copied unchanged. */
  method ReplaceColor(img: array2<Pixel>, col: Pixel, repl: Pixel) returns (m: array2<Pixel>)
    ensures fresh(m)
    ensures m.Length0 == img.Length0 && m.Length1 == img.Length1
    ensures forall x, y :: 0 <= x < m.Length0 && 0 <= y < m.Length1 ==>
              m[x, y] == (if img[x, y] == col then repl else img[x, y])
  {
    m := new Pixel[img.Length0, img.Length1]((_, _) => TRANSP);
    var y := 0;
    while y < img.Length1
      invariant 0 <= y <= img.Length1
      invariant forall i, j :: 0 <= i < m.Length0 && 0 <= j < y ==>
                  m[i, j] == Replaced(img[i, j], col, repl)
    {
      var x := 0;
      while x < img.Length0
        invariant 0 <= x <= img.Length0
        invariant forall i, j :: 0 <= i < m.Length0 && 0 <= j < y ==>
                    m[i, j] == Replaced(img[i, j], col, repl)
        invariant forall i :: 0 <= i < x ==> m[i, y] == Replaced(img[i, y], col, repl)
      {
        var pxCol := img[x, y];
        if pxCol == col {
          m[x, y] := repl;
        } else {
          m[x, y] := pxCol;
        }
        x := x + 1;
      }
      y := y + 1;
    }
  }

  /** The row counts of a buffer m that is img with col replaced by repl. */
  lemma {:induction false} CountInRowReplaced(img: array2<Pixel>, m: array2<Pixel>, col: Pixel, repl: Pixel, y: nat, X: nat)
    requires m.Length0 == img.Length0 && m.Length1 == img.Length1
    requires X <= img.Length0 && y < img.Length1
    requires forall x :: 0 <= x < X ==> m[x, y] == Replaced(img[x, y], col, repl)
    requires col != repl
    ensures CountInRow(m, EqualTo(col), y, X) == 0
    ensures CountInRow(m, EqualTo(repl), y, X)
            == CountInRow(img, EqualTo(col), y, X) + CountInRow(img, EqualTo(repl), y, X)
  {
    if X > 0 {
      CountInRowReplaced(img, m, col, repl, y, X - 1);
    }
  }

  /** After ReplaceColor(img, col, repl) with col != repl no pixel equals col,
      and the pixels equal to repl are those that were col or repl before. */
  lemma {:induction false} CountInRectReplaced(img: array2<Pixel>, m: array2<Pixel>, col: Pixel, repl: Pixel, X: nat, Y: nat)
    requires m.Length0 == img.Length0 && m.Length1 == img.Length1
    requires X <= img.Length0 && Y <= img.Length1
    requires forall x, y :: 0 <= x < X && 0 <= y < Y ==> m[x, y] == Replaced(img[x, y], col, repl)
    requires col != repl
    ensures CountInRect(m, EqualTo(col), X, Y) == 0
    ensures CountInRect(m, EqualTo(repl), X, Y)
            == CountInRect(img, EqualTo(col), X, Y) + CountInRect(img, EqualTo(repl), X, Y)
  {
    if Y > 0 {
      CountInRectReplaced(img, m, col, repl, X, Y - 1);
      CountInRowReplaced(img, m, col, repl, Y - 1, X);
    }
  }
}
