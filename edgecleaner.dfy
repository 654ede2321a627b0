/** CleanTileEdge without its file read and write: every scan line of a tile
    that holds no content pixel becomes transparent. */
module EdgeCleaner {
  import opened Pixels

  /** Number of content pixels among positions [0, n) of a scan line. */
  function LineContent(img: array2<Pixel>, byRow: bool, line: int, n: nat): nat
    reads img
  {
    if n == 0 then 0
    else LineContent(img, byRow, line, n - 1)
         + (if IsContent(PixelAt(img, LineX(byRow, line, n - 1), LineY(byRow, line, n - 1))) then 1 else 0)
  }

  /** Pixel (x, y) of the cleaned buffer when n positions are scanned per line:
      the source pixel when its line holds content, transparent otherwise,
      and the fresh buffer's transparent zero value where no scan reaches. */
  function CleanedAt(img: array2<Pixel>, byRow: bool, n: nat, x: int, y: int): Pixel
    reads img
  {
    if 0 <= x < n && 0 <= y < n && LineContent(img, byRow, LineOf(byRow, x, y), n) != 0
    then PixelAt(img, x, y)
    else TRANSP
  }

  /** A line's count is zero exactly when none of its scanned pixels is content. */
  lemma {:induction false} LineContentZero(img: array2<Pixel>, byRow: bool, line: int, n: nat)
    ensures LineContent(img, byRow, line, n) == 0 <==>
            forall pos :: 0 <= pos < n ==> !IsContent(PixelAt(img, LineX(byRow, line, pos), LineY(byRow, line, pos)))
  {
    if n > 0 {
      LineContentZero(img, byRow, line, n - 1);
    }
  }

  /** The rule applied to each scanned line: a line without a single content
      pixel is set entirely to TRANSP, any other line is copied verbatim. */
  lemma CleanedLine(img: array2<Pixel>, byRow: bool, n: nat, x: int, y: int)
    requires 0 <= x < n && 0 <= y < n
    ensures CleanedAt(img, byRow, n, x, y) ==
            if exists pos :: 0 <= pos < n &&
                 IsContent(PixelAt(img, LineX(byRow, LineOf(byRow, x, y), pos), LineY(byRow, LineOf(byRow, x, y), pos)))
            then PixelAt(img, x, y) else TRANSP
  {
    LineContentZero(img, byRow, LineOf(byRow, x, y), n);
  }

  /** A content pixel within the scanned square is never erased. */
  lemma ContentKept(img: array2<Pixel>, byRow: bool, n: nat, x: int, y: int)
    requires 0 <= x < img.Length0 && 0 <= y < img.Length1 && x < n && y < n
    requires IsContent(img[x, y])
    ensures CleanedAt(img, byRow, n, x, y) == img[x, y]
  {
    var line := LineOf(byRow, x, y);
    assert PixelAt(img, LineX(byRow, line, PosOf(byRow, x, y)), LineY(byRow, line, PosOf(byRow, x, y))) == img[x, y];
    LineContentZero(img, byRow, line, n);
  }

  /** A tile without any content pixel is cleaned to all-transparent. */
  lemma NoContentCleared(img: array2<Pixel>, byRow: bool, n: nat)
    requires forall x, y :: 0 <= x < img.Length0 && 0 <= y < img.Length1 ==> !IsContent(img[x, y])
    ensures forall x, y :: 0 <= x < img.Length0 && 0 <= y < img.Length1 ==> CleanedAt(img, byRow, n, x, y) == TRANSP
  {
    forall x, y | 0 <= x < img.Length0 && 0 <= y < img.Length1
      ensures CleanedAt(img, byRow, n, x, y) == TRANSP
    {
      var line := LineOf(byRow, x, y);
      forall pos | 0 <= pos < n
        ensures !IsContent(PixelAt(img, LineX(byRow, line, pos), LineY(byRow, line, pos)))
      {
      }
      LineContentZero(img, byRow, line, n);
    }
  }

  /** Two buffers whose scanned pixels on a line agree have the same count on it. */
  lemma {:induction false} LineContentSame(a: array2<Pixel>, b: array2<Pixel>, byRow: bool, line: int, n: nat)
    requires forall pos :: 0 <= pos < n ==>
               PixelAt(a, LineX(byRow, line, pos), LineY(byRow, line, pos)) ==
               PixelAt(b, LineX(byRow, line, pos), LineY(byRow, line, pos))
    ensures LineContent(a, byRow, line, n) == LineContent(b, byRow, line, n)
  {
    if n > 0 {
      LineContentSame(a, b, byRow, line, n - 1);
    }
  }

  /** Cleaning a cleaned tile along the same axis changes nothing. */
  lemma CleanIdempotent(img: array2<Pixel>, m: array2<Pixel>, byRow: bool, n: nat)
    requires m.Length0 == img.Length0 && m.Length1 == img.Length1
    requires forall x, y :: 0 <= x < m.Length0 && 0 <= y < m.Length1 ==> m[x, y] == CleanedAt(img, byRow, n, x, y)
    ensures forall x, y :: 0 <= x < m.Length0 && 0 <= y < m.Length1 ==> CleanedAt(m, byRow, n, x, y) == m[x, y]
  {
    forall x, y | 0 <= x < m.Length0 && 0 <= y < m.Length1
      ensures CleanedAt(m, byRow, n, x, y) == m[x, y]
    {
      var line := LineOf(byRow, x, y);
      if 0 <= x < n && 0 <= y < n {
        if LineContent(img, byRow, line, n) != 0 {
          forall pos | 0 <= pos < n
            ensures PixelAt(m, LineX(byRow, line, pos), LineY(byRow, line, pos)) ==
                    PixelAt(img, LineX(byRow, line, pos), LineY(byRow, line, pos))
          {
          }
          LineContentSame(m, img, byRow, line, n);
        } else {
          forall pos | 0 <= pos < n
            ensures !IsContent(PixelAt(m, LineX(byRow, line, pos), LineY(byRow, line, pos)))
          {
          }
          LineContentZero(m, byRow, line, n);
        }
      }
    }
  }

  /** The first inner loop of CleanTileEdge: count the content pixels at
      positions [0, n) of one scan line. */
  method CountLineContent(img: array2<Pixel>, byRow: bool, line: int, n: nat) returns (colorCount: nat)
    ensures colorCount == LineContent(img, byRow, line, n)
    ensures colorCount == 0 <==>
              forall pos :: 0 <= pos < n ==> !IsContent(PixelAt(img, LineX(byRow, line, pos), LineY(byRow, line, pos)))
  {
    colorCount := 0;
    var inner := 0;
    while inner < n
      invariant 0 <= inner <= n
      invariant colorCount == LineContent(img, byRow, line, inner)
    {
      var pxCol := PixelAt(img, LineX(byRow, line, inner), LineY(byRow, line, inner));
      if pxCol != WHITE && !IsTransparent(pxCol) {
        colorCount := colorCount + 1;
      }
      inner := inner + 1;
    }
    LineContentZero(img, byRow, line, n);
  }

  /** The second inner loop of CleanTileEdge: write positions [0, n) of one
      scan line into m, as transparent when the line had no content. */
  method WriteLine(img: array2<Pixel>, m: array2<Pixel>, byRow: bool, line: nat, n: nat, colorCount: nat)
    requires m != img && m.Length0 == img.Length0 && m.Length1 == img.Length1
    requires line < n && colorCount == LineContent(img, byRow, line, n)
    modifies m
    ensures forall x, y :: 0 <= x < m.Length0 && 0 <= y < m.Length1 ==>
              m[x, y] == if LineOf(byRow, x, y) == line && PosOf(byRow, x, y) < n
                         then CleanedAt(img, byRow, n, x, y) else old(m[x, y])
  {
    var inner := 0;
    while inner < n
      invariant 0 <= inner <= n
      invariant forall x, y :: 0 <= x < m.Length0 && 0 <= y < m.Length1 ==>
                  m[x, y] == if LineOf(byRow, x, y) == line && PosOf(byRow, x, y) < inner
                             then CleanedAt(img, byRow, n, x, y) else old(m[x, y])
    {
      var x, y := LineX(byRow, line, inner), LineY(byRow, line, inner);
      var pxCol := PixelAt(img, x, y);
      // m.Set ignores points outside the buffer
      if x < m.Length0 && y < m.Length1 {
        if colorCount == 0 {
          m[x, y] := TRANSP;
        } else {
          m[x, y] := pxCol;
        }
      }
      inner := inner + 1;
    }
  }

  /** CleanTileEdge on a decoded tile. Edges 0 and 1 scan columns, 2 and 3
      rows; the range chosen by the edge's parity only contributes its length,
      because `for *outer = range pxRng` assigns indices, not elements. */
  method CleanTileEdge(img: array2<Pixel>, edge: int, ascending: seq<int>, descending: seq<int>)
    returns (m: array2<Pixel>)
    ensures fresh(m)
    ensures m.Length0 == img.Length0 && m.Length1 == img.Length1
    ensures forall x, y :: 0 <= x < m.Length0 && 0 <= y < m.Length1 ==>
              m[x, y] == CleanedAt(img, edge > 1, if GoRem(edge, 2) == 0 then |descending| else |ascending|, x, y)
    ensures |ascending| == |descending| ==>
              forall x, y :: 0 <= x < m.Length0 && 0 <= y < m.Length1 ==>
                m[x, y] == CleanedAt(img, edge > 1, |ascending|, x, y)
  {
    var pxRng := ascending;
    if GoRem(edge, 2) == 0 {
      pxRng := descending;
    }
    var byRow := edge > 1;
    var n := |pxRng|;
    m := new Pixel[img.Length0, img.Length1]((_, _) => TRANSP);
    var outer := 0;
    while outer < n
      invariant 0 <= outer <= n
      invariant forall x, y :: 0 <= x < m.Length0 && 0 <= y < m.Length1 ==>
                  m[x, y] == if LineOf(byRow, x, y) < outer then CleanedAt(img, byRow, n, x, y) else TRANSP
    {
      var colorCount := CountLineContent(img, byRow, outer, n);
      WriteLine(img, m, byRow, outer, n, colorCount);
      outer := outer + 1;
    }
  }
}
