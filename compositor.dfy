/** Layering tiles onto a fresh canvas with draw.Draw: CombineImages,
    MergeNTiles, GenerateOverviewTile (before its resize) and ImgOverRects. */
module Compositor {
  import opened Pixels

  /** What draw.Draw reads from: a tile buffer, or image.Uniform, a single
      colour without bounds. */
  datatype Source = Uniform(c: Pixel) | Tile(img: array2<Pixel>)

  function SourceObjs(s: Source): set<object>
  {
    if s.Tile? then {s.img} else {}
  }

  /** A source's Bounds(): a tile spans [0, w) x [0, h); image.Uniform
      reports a rectangle a billion pixels wide in every direction. */
  function Bounds(s: Source): Rectangle
  {
    match s
    case Uniform(_) => Rectangle(-1000000000, -1000000000, 1000000000, 1000000000)
    case Tile(a) => Rectangle(0, 0, a.Length0, a.Length1)
  }

  /** Whether the source has a pixel at source point (sx, sy): draw.Draw
      clips to the source's bounds, a uniform colour's included. */
  predicate Covers(s: Source, sx: int, sy: int)
  {
    InRect(Bounds(s), sx, sy)
  }

  function SourceAt(s: Source, sx: int, sy: int): Pixel
    reads SourceObjs(s)
    requires Covers(s, sx, sy)
  {
    match s
    case Uniform(c) => c
    case Tile(a) => a[sx, sy]
  }

  /** Whether draw.Draw(dst, r, s, image.ZP, op) writes destination point
      (x, y): it lies in r and its source point (x, y) - r.Min in s. */
  predicate Paints(r: Rectangle, s: Source, x: int, y: int)
  {
    InRect(r, x, y) && Covers(s, x - r.minX, y - r.minY)
  }

  /** A uniform colour drawn into a rectangle that starts less than a billion
      pixels left of and above the tile paints exactly the rectangle's part
      of the tile. */
  lemma UniformPaintsRect(r: Rectangle, c: Pixel, x: int, y: int)
    requires 0 <= x < 256 && 0 <= y < 256
    requires r.minX > 256 - 1000000000 && r.minY > 256 - 1000000000
    ensures Paints(r, Uniform(c), x, y) <==> InRect(r, x, y)
  {
  }

  /** A uniform colour drawn with its own bounds as the rectangle, as
      MergeNTiles draws its placeholder, paints nothing on a tile: the source
      point of (x, y) lies a billion pixels to the right of it. */
  lemma UniformOwnBoundsPaintsNothing(c: Pixel, x: int, y: int)
    requires 0 <= x < 256 && 0 <= y < 256
    ensures !Paints(Bounds(Uniform(c)), Uniform(c), x, y)
  {
  }

  /** Pixel (x, y) of a destination after draw.Draw(dst, r, s, image.ZP,
      draw.Over) when `below` was there before: points of r that the source
      covers (source point = destination point - r.Min) get the source pixel
      laid over them; every other point keeps its pixel. */
  function DrawnAt(r: Rectangle, s: Source, x: int, y: int, below: Pixel, blend: Blend): Pixel
    reads SourceObjs(s)
  {
    if Paints(r, s, x, y)
    then Over(SourceAt(s, x - r.minX, y - r.minY), below, blend)
    else below
  }

  /** A transparent uniform source, the placeholder for a tile that failed
      to load, leaves every destination pixel as it was. */
  lemma TransparentDrawsNothing(r: Rectangle, x: int, y: int, below: Pixel, blend: Blend)
    ensures DrawnAt(r, Uniform(TRANSP), x, y, below, blend) == below
  {
  }

  /** draw.Draw(dst, r, s, image.ZP, draw.Over), the one way the compositing
      functions change their canvas. */
  method DrawOver(dst: array2<Pixel>, r: Rectangle, s: Source, blend: Blend)
    requires s.Tile? ==> s.img != dst
    modifies dst
    ensures forall x, y :: 0 <= x < dst.Length0 && 0 <= y < dst.Length1 ==>
              dst[x, y] == DrawnAt(r, s, x, y, old(dst[x, y]), blend)
  {
    var y := 0;
    while y < dst.Length1
      invariant 0 <= y <= dst.Length1
      invariant forall i, j :: 0 <= i < dst.Length0 && 0 <= j < dst.Length1 ==>
                  dst[i, j] == if j < y then DrawnAt(r, s, i, j, old(dst[i, j]), blend) else old(dst[i, j])
    {
      var x := 0;
      while x < dst.Length0
        invariant 0 <= x <= dst.Length0
        invariant forall i, j :: 0 <= i < dst.Length0 && 0 <= j < dst.Length1 ==>
                    dst[i, j] == if j < y || (j == y && i < x) then DrawnAt(r, s, i, j, old(dst[i, j]), blend)
                                 else old(dst[i, j])
      {
        dst[x, y] := DrawnAt(r, s, x, y, dst[x, y], blend);
        x := x + 1;
      }
      y := y + 1;
    }
  }

  /** Pixel (x, y) after tile img, drawn at the origin, is laid over `below`. */
  function TileOver(img: array2<Pixel>, x: int, y: int, below: Pixel, blend: Blend): Pixel
    reads img
  {
    if 0 <= x < img.Length0 && 0 <= y < img.Length1 then Over(img[x, y], below, blend) else below
  }

  /* ---------------- CombineImages ---------------- */

  /** CombineImages without its file handling: a white canvas, img1 over it,
      img2 over that. A tile that could not be opened or decoded is an error. */
  method CombineImages(img1: Option<array2<Pixel>>, img2: Option<array2<Pixel>>, blend: Blend)
    returns (res: Result<array2<Pixel>>)
    ensures res.Err? <==> img1.None? || img2.None?
    ensures res.Ok? ==>
              fresh(res.value) && res.value.Length0 == 256 && res.value.Length1 == 256 &&
              forall x, y :: 0 <= x < 256 && 0 <= y < 256 ==>
                res.value[x, y] == TileOver(img2.value, x, y, TileOver(img1.value, x, y, WHITE, blend), blend)
  {
    if img1.None? || img2.None? {
      return Err(CouldNotDecode);
    }
    var bgImg := new Pixel[256, 256]((_, _) => WHITE);
    DrawOver(bgImg, Bounds(Tile(img1.value)), Tile(img1.value), blend);
    DrawOver(bgImg, Bounds(Tile(img2.value)), Tile(img2.value), blend);
    res := Ok(bgImg);
  }

  /* ---------------- MergeNTiles ---------------- */

  /** The image MergeNTiles layers for one path: the decoded tile, or a
      transparent uniform placeholder when the tile failed to load. */
  function Loaded(t: Option<array2<Pixel>>): Source
  {
    if t.Some? then Tile(t.value) else Uniform(TRANSP)
  }

  function TileObjs(tiles: seq<Option<array2<Pixel>>>): set<object>
  {
    set i | 0 <= i < |tiles| && tiles[i].Some? :: tiles[i].value as object
  }

  /** Pixel (x, y) of a transparent canvas after the tiles are layered over
      it in the order given. */
  function StackAt(tiles: seq<Option<array2<Pixel>>>, x: int, y: int, blend: Blend): Pixel
    reads TileObjs(tiles)
  {
    if tiles == [] then TRANSP
    else
      var last := Loaded(tiles[|tiles| - 1]);
      assert SourceObjs(last) <= TileObjs(tiles);
      assert TileObjs(tiles[..|tiles| - 1]) <= TileObjs(tiles);
      DrawnAt(Bounds(last), last, x, y, StackAt(tiles[..|tiles| - 1], x, y, blend), blend)
  }

  /** The tiles that did load, in their order. */
  function Present(tiles: seq<Option<array2<Pixel>>>): (r: seq<Option<array2<Pixel>>>)
    ensures forall i :: 0 <= i < |r| ==> r[i].Some?
  {
    if tiles == [] then []
    else Present(tiles[..|tiles| - 1]) + (if tiles[|tiles| - 1].Some? then [tiles[|tiles| - 1]] else [])
  }

  /** A tile that fails to load contributes nothing: the merge equals the
      merge of only the tiles that loaded. */
  lemma {:induction false} StackSkipsMissing(tiles: seq<Option<array2<Pixel>>>, x: int, y: int, blend: Blend)
    ensures StackAt(tiles, x, y, blend) == StackAt(Present(tiles), x, y, blend)
  {
    if tiles != [] {
      var prefix, last := tiles[..|tiles| - 1], tiles[|tiles| - 1];
      StackSkipsMissing(prefix, x, y, blend);
      if last.Some? {
        var p := Present(tiles);
        assert p == Present(prefix) + [last];
        assert p[..|p| - 1] == Present(prefix);
      } else {
        assert Present(tiles) == Present(prefix);
        TransparentDrawsNothing(Bounds(Loaded(last)), x, y, StackAt(prefix, x, y, blend), blend);
      }
    }
  }

  /** MergeNTiles without its file handling: a transparent 256x256 canvas
      with every tile layered over it in the order given, a tile that failed
      to load standing in as a transparent placeholder. */
  method MergeNTiles(tiles: seq<Option<array2<Pixel>>>, blend: Blend) returns (bgImg: array2<Pixel>)
    ensures fresh(bgImg) && bgImg.Length0 == 256 && bgImg.Length1 == 256
    ensures forall x, y :: 0 <= x < 256 && 0 <= y < 256 ==> bgImg[x, y] == StackAt(tiles, x, y, blend)
  {
    var imgs: seq<Source> := [];
    var i := 0;
    while i < |tiles|
      invariant 0 <= i <= |tiles|
      invariant |imgs| == i && forall k :: 0 <= k < i ==> imgs[k] == Loaded(tiles[k])
    {
      imgs := imgs + [Loaded(tiles[i])];
      i := i + 1;
    }
    bgImg := new Pixel[256, 256]((_, _) => TRANSP);
    i := 0;
    while i < |imgs|
      invariant 0 <= i <= |imgs|
      invariant bgImg !in TileObjs(tiles)
      invariant forall x, y :: 0 <= x < 256 && 0 <= y < 256 ==> bgImg[x, y] == StackAt(tiles[..i], x, y, blend)
    {
      DrawOver(bgImg, Bounds(imgs[i]), imgs[i], blend);
      assert tiles[..i + 1][..i] == tiles[..i];
      assert TileObjs(tiles[..i + 1]) <= TileObjs(tiles);
      forall x, y | 0 <= x < 256 && 0 <= y < 256
        ensures bgImg[x, y] == StackAt(tiles[..i + 1], x, y, blend)
      {
        assert Loaded(tiles[..i + 1][i]) == imgs[i];
      }
      i := i + 1;
    }
    assert tiles[..|tiles|] == tiles;
  }

  /* ---------------- GenerateOverviewTile ---------------- */

  /** What loading one quadrant tile gave. */
  datatype Load = OpenFailed | DecodeFailed | Decoded(img: array2<Pixel>)

  /** The image GenerateOverviewTile keeps for a load: a transparent uniform
      colour when the file could not be opened, nil when it could not be
      decoded (the decode error is dropped), the tile otherwise. */
  function Kept(l: Load): Option<Source>
  {
    match l
    case OpenFailed => Some(Uniform(TRANSP))
    case DecodeFailed => None
    case Decoded(a) => Some(Tile(a))
  }

  /** The destination rectangle of quadrant k of the 512x512 canvas. */
  function Quadrant(k: nat): Rectangle
    requires k < 4
  {
    Rect(if k % 2 == 0 then 0 else 256, if k < 2 then 0 else 256,
         if k % 2 == 0 then 256 else 512, if k < 2 then 256 else 512)
  }

  /** The quadrant (0 to 3, row-major) that canvas pixel (x, y) falls in. */
  function QuadrantOf(x: int, y: int): nat
  {
    (if y < 256 then 0 else 2) + (if x < 256 then 0 else 1)
  }

  function LoadObjs(loads: seq<Load>): set<object>
  {
    set i | 0 <= i < |loads| && loads[i].Decoded? :: loads[i].img as object
  }

  /** Pixel (x, y) of the overview canvas, looked up directly in the tile of
      the quadrant it falls in: the tile's pixel at the offset within the
      quadrant laid over transparency, or transparent where that tile is
      missing or smaller than the quadrant. */
  function OverviewAt(loads: seq<Load>, x: int, y: int, blend: Blend): Pixel
    reads LoadObjs(loads)
    requires |loads| == 4 && 0 <= x < 512 && 0 <= y < 512
  {
    var k := QuadrantOf(x, y);
    var qx, qy := if x < 256 then x else x - 256, if y < 256 then y else y - 256;
    if loads[k].Decoded? then
      assert loads[k].img in LoadObjs(loads);
      TileOver(loads[k].img, qx, qy, TRANSP, blend)
    else TRANSP
  }

  /** The top-left pixel of each quadrant is the top-left pixel of its tile. */
  lemma OverviewCorners(loads: seq<Load>, k: nat, blend: Blend)
    requires |loads| == 4 && k < 4
    requires loads[k].Decoded? && loads[k].img.Length0 > 0 && loads[k].img.Length1 > 0
    ensures OverviewAt(loads, Quadrant(k).minX, Quadrant(k).minY, blend) == Over(loads[k].img[0, 0], TRANSP, blend)
  {
  }

  /** Drawing the image kept for quadrant k onto a transparent pixel of that
      quadrant gives the overview pixel; outside the quadrant it changes nothing. */
  lemma QuadrantDrawn(loads: seq<Load>, k: nat, x: int, y: int, below: Pixel, blend: Blend)
    requires |loads| == 4 && k < 4 && 0 <= x < 512 && 0 <= y < 512
    requires Kept(loads[k]).Some?
    ensures QuadrantOf(x, y) != k ==> DrawnAt(Quadrant(k), Kept(loads[k]).value, x, y, below, blend) == below
    ensures QuadrantOf(x, y) == k && below == TRANSP ==>
              DrawnAt(Quadrant(k), Kept(loads[k]).value, x, y, below, blend) == OverviewAt(loads, x, y, blend)
  {
  }

  /** The first loop of GenerateOverviewTile: the image kept for each load. */
  method KeepImages(locs: seq<Load>) returns (imgs: seq<Option<Source>>)
    ensures |imgs| == |locs| && forall i :: 0 <= i < |locs| ==> imgs[i] == Kept(locs[i])
  {
    imgs := [];
    var i := 0;
    while i < |locs|
      invariant 0 <= i <= |locs|
      invariant |imgs| == i && forall k :: 0 <= k < i ==> imgs[k] == Kept(locs[k])
    {
      imgs := imgs + [Kept(locs[i])];
      i := i + 1;
    }
  }

  /** GenerateOverviewTile up to its resize: a transparent 512x512 canvas
      with img1..img4 drawn into the top-left, top-right, bottom-left and
      bottom-right quadrants. A quadrant whose tile could not be opened or
      decoded stays transparent either way. */
  method GenerateOverviewTile(img1: Load, img2: Load, img3: Load, img4: Load, blend: Blend)
    returns (bgImg: array2<Pixel>)
    ensures fresh(bgImg) && bgImg.Length0 == 512 && bgImg.Length1 == 512
    ensures forall x, y :: 0 <= x < 512 && 0 <= y < 512 ==>
              bgImg[x, y] == OverviewAt([img1, img2, img3, img4], x, y, blend)
  {
    var locs := [img1, img2, img3, img4];
    var imgs := KeepImages(locs);
    bgImg := new Pixel[512, 512]((_, _) => TRANSP);
    var k := 0;
    while k < 4
      invariant 0 <= k <= 4
      invariant forall x, y :: 0 <= x < 512 && 0 <= y < 512 ==>
                  bgImg[x, y] == if QuadrantOf(x, y) < k then OverviewAt(locs, x, y, blend) else TRANSP
    {
      if imgs[k].Some? {
        label BeforeDraw:
        DrawOver(bgImg, Quadrant(k), imgs[k].value, blend);
        forall x, y | 0 <= x < 512 && 0 <= y < 512
          ensures bgImg[x, y] == if QuadrantOf(x, y) < k + 1 then OverviewAt(locs, x, y, blend) else TRANSP
        {
          QuadrantDrawn(locs, k, x, y, old@BeforeDraw(bgImg[x, y]), blend);
        }
      }
      k := k + 1;
    }
  }

  /* ---------------- ImgOverRects ---------------- */

  /** ImgOverRects: a transparent 256x256 canvas, every rectangle filled with
      opaque white (as far as the white uniform's bounds reach), then img laid
      over the result. */
  method ImgOverRects(img: array2<Pixel>, rects: seq<Rectangle>, blend: Blend) returns (bgImg: array2<Pixel>)
    ensures fresh(bgImg) && bgImg.Length0 == 256 && bgImg.Length1 == 256
    ensures forall x, y :: 0 <= x < 256 && 0 <= y < 256 ==>
              bgImg[x, y] == TileOver(img, x, y,
                               if exists k :: 0 <= k < |rects| && Paints(rects[k], Uniform(WHITE), x, y) then WHITE else TRANSP,
                               blend)
  {
    bgImg := new Pixel[256, 256]((_, _) => TRANSP);
    var i := 0;
    while i < |rects|
      invariant 0 <= i <= |rects|
      invariant forall x, y :: 0 <= x < 256 && 0 <= y < 256 ==>
                  bgImg[x, y] == if exists k :: 0 <= k < i && Paints(rects[k], Uniform(WHITE), x, y) then WHITE else TRANSP
    {
      DrawOver(bgImg, rects[i], Uniform(WHITE), blend);
      i := i + 1;
    }
    DrawOver(bgImg, Bounds(Tile(img)), Tile(img), blend);
  }
}
