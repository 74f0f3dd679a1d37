/** Copying Y-tiled planes into linear ones: tiles of 16 bytes by 32 rows, one after another. */
module Detile {

  const TILE_WIDTH: nat := 16
  const TILE_HEIGHT: nat := 32

  /** The place of a byte: its tile's column and row, and its row and column in the tile. */
  datatype Place = Place(x: nat, y: nat, row: nat, k: nat)

  predicate Inside(p: Place, width: nat, rows: nat) {
    p.x < width / 16 && p.y < rows && p.row < TILE_HEIGHT && p.k < TILE_WIDTH
  }

  /** Where the byte is in the linear plane of the given width. */
  function Linear(p: Place, width: nat): nat {
    width * (32 * p.y + p.row) + 16 * p.x + p.k
  }

  /** Where it is in the tiled plane. */
  function Tiled(p: Place, width: nat): nat {
    512 * (p.x + p.y * width / 16) + 16 * p.row + p.k
  }

  /** The place of byte d of the linear plane. */
  function PlaceAt(d: nat, width: nat): Place
    requires width > 0
  {
    Place(d % width / 16, d / width / 32, d / width % 32, d % width % 16)
  }

  /** The bytes of so many rows of tiles, in the linear plane and in the tiled one. */
  function LinearSize(width: nat, rows: nat): nat {
    width * (32 * rows)
  }

  function TiledSize(width: nat, rows: nat): nat {
    512 * (rows * width / 16)
  }

  lemma MulLess(n: nat, a: nat, b: nat)
    ensures a < b ==> n * a + n <= n * b
  {
    if a < b {
      assert n * (a + 1) <= n * b;
    }
  }

  lemma DivMod(q: nat, n: nat, r: nat)
    requires r < n
    ensures (n * q + r) / n == q && (n * q + r) % n == r
  {
    var d := (n * q + r) / n;
    MulLess(n, d, q);
    MulLess(n, q, d);
  }

  /** The linear index determines the place and the place the index: the places inside and the
      bytes of the linear plane left of the last whole tile correspond one to one. */
  lemma LinearBijection(p: Place, d: nat, width: nat, rows: nat)
    requires width > 0
    ensures Inside(p, width, rows) ==>
      Linear(p, width) < LinearSize(width, rows) && PlaceAt(Linear(p, width), width) == p
    ensures d < LinearSize(width, rows) ==> Linear(PlaceAt(d, width), width) == d
    ensures d < LinearSize(width, rows) ==>
      (Inside(PlaceAt(d, width), width, rows) <==> d % width < 16 * (width / 16))
  {
    if Inside(p, width, rows) {
      PlaceOfLinear(p, width, rows);
    }
    if d < LinearSize(width, rows) {
      LinearOfPlace(d, width, rows);
    }
  }

  lemma PlaceOfLinear(p: Place, width: nat, rows: nat)
    requires Inside(p, width, rows)
    ensures width > 0 && PlaceAt(Linear(p, width), width) == p
    ensures Linear(p, width) < LinearSize(width, rows)
  {
    DivMod(32 * p.y + p.row, width, 16 * p.x + p.k);
    DivMod(p.y, 32, p.row);
    DivMod(p.x, 16, p.k);
    MulLess(width, 32 * p.y + p.row, 32 * rows);
  }

  lemma LinearOfPlace(d: nat, width: nat, rows: nat)
    requires width > 0 && d < LinearSize(width, rows)
    ensures Linear(PlaceAt(d, width), width) == d
    ensures Inside(PlaceAt(d, width), width, rows) <==> PlaceAt(d, width).x < width / 16
  {
    var line := d / width;
    assert d == width * line + d % width;
    LineBelow(line, d % width, width, 32 * rows);
    assert line == 32 * (line / 32) + line % 32;
  }

  lemma LineOf(d: nat, width: nat, rows: nat)
    requires width > 0 && d < LinearSize(width, rows)
    ensures d / width < 32 * rows
  {
    assert d == width * (d / width) + d % width;
    LineBelow(d / width, d % width, width, 32 * rows);
  }

  lemma LineBelow(line: nat, column: nat, width: nat, lines: nat)
    requires width * line + column < width * lines
    ensures line < lines
  {
    assert line >= lines ==> width * line >= width * lines;
  }

  /** The tiles before row y of tiles; a row more has at least the tiles of a row. */
  lemma TilesBefore(y: nat, z: nat, width: nat)
    requires y < z
    ensures y * width / 16 + width / 16 <= z * width / 16
  {
    MulLess(width, y, z);
  }

  lemma TileSplits(count: nat, row: nat, k: nat)
    requires row < 32 && k < 16
    ensures var s := 512 * count + 16 * row + k; s % 16 == k && s / 16 % 32 == row && s / 512 == count
  {
  }

  /** No byte of the tiled plane is used for two places, whatever the width. */
  lemma TiledInjective(p: Place, q: Place, width: nat, rows: nat)
    requires Inside(p, width, rows) && Inside(q, width, rows)
    ensures Tiled(p, width) < TiledSize(width, rows)
    ensures Tiled(p, width) == Tiled(q, width) ==> p == q
  {
    TiledFits(p, width, rows);
    if Tiled(p, width) == Tiled(q, width) {
      TileSplits(p.x + p.y * width / 16, p.row, p.k);
      TileSplits(q.x + q.y * width / 16, q.row, q.k);
      if p.y < q.y {
        TilesBefore(p.y, q.y, width);
      } else if q.y < p.y {
        TilesBefore(q.y, p.y, width);
      }
    }
  }

  lemma TiledFits(p: Place, width: nat, rows: nat)
    requires Inside(p, width, rows)
    ensures Tiled(p, width) < TiledSize(width, rows)
  {
    TilesBefore(p.y, rows, width);
  }

  /** The bytes of one row of one tile are next to each other in both planes. */
  lemma TileRow(x: nat, y: nat, row: nat, d: nat, width: nat, rows: nat)
    requires Inside(Place(x, y, row, 0), width, rows) && d < LinearSize(width, rows)
    ensures var l, p := Linear(Place(x, y, row, 0), width), PlaceAt(d, width);
      l <= d < l + 16 <==> p.x == x && p.y == y && p.row == row
    ensures var l := Linear(Place(x, y, row, 0), width);
      l <= d < l + 16 ==> PlaceAt(d, width) == Place(x, y, row, d - l)
  {
    var l := Linear(Place(x, y, row, 0), width);
    LinearOfPlace(d, width, rows);
    if l <= d < l + 16 {
      PlaceOfLinear(Place(x, y, row, d - l), width, rows);
    }
  }

  /** Where byte d of the linear plane comes from. */
  function Origin(d: nat, width: nat): nat
    requires width > 0
  {
    Tiled(PlaceAt(d, width), width)
  }

  /** Byte c of row r comes from tile c / 16 + (r / 32) * width / 16, row r mod 32, column c mod 16. */
  lemma OriginOf(r: nat, c: nat, width: nat)
    requires c < width
    ensures Origin(width * r + c, width) == 512 * (c / 16 + r / 32 * width / 16) + 16 * (r % 32) + c % 16
  {
    DivMod(r, width, c);
  }

  /** Byte d of the linear plane belongs to a whole tile. */
  predicate Covered(d: nat, width: nat)
    requires width > 0
  {
    PlaceAt(d, width).x < width / 16
  }

  // ---------- the loops

  /** The places of the linear plane's bytes and where they come from, as tables. */
  ghost predicate Tables(places: seq<Place>, origins: seq<nat>, width: nat, rows: nat) {
    && width > 0 && |places| == |origins| == LinearSize(width, rows)
    && forall d | 0 <= d < |places| :: places[d] == PlaceAt(d, width) && origins[d] == Origin(d, width)
  }

  /** Row `row` of tile (x, y) is the 16 bytes from l on and comes from the 16 bytes from s on. */
  ghost predicate RowIs(places: seq<Place>, origins: seq<nat>, x: nat, y: nat, row: nat, l: nat, s: nat) {
    && |places| == |origins| && l + 16 <= |places|
    && (forall d | 0 <= d < |places| ::
          l <= d < l + 16 <==> places[d].x == x && places[d].y == y && places[d].row == row)
    && (forall d | l <= d < l + 16 :: origins[d] == s + d - l)
  }

  /** Copied before row `row` of tile (x, y): columns of tiles go first. */
  predicate Before(p: Place, x: nat, y: nat, row: nat) {
    p.x < x || (p.x == x && (p.y < y || (p.y == y && p.row < row)))
  }

  /** The bytes of the plane copied so far have their origins' values, the others still have
      the values they had. */
  ghost predicate Copied(src: seq<int>, was: seq<int>, dst: array<int>, places: seq<Place>, origins: seq<nat>,
    offset: nat, x: nat, y: nat, row: nat)
    requires |places| == |origins| && offset + |places| <= dst.Length == |was|
    reads dst
  {
    && (forall d {:trigger places[d]} | 0 <= d < |places| ::
          if Before(places[d], x, y, row) then
            offset + origins[d] < |src| && dst[offset + d] == src[offset + origins[d]]
          else dst[offset + d] == was[offset + d])
    && (forall e | 0 <= e < dst.Length && !(offset <= e < offset + |places|) :: dst[e] == was[e])
  }

  lemma LinearIndex(x: nat, y: nat, row: nat, width: nat, j: nat)
    requires j == 16 * row
    ensures width * 32 * y + width * j / 16 + x * 16 == Linear(Place(x, y, row, 0), width)
  {
    assert width * 32 * y == 32 * (width * y);
    assert width * j == 16 * (width * row);
    assert width * (32 * y + row) == 32 * (width * y) + width * row;
  }

  lemma TileRowFits(x: nat, y: nat, row: nat, width: nat, rows: nat)
    requires Inside(Place(x, y, row, 0), width, rows)
    ensures Linear(Place(x, y, row, 0), width) + 16 <= LinearSize(width, rows)
    ensures Tiled(Place(x, y, row, 0), width) + 16 <= TiledSize(width, rows)
  {
    PlaceOfLinear(Place(x, y, row, 15), width, rows);
    TiledFits(Place(x, y, row, 15), width, rows);
  }

  lemma RowOfTables(places: seq<Place>, origins: seq<nat>, x: nat, y: nat, row: nat, width: nat, rows: nat)
    requires Tables(places, origins, width, rows) && Inside(Place(x, y, row, 0), width, rows)
    ensures RowIs(places, origins, x, y, row, Linear(Place(x, y, row, 0), width), Tiled(Place(x, y, row, 0), width))
    ensures Tiled(Place(x, y, row, 0), width) + 16 <= TiledSize(width, rows)
  {
    TileRowFits(x, y, row, width, rows);
    var l := Linear(Place(x, y, row, 0), width);
    forall d | 0 <= d < |places|
      ensures l <= d < l + 16 <==> places[d].x == x && places[d].y == y && places[d].row == row
      ensures l <= d < l + 16 ==> origins[d] == Tiled(Place(x, y, row, 0), width) + d - l
    {
      TileRow(x, y, row, d, width, rows);
    }
  }

  method CopyMemory(src: seq<int>, s: nat, dst: array<int>, d: nat, n: nat)
    requires s + n <= |src| && d + n <= dst.Length
    modifies dst
    ensures forall e {:trigger dst[e]} | 0 <= e < dst.Length ::
      dst[e] == if d <= e < d + n then src[s + e - d] else old(dst[e])
  {
    for i := 0 to n
      invariant forall e {:trigger dst[e]} | 0 <= e < dst.Length ::
        dst[e] == if d <= e < d + i then src[s + e - d] else old(dst[e])
    {
      dst[d + i] := src[s + i];
    }
  }

  /** One row of one tile. */
  method CopyTileRow(src: seq<int>, s: nat, dst: array<int>, l: nat, offset: nat, ghost was: seq<int>,
                     ghost places: seq<Place>, ghost origins: seq<nat>, ghost x: nat, ghost y: nat, ghost row: nat)
    requires RowIs(places, origins, x, y, row, l, s)
    requires offset + |places| <= dst.Length == |was| && offset + s + 16 <= |src|
    requires Copied(src, was, dst, places, origins, offset, x, y, row)
    modifies dst
    ensures Copied(src, was, dst, places, origins, offset, x, y, row + 1)
  {
    CopyMemory(src, offset + s, dst, offset + l, 16);
  }

  /** One tile, row by row. */
  method OneYtiledToLinear(src: seq<int>, dst: array<int>, x: nat, y: nat, width: nat, offset: nat,
                           ghost was: seq<int>, ghost places: seq<Place>, ghost origins: seq<nat>, ghost rows: nat)
    requires Tables(places, origins, width, rows) && x < width / 16 && y < rows
    requires offset + |places| <= dst.Length == |was| && offset + TiledSize(width, rows) <= |src|
    requires Copied(src, was, dst, places, origins, offset, x, y, 0)
    modifies dst
    ensures Copied(src, was, dst, places, origins, offset, x, y, 32)
  {
    var count := x + y * width / TILE_WIDTH;
    var j := 0;
    ghost var row := 0;
    while j < TILE_WIDTH * TILE_HEIGHT
      invariant 0 <= row <= 32 && j == 16 * row
      invariant Copied(src, was, dst, places, origins, offset, x, y, row)
    {
      LinearIndex(x, y, row, width, j);
      RowOfTables(places, origins, x, y, row, width, rows);
      var to := width * TILE_HEIGHT * y + width * j / TILE_WIDTH + x * TILE_WIDTH;
      var from := j + TILE_WIDTH * TILE_HEIGHT * count;
      CopyTileRow(src, from, dst, to, offset, was, places, origins, x, y, row);
      j := j + TILE_WIDTH;
      row := row + 1;
    }
  }

  /** The value of byte e after a plane was copied to offset: its origin's in a whole tile of
      the plane, the one it had elsewhere. */
  ghost predicate PlaneByte(src: seq<int>, was: int, now: int, width: nat, rows: nat, offset: nat, e: nat)
    requires width > 0
  {
    if offset <= e < offset + LinearSize(width, rows) && Covered(e - offset, width) then
      offset + Origin(e - offset, width) < |src| && now == src[offset + Origin(e - offset, width)]
    else now == was
  }

  /** A plane: a column of tiles after the other. */
  method DetilePlane(src: seq<int>, dst: array<int>, stride: nat, hcount: nat, offset: nat)
    requires stride > 0
    requires offset + LinearSize(stride, hcount) <= dst.Length && offset + TiledSize(stride, hcount) <= |src|
    modifies dst
    ensures forall e | 0 <= e < dst.Length :: PlaneByte(src, old(dst[e]), dst[e], stride, hcount, offset, e)
  {
    ghost var was := dst[..];
    ghost var size := LinearSize(stride, hcount);
    ghost var places := seq(size, d requires d >= 0 => PlaceAt(d, stride));
    ghost var origins := seq(size, d requires d >= 0 => Origin(d, stride));
    CopyColumns(src, dst, stride, hcount, offset, was, places, origins);
    forall e | 0 <= e < dst.Length
      ensures PlaneByte(src, was[e], dst[e], stride, hcount, offset, e)
    {
      if offset <= e < offset + size {
        var d := e - offset;
        assert places[d] == PlaceAt(d, stride) && origins[d] == Origin(d, stride);
        assert Before(places[d], stride / 16, 0, 0) <==> Covered(d, stride);
      }
    }
  }

  method CopyColumns(src: seq<int>, dst: array<int>, stride: nat, hcount: nat, offset: nat,
                     ghost was: seq<int>, ghost places: seq<Place>, ghost origins: seq<nat>)
    requires Tables(places, origins, stride, hcount) && was == dst[..]
    requires offset + |places| <= dst.Length && offset + TiledSize(stride, hcount) <= |src|
    modifies dst
    ensures Copied(src, was, dst, places, origins, offset, stride / 16, 0, 0)
  {
    PlacesInside(places, origins, stride, hcount);
    for x := 0 to stride / TILE_WIDTH
      invariant Copied(src, was, dst, places, origins, offset, x, 0, 0)
    {
      for y := 0 to hcount
        invariant Copied(src, was, dst, places, origins, offset, x, y, 0)
      {
        OneYtiledToLinear(src, dst, x, y, stride, offset, was, places, origins, hcount);
      }
    }
  }

  lemma RowBelow(line: nat, rows: nat)
    requires line < 32 * rows
    ensures line / 32 < rows && line % 32 < 32
  {
  }

  lemma PlacesInside(places: seq<Place>, origins: seq<nat>, width: nat, rows: nat)
    requires Tables(places, origins, width, rows)
    ensures forall d | 0 <= d < |places| :: places[d].y < rows && places[d].row < 32
  {
    forall d | 0 <= d < |places|
      ensures places[d].y < rows && places[d].row < 32
    {
      LineOf(d, width, rows);
      RowBelow(d / width, rows);
    }
  }

  /** The rows of tiles for height rows of luma, and the number the code takes for chroma. */
  function TileRows(height: nat): nat {
    height / TILE_HEIGHT + if height % TILE_HEIGHT != 0 then 1 else 0
  }

  function UvRows(height: nat): nat {
    height / TILE_HEIGHT / 2 + if height % (TILE_HEIGHT * 2) != 0 then 1 else 0
  }

  /** The value of byte e of the picture: chroma from ySize on, which goes over the luma that
      reaches there, luma before it, and zeros elsewhere. */
  ghost predicate PictureByte(src: seq<int>, ySize: nat, stride: nat, yRows: nat, uvRows: nat, now: int, e: nat)
    requires stride > 0
  {
    exists luma ::
      PlaneByte(src, 0, luma, stride, yRows, 0, e) && PlaneByte(src, luma, now, stride, uvRows, ySize, e)
  }

  /** Both planes, over zeros. */
  method DetilePlanes(src: seq<int>, dst: array<int>, ySize: nat, stride: nat, yRows: nat, uvRows: nat)
    requires stride > 0 && forall e | 0 <= e < dst.Length :: dst[e] == 0
    requires LinearSize(stride, yRows) <= dst.Length && ySize + LinearSize(stride, uvRows) <= dst.Length
    requires TiledSize(stride, yRows) <= |src| && ySize + TiledSize(stride, uvRows) <= |src|
    modifies dst
    ensures forall e | 0 <= e < dst.Length :: PictureByte(src, ySize, stride, yRows, uvRows, dst[e], e)
  {
    DetilePlane(src, dst, stride, yRows, 0);
    ghost var was := dst[..];
    DetilePlane(src, dst, stride, uvRows, ySize);
    forall e | 0 <= e < dst.Length
      ensures PictureByte(src, ySize, stride, yRows, uvRows, dst[e], e)
    {
      assert PlaneByte(src, 0, was[e], stride, yRows, 0, e);
      assert PlaneByte(src, was[e], dst[e], stride, uvRows, ySize, e);
    }
  }

  /** An NV12 picture: the luma plane, then the chroma plane of half its height. */
  method YtiledToLinear(src: seq<int>, totalSize: nat, ySize: nat, stride: nat) returns (dst: array<int>)
    requires stride > 0
    requires LinearSize(stride, TileRows(ySize / stride)) <= 2 * totalSize
    requires ySize + LinearSize(stride, UvRows(ySize / stride)) <= 2 * totalSize
    requires TiledSize(stride, TileRows(ySize / stride)) <= |src|
    requires ySize + TiledSize(stride, UvRows(ySize / stride)) <= |src|
    ensures fresh(dst) && dst.Length == 2 * totalSize
    ensures forall e | 0 <= e < dst.Length ::
      PictureByte(src, ySize, stride, TileRows(ySize / stride), UvRows(ySize / stride), dst[e], e)
  {
    dst := new int[totalSize * 2](i => 0);
    var h := ySize / stride;
    var yCount := h / TILE_HEIGHT + if h % TILE_HEIGHT != 0 then 1 else 0;
    var uvCount := h / TILE_HEIGHT / 2 + if h % (TILE_HEIGHT * 2) != 0 then 1 else 0;
    DetilePlanes(src, dst, ySize, stride, yCount, uvCount);
  }

  lemma AllCovered(d: nat, width: nat)
    requires width > 0 && width % 16 == 0
    ensures Covered(d, width)
  {
  }

  /** Luma before ySize, chroma behind it, zeros behind both. */
  ghost predicate InPlanes(src: seq<int>, stride: nat, uvRows: nat, ySize: nat, now: int, e: nat)
    requires stride > 0
  {
    if e < ySize then Origin(e, stride) < |src| && now == src[Origin(e, stride)]
    else if e < ySize + LinearSize(stride, uvRows) then
      ySize + Origin(e - ySize, stride) < |src| && now == src[ySize + Origin(e - ySize, stride)]
    else now == 0
  }

  /** With whole tiles the two planes do not overlap: each byte comes from its origin. The
      chroma plane then has the tiles that half the luma's height takes. */
  lemma WholeTiles(src: seq<int>, stride: nat, rows: nat, now: int, e: nat)
    requires stride > 0 && stride % 16 == 0
    requires PictureByte(src, LinearSize(stride, rows), stride, rows, UvRows(32 * rows), now, e)
    ensures InPlanes(src, stride, TileRows(16 * rows), LinearSize(stride, rows), now, e)
  {
    RowsOfWholeTiles(rows);
    AllCovered(e, stride);
    if e >= LinearSize(stride, rows) {
      AllCovered(e - LinearSize(stride, rows), stride);
    }
  }

  lemma RowsOfWholeTiles(rows: nat)
    ensures TileRows(32 * rows) == rows && UvRows(32 * rows) == TileRows(16 * rows)
  {
  }

  /** The height the code works out for such a picture. */
  lemma HeightOfWholeTiles(stride: nat, rows: nat)
    requires stride > 0
    ensures LinearSize(stride, rows) / stride == 32 * rows
  {
    DivMod(32 * rows, stride, 0);
  }
}
