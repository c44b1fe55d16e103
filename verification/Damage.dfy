/** Damage detection by comparing tiles of two frames (src/grd-damage-utils.c, src/grd-damage-detector-sw.c). */
module Damage {
  type U8 = n: nat | n < 256

  datatype Rect = Rect(x: nat, y: nat, width: nat, height: nat)

  // ----- rows and bytes

  function RowStart(stride: nat, y: nat): nat {
    y * stride
  }

  /** Where byte c of row y lies in a frame. */
  function At(stride: nat, y: nat, c: nat): nat {
    RowStart(stride, y) + c
  }

  lemma RowsAscend(stride: nat, y: nat, last: nat)
    requires y <= last
    ensures RowStart(stride, y) <= RowStart(stride, last)
  {
  }

  /** The frame holds that many rows, of which the last ends with the bytes that are used. */
  predicate Holds(data: seq<U8>, stride: nat, used: nat, height: nat) {
    height > 0 ==> RowStart(stride, height - 1) + used <= |data|
  }

  function Byte(data: seq<U8>, stride: nat, used: nat, height: nat, y: nat, c: nat): U8
    requires Holds(data, stride, used, height) && y < height && c < used
  {
    RowsAscend(stride, y, height - 1);
    data[At(stride, y, c)]
  }

  /** The bytes of the two frames differ somewhere in columns lo..hi of rows top..bottom. */
  ghost predicate Differ(a: seq<U8>, b: seq<U8>, stride: nat, used: nat, height: nat, lo: nat, hi: nat, top: nat, bottom: nat)
    requires Holds(a, stride, used, height) && Holds(b, stride, used, height) && hi <= used && bottom <= height
  {
    exists y, c :: top <= y < bottom && lo <= c < hi && Byte(a, stride, used, height, y, c) != Byte(b, stride, used, height, y, c)
  }

  predicate TileFits(tile: Rect, used: nat, height: nat, bytesPerPixel: nat) {
    tile.x * bytesPerPixel + tile.width * bytesPerPixel <= used && tile.y + tile.height <= height
  }

  ghost predicate TileDiffers(a: seq<U8>, b: seq<U8>, stride: nat, used: nat, height: nat, bytesPerPixel: nat, tile: Rect)
    requires Holds(a, stride, used, height) && Holds(b, stride, used, height) && TileFits(tile, used, height, bytesPerPixel)
  {
    Differ(a, b, stride, used, height, tile.x * bytesPerPixel, tile.x * bytesPerPixel + tile.width * bytesPerPixel,
           tile.y, tile.y + tile.height)
  }

  /** A stretch of a row, as a slice of the frame. */
  lemma RowSlice(a: seq<U8>, stride: nat, used: nat, height: nat, lo: nat, hi: nat, y: nat)
    requires Holds(a, stride, used, height) && lo <= hi <= used && y < height
    ensures RowStart(stride, y) + hi <= |a|
    ensures var row := a[RowStart(stride, y) + lo..RowStart(stride, y) + hi];
            |row| == hi - lo && forall i :: 0 <= i < hi - lo ==> row[i] == Byte(a, stride, used, height, y, lo + i)
  {
    RowsAscend(stride, y, height - 1);
  }

  /** What comparing one row's bytes tells. */
  lemma RowCompares(a: seq<U8>, b: seq<U8>, stride: nat, used: nat, height: nat, lo: nat, hi: nat, y: nat)
    requires Holds(a, stride, used, height) && Holds(b, stride, used, height) && lo <= hi <= used && y < height
    requires RowStart(stride, y) + hi <= |a| && RowStart(stride, y) + hi <= |b|
    ensures a[RowStart(stride, y) + lo..RowStart(stride, y) + hi] != b[RowStart(stride, y) + lo..RowStart(stride, y) + hi]
            <==> Differ(a, b, stride, used, height, lo, hi, y, y + 1)
  {
    RowSlice(a, stride, used, height, lo, hi, y);
    RowSlice(b, stride, used, height, lo, hi, y);
    SlicesDiffer(a, b, stride, used, height, lo, hi, y, a[RowStart(stride, y) + lo..RowStart(stride, y) + hi],
                 b[RowStart(stride, y) + lo..RowStart(stride, y) + hi]);
  }

  lemma SlicesDiffer(a: seq<U8>, b: seq<U8>, stride: nat, used: nat, height: nat, lo: nat, hi: nat, y: nat, ra: seq<U8>, rb: seq<U8>)
    requires Holds(a, stride, used, height) && Holds(b, stride, used, height) && lo <= hi <= used && y < height
    requires |ra| == |rb| == hi - lo
    requires forall i :: 0 <= i < hi - lo ==> ra[i] == Byte(a, stride, used, height, y, lo + i)
    requires forall i :: 0 <= i < hi - lo ==> rb[i] == Byte(b, stride, used, height, y, lo + i)
    ensures ra != rb <==> Differ(a, b, stride, used, height, lo, hi, y, y + 1)
  {
    if ra != rb {
      var i :| 0 <= i < hi - lo && ra[i] != rb[i];
      assert Byte(a, stride, used, height, y, lo + i) != Byte(b, stride, used, height, y, lo + i);
    } else {
      forall c | lo <= c < hi ensures Byte(a, stride, used, height, y, c) == Byte(b, stride, used, height, y, c) {
        assert ra[c - lo] == rb[c - lo] && lo + (c - lo) == c;
      }
    }
  }

  /** grd_is_tile_dirty: rows are compared until one differs. */
  method IsTileDirty(tile: Rect, current: array<U8>, previous: array<U8>, stride: nat, ghost used: nat, ghost height: nat,
                     bytesPerPixel: nat) returns (dirty: bool)
    requires Holds(current[..], stride, used, height) && Holds(previous[..], stride, used, height)
    requires TileFits(tile, used, height, bytesPerPixel)
    ensures dirty <==> TileDiffers(current[..], previous[..], stride, used, height, bytesPerPixel, tile)
  {
    var lo, n := tile.x * bytesPerPixel, tile.width * bytesPerPixel;
    var y := tile.y;
    while y < tile.y + tile.height
      invariant tile.y <= y <= tile.y + tile.height
      invariant !Differ(current[..], previous[..], stride, used, height, lo, lo + n, tile.y, y)
    {
      RowSlice(current[..], stride, used, height, lo, lo + n, y);
      RowSlice(previous[..], stride, used, height, lo, lo + n, y);
      RowCompares(current[..], previous[..], stride, used, height, lo, lo + n, y);
      var start := RowStart(stride, y) + lo;
      if previous[start..start + n] != current[start..start + n] {
        return true;
      }
      y := y + 1;
    }
    return false;
  }

  /** A tile differs exactly if some byte of it does, at y * stride + c in both frames. */
  lemma TileDiffersIff(a: seq<U8>, b: seq<U8>, stride: nat, used: nat, height: nat, bytesPerPixel: nat, tile: Rect)
    requires Holds(a, stride, used, height) && Holds(b, stride, used, height) && TileFits(tile, used, height, bytesPerPixel)
    ensures TileDiffers(a, b, stride, used, height, bytesPerPixel, tile) <==>
            exists y: nat, c: nat :: ByteOfTile(tile, bytesPerPixel, y, c) && DiffersAt(a, b, y * stride + c)
  {
    if y: nat, c: nat :| ByteOfTile(tile, bytesPerPixel, y, c) && DiffersAt(a, b, y * stride + c) {
      RowsAscend(stride, y, height - 1);
      assert Byte(a, stride, used, height, y, c) != Byte(b, stride, used, height, y, c);
    }
    if TileDiffers(a, b, stride, used, height, bytesPerPixel, tile) {
      var lo, n := tile.x * bytesPerPixel, tile.width * bytesPerPixel;
      var y, c :| tile.y <= y < tile.y + tile.height && lo <= c < lo + n &&
                  Byte(a, stride, used, height, y, c) != Byte(b, stride, used, height, y, c);
      RowsAscend(stride, y, height - 1);
      assert ByteOfTile(tile, bytesPerPixel, y, c) && DiffersAt(a, b, y * stride + c);
    }
  }

  predicate ByteOfTile(tile: Rect, bytesPerPixel: nat, y: nat, c: nat) {
    tile.y <= y < tile.y + tile.height &&
    tile.x * bytesPerPixel <= c < tile.x * bytesPerPixel + tile.width * bytesPerPixel
  }

  predicate DiffersAt(a: seq<U8>, b: seq<U8>, i: nat) {
    i < |a| && i < |b| && a[i] != b[i]
  }

  // ----- tiles

  function TilesAcross(size: nat, tile: nat): nat
    requires tile > 0
  {
    size / tile + if size % tile == 0 then 0 else 1
  }

  /** The tile of a column and a row, clipped at the edge of the surface. */
  function TileAt(width: nat, height: nat, tileWidth: nat, tileHeight: nat, col: nat, row: nat): Rect
    requires col * tileWidth <= width && row * tileHeight <= height
  {
    Rect(col * tileWidth, row * tileHeight,
         if width - col * tileWidth < tileWidth then width - col * tileWidth else tileWidth,
         if height - row * tileHeight < tileHeight then height - row * tileHeight else tileHeight)
  }

  predicate Inside(r: Rect, px: nat, py: nat) {
    r.x <= px < r.x + r.width && r.y <= py < r.y + r.height
  }

  lemma MultipleAbove(i: nat, j: nat, tile: nat)
    ensures i < j ==> i * tile + tile <= j * tile
  {
    assert (i + 1) * tile == i * tile + tile;
    assert i < j ==> (i + 1) * tile <= j * tile;
  }

  lemma TileStarts(size: nat, tile: nat, i: nat)
    requires tile > 0 && i < TilesAcross(size, tile)
    ensures i * tile < size
  {
    assert size == size / tile * tile + size % tile;
    MultipleAbove(i, size / tile, tile);
  }

  lemma TileOf(p: nat, size: nat, tile: nat)
    requires tile > 0 && p < size
    ensures p / tile < TilesAcross(size, tile)
    ensures p / tile * tile <= p < p / tile * tile + tile
  {
    assert size == size / tile * tile + size % tile;
    assert p == p / tile * tile + p % tile;
    MultipleAbove(size / tile, p / tile, tile);
  }

  lemma OnlyTileOf(p: nat, tile: nat, i: nat)
    requires tile > 0 && i * tile <= p < i * tile + tile
    ensures i == p / tile
  {
    assert p == p / tile * tile + p % tile;
    MultipleAbove(i, p / tile, tile);
    MultipleAbove(p / tile, i, tile);
  }

  /** The tiles partition the surface: a pixel is inside exactly one of them. */
  lemma TilesPartition(width: nat, height: nat, tileWidth: nat, tileHeight: nat, px: nat, py: nat, col: nat, row: nat)
    requires tileWidth > 0 && tileHeight > 0 && px < width && py < height
    requires col < TilesAcross(width, tileWidth) && row < TilesAcross(height, tileHeight)
    ensures col * tileWidth < width && row * tileHeight < height
    ensures Inside(TileAt(width, height, tileWidth, tileHeight, col, row), px, py) <==>
            col == px / tileWidth && row == py / tileHeight
    ensures px / tileWidth < TilesAcross(width, tileWidth) && py / tileHeight < TilesAcross(height, tileHeight)
  {
    TileStarts(width, tileWidth, col);
    TileStarts(height, tileHeight, row);
    TileOf(px, width, tileWidth);
    TileOf(py, height, tileHeight);
    if Inside(TileAt(width, height, tileWidth, tileHeight, col, row), px, py) {
      OnlyTileOf(px, tileWidth, col);
      OnlyTileOf(py, tileHeight, row);
    }
  }

  // ----- a surface cut into tiles

  datatype Surface = Surface(width: nat, height: nat, tileWidth: nat, tileHeight: nat, stride: nat, bytesPerPixel: nat) {
    predicate Valid() {
      tileWidth > 0 && tileHeight > 0 && Used() <= stride
    }

    /** The bytes of a row that belong to pixels. */
    function Used(): nat {
      width * bytesPerPixel
    }

    function Cols(): nat
      requires Valid()
    {
      TilesAcross(width, tileWidth)
    }

    function Rows(): nat
      requires Valid()
    {
      TilesAcross(height, tileHeight)
    }

    /** The column and the row of tiles a pixel belongs to. */
    function Col(px: nat): nat
      requires Valid()
    {
      px / tileWidth
    }

    function Row(py: nat): nat
      requires Valid()
    {
      py / tileHeight
    }

    predicate HasTile(col: nat, row: nat)
      requires Valid()
    {
      col < Cols() && row < Rows()
    }

    function Tile(col: nat, row: nat): (tile: Rect)
      requires Valid() && HasTile(col, row)
      ensures TileFits(tile, Used(), height, bytesPerPixel)
    {
      TileStarts(width, tileWidth, col);
      TileStarts(height, tileHeight, row);
      var tile := TileAt(width, height, tileWidth, tileHeight, col, row);
      TileWidthFits(tile.x, tile.width, width, bytesPerPixel);
      tile
    }

    predicate HasPixel(px: nat, py: nat) {
      px < width && py < height
    }

    ghost predicate Marked(a: seq<U8>, b: seq<U8>, col: nat, row: nat)
      requires Valid() && Holds(a, stride, Used(), height) && Holds(b, stride, Used(), height) && HasTile(col, row)
    {
      TileDiffers(a, b, stride, Used(), height, bytesPerPixel, Tile(col, row))
    }

    lemma PixelHasTile(px: nat, py: nat)
      requires Valid() && HasPixel(px, py)
      ensures HasTile(Col(px), Row(py))
    {
      TileOf(px, width, tileWidth);
      TileOf(py, height, tileHeight);
    }

    /** Whether the tile of a pixel is marked. */
    ghost predicate PixelMarked(a: seq<U8>, b: seq<U8>, px: nat, py: nat)
      requires Valid() && Holds(a, stride, Used(), height) && Holds(b, stride, Used(), height) && HasPixel(px, py)
    {
      PixelHasTile(px, py);
      Marked(a, b, Col(px), Row(py))
    }
  }

  lemma TileWidthFits(x: nat, tileWidth: nat, width: nat, bytesPerPixel: nat)
    requires x + tileWidth <= width
    ensures x * bytesPerPixel + tileWidth * bytesPerPixel <= width * bytesPerPixel
  {
    assert x * bytesPerPixel + tileWidth * bytesPerPixel == (x + tileWidth) * bytesPerPixel;
    assert (x + tileWidth) * bytesPerPixel <= width * bytesPerPixel;
  }

  // ----- the region of damaged pixels

  function Pixels(r: Rect): set<(nat, nat)> {
    set px: nat, py: nat | r.x <= px < r.x + r.width && r.y <= py < r.y + r.height :: (px, py)
  }

  /** Tiles are visited row by row. */
  predicate Before(col: nat, row: nat, x: nat, y: nat) {
    row < y || (row == y && col < x)
  }

  /** The region holds the pixels of the marked tiles visited so far. */
  ghost predicate RegionUpTo(s: Surface, a: seq<U8>, b: seq<U8>, region: set<(nat, nat)>, x: nat, y: nat)
    requires s.Valid() && Holds(a, s.stride, s.Used(), s.height) && Holds(b, s.stride, s.Used(), s.height)
  {
    forall px: nat, py: nat {:trigger (px, py) in region} ::
      (px, py) in region <==>
      s.HasPixel(px, py) && Before(s.Col(px), s.Row(py), x, y) && s.PixelMarked(a, b, px, py)
  }

  /** grd_get_damage_region; the region is the set of its pixels. */
  method GetDamageRegion(s: Surface, current: array?<U8>, previous: array?<U8>) returns (region: set<(nat, nat)>)
    requires s.Valid()
    requires current != null ==> Holds(current[..], s.stride, s.Used(), s.height)
    requires previous != null ==> Holds(previous[..], s.stride, s.Used(), s.height)
    ensures forall px: nat, py: nat {:trigger (px, py) in region} ::
              (px, py) in region <==>
              s.HasPixel(px, py) && (current == null || previous == null || s.PixelMarked(current[..], previous[..], px, py))
  {
    region := {};
    if current == null || previous == null {
      return Pixels(Rect(0, 0, s.width, s.height));
    }
    var cols, rows := TilesAcross(s.width, s.tileWidth), TilesAcross(s.height, s.tileHeight);
    var y := 0;
    while y < rows
      invariant 0 <= y <= rows && RegionUpTo(s, current[..], previous[..], region, 0, y)
    {
      var x := 0;
      while x < cols
        invariant 0 <= x <= cols && RegionUpTo(s, current[..], previous[..], region, x, y)
      {
        var tile := s.Tile(x, y);
        var dirty := IsTileDirty(tile, current, previous, s.stride, s.Used(), s.height, s.bytesPerPixel);
        VisitTile(s, current[..], previous[..], region, x, y, dirty);
        if dirty {
          region := region + Pixels(tile);
        }
        x := x + 1;
      }
      NextRow(s, current[..], previous[..], region, y);
      y := y + 1;
    }
    AllVisited(s, current[..], previous[..], region);
  }

  lemma PixelsOfTile(s: Surface, x: nat, y: nat, px: nat, py: nat)
    requires s.Valid() && s.HasTile(x, y)
    ensures (px, py) in Pixels(s.Tile(x, y)) <==>
            s.HasPixel(px, py) && s.Col(px) == x && s.Row(py) == y
  {
    TileStarts(s.width, s.tileWidth, x);
    TileStarts(s.height, s.tileHeight, y);
    if s.HasPixel(px, py) {
      TilesPartition(s.width, s.height, s.tileWidth, s.tileHeight, px, py, x, y);
    }
  }

  lemma VisitTile(s: Surface, a: seq<U8>, b: seq<U8>, region: set<(nat, nat)>, x: nat, y: nat, dirty: bool)
    requires s.Valid() && Holds(a, s.stride, s.Used(), s.height) && Holds(b, s.stride, s.Used(), s.height) && s.HasTile(x, y)
    requires RegionUpTo(s, a, b, region, x, y) && dirty == s.Marked(a, b, x, y)
    ensures RegionUpTo(s, a, b, if dirty then region + Pixels(s.Tile(x, y)) else region, x + 1, y)
  {
    var tile := Pixels(s.Tile(x, y));
    forall px: nat, py: nat
      ensures (px, py) in (if dirty then region + tile else region) <==>
              s.HasPixel(px, py) && Before(s.Col(px), s.Row(py), x + 1, y) && s.PixelMarked(a, b, px, py)
    {
      PixelsOfTile(s, x, y, px, py);
      VisitPixel(s, a, b, px, py, x, y);
      assert (px, py) in region <==>
             s.HasPixel(px, py) && Before(s.Col(px), s.Row(py), x, y) && s.PixelMarked(a, b, px, py);
    }
  }

  lemma VisitPixel(s: Surface, a: seq<U8>, b: seq<U8>, px: nat, py: nat, x: nat, y: nat)
    requires s.Valid() && Holds(a, s.stride, s.Used(), s.height) && Holds(b, s.stride, s.Used(), s.height) && s.HasTile(x, y)
    ensures var col, row := s.Col(px), s.Row(py);
            Before(col, row, x + 1, y) <==> Before(col, row, x, y) || (col == x && row == y)
    ensures s.HasPixel(px, py) && s.Col(px) == x && s.Row(py) == y ==>
              s.PixelMarked(a, b, px, py) == s.Marked(a, b, x, y)
  {
  }

  lemma NextRow(s: Surface, a: seq<U8>, b: seq<U8>, region: set<(nat, nat)>, y: nat)
    requires s.Valid() && Holds(a, s.stride, s.Used(), s.height) && Holds(b, s.stride, s.Used(), s.height)
    requires RegionUpTo(s, a, b, region, s.Cols(), y)
    ensures RegionUpTo(s, a, b, region, 0, y + 1)
  {
    forall px: nat, py: nat | s.HasPixel(px, py) ensures s.Col(px) < s.Cols() {
      s.PixelHasTile(px, py);
    }
  }

  lemma AllVisited(s: Surface, a: seq<U8>, b: seq<U8>, region: set<(nat, nat)>)
    requires s.Valid() && Holds(a, s.stride, s.Used(), s.height) && Holds(b, s.stride, s.Used(), s.height)
    requires RegionUpTo(s, a, b, region, 0, s.Rows())
    ensures forall px: nat, py: nat {:trigger (px, py) in region} ::
              (px, py) in region <==> s.HasPixel(px, py) && s.PixelMarked(a, b, px, py)
  {
    forall px: nat, py: nat | s.HasPixel(px, py) ensures s.Row(py) < s.Rows() {
      s.PixelHasTile(px, py);
    }
  }

  // ----- the damage buffer: one flag a tile

  function Index(col: nat, row: nat, cols: nat): nat {
    row * cols + col
  }

  lemma IndexFits(col: nat, row: nat, cols: nat, rows: nat)
    requires col < cols && row < rows
    ensures Index(col, row, cols) < cols * rows
  {
    MultipleAbove(row, rows, cols);
  }

  lemma IndexIsUnique(col: nat, row: nat, cols: nat)
    requires col < cols
    ensures forall c: nat, r: nat :: c < cols && Index(c, r, cols) == Index(col, row, cols) ==> c == col && r == row
  {
    forall c: nat, r: nat | c < cols && Index(c, r, cols) == Index(col, row, cols)
      ensures c == col && r == row
    {
      MultipleAbove(r, row, cols);
      MultipleAbove(row, r, cols);
    }
  }

  /** The flag of a tile. */
  function Flag(s: Surface, flags: seq<nat>, col: nat, row: nat): nat
    requires s.Valid() && s.HasTile(col, row) && |flags| == s.Cols() * s.Rows()
  {
    IndexFits(col, row, s.Cols(), s.Rows());
    flags[Index(col, row, s.Cols())]
  }

  /** Flags lie row by row. */
  lemma FlagLiesAt(s: Surface, flags: seq<nat>, col: nat, row: nat)
    requires s.Valid() && s.HasTile(col, row) && |flags| == s.Cols() * s.Rows()
    ensures row * s.Cols() + col < |flags| && Flag(s, flags, col, row) == flags[row * s.Cols() + col]
  {
    IndexFits(col, row, s.Cols(), s.Rows());
  }

  /** The flags of the tiles visited so far say which of them differ. */
  ghost predicate FlagsUpTo(s: Surface, a: seq<U8>, b: seq<U8>, flags: seq<nat>, x: nat, y: nat)
    requires s.Valid() && Holds(a, s.stride, s.Used(), s.height) && Holds(b, s.stride, s.Used(), s.height)
  {
    && |flags| == s.Cols() * s.Rows()
    && forall col, row :: s.HasTile(col, row) && Before(col, row, x, y) ==>
         Flag(s, flags, col, row) == if s.Marked(a, b, col, row) then 1 else 0
  }

  /** Exactly the tiles that differ are marked. */
  ghost predicate MarksDamage(s: Surface, a: seq<U8>, b: seq<U8>, flags: seq<nat>)
    requires s.Valid() && Holds(a, s.stride, s.Used(), s.height) && Holds(b, s.stride, s.Used(), s.height)
  {
    && |flags| == s.Cols() * s.Rows()
    && forall col, row :: s.HasTile(col, row) ==> Flag(s, flags, col, row) == if s.Marked(a, b, col, row) then 1 else 0
  }

  ghost predicate MarksEverything(s: Surface, flags: seq<nat>)
    requires s.Valid()
  {
    |flags| == s.Cols() * s.Rows() && forall col, row :: s.HasTile(col, row) ==> Flag(s, flags, col, row) == 1
  }

  lemma FlagSet(s: Surface, a: seq<U8>, b: seq<U8>, flags: seq<nat>, x: nat, y: nat, dirty: bool)
    requires s.Valid() && Holds(a, s.stride, s.Used(), s.height) && Holds(b, s.stride, s.Used(), s.height) && s.HasTile(x, y)
    requires FlagsUpTo(s, a, b, flags, x, y) && dirty == s.Marked(a, b, x, y)
    ensures Index(x, y, s.Cols()) < |flags|
    ensures FlagsUpTo(s, a, b, flags[Index(x, y, s.Cols()) := if dirty then 1 else 0], x + 1, y)
  {
    IndexFits(x, y, s.Cols(), s.Rows());
    IndexIsUnique(x, y, s.Cols());
    var flags' := flags[Index(x, y, s.Cols()) := if dirty then 1 else 0];
    forall col, row | s.HasTile(col, row) && Before(col, row, x + 1, y)
      ensures Flag(s, flags', col, row) == if s.Marked(a, b, col, row) then 1 else 0
    {
      IndexFits(col, row, s.Cols(), s.Rows());
      if Index(col, row, s.Cols()) != Index(x, y, s.Cols()) {
        assert Before(col, row, x, y);
        assert Flag(s, flags', col, row) == Flag(s, flags, col, row);
      }
    }
  }

  // ----- what the flags are for

  /** A byte of the frame one gets by copying the marked tiles of the new frame over the old one. */
  function Patched(s: Surface, newer: seq<U8>, older: seq<U8>, flags: seq<nat>, y: nat, c: nat): U8
    requires s.Valid() && Holds(newer, s.stride, s.Used(), s.height) && Holds(older, s.stride, s.Used(), s.height)
    requires |flags| == s.Cols() * s.Rows() && y < s.height && c < s.Used()
  {
    ByteHasPixel(s, c);
    s.PixelHasTile(c / s.bytesPerPixel, y);
    if Flag(s, flags, s.Col(c / s.bytesPerPixel), s.Row(y)) != 0 then Byte(newer, s.stride, s.Used(), s.height, y, c)
    else Byte(older, s.stride, s.Used(), s.height, y, c)
  }

  lemma ByteHasPixel(s: Surface, c: nat)
    requires s.Valid() && c < s.Used()
    ensures s.bytesPerPixel > 0 && c / s.bytesPerPixel < s.width && c < s.stride
  {
    assert s.bytesPerPixel > 0;
    assert c == c / s.bytesPerPixel * s.bytesPerPixel + c % s.bytesPerPixel;
    MultipleAbove(s.width, c / s.bytesPerPixel, s.bytesPerPixel);
    assert c / s.bytesPerPixel == s.width ==> c / s.bytesPerPixel * s.bytesPerPixel == s.width * s.bytesPerPixel;
  }

  /** A byte is in the byte columns of a tile exactly if its pixel is in the pixel columns. */
  lemma ByteInColumns(c: nat, bytesPerPixel: nat, x: nat, width: nat)
    requires bytesPerPixel > 0
    ensures x * bytesPerPixel <= c < x * bytesPerPixel + width * bytesPerPixel <==> x <= c / bytesPerPixel < x + width
  {
    var px := c / bytesPerPixel;
    assert c == px * bytesPerPixel + c % bytesPerPixel;
    assert x * bytesPerPixel + width * bytesPerPixel == (x + width) * bytesPerPixel;
    MultipleAbove(px, x, bytesPerPixel);
    MultipleAbove(x, px, bytesPerPixel);
    MultipleAbove(px, x + width, bytesPerPixel);
    MultipleAbove(x + width, px, bytesPerPixel);
  }

  lemma ByteInTile(s: Surface, col: nat, row: nat, y: nat, c: nat)
    requires s.Valid() && s.HasTile(col, row) && y < s.height && c < s.Used()
    ensures s.bytesPerPixel > 0
    ensures var tile := s.Tile(col, row);
            tile.y <= y < tile.y + tile.height &&
            tile.x * s.bytesPerPixel <= c < tile.x * s.bytesPerPixel + tile.width * s.bytesPerPixel <==>
            s.Col(c / s.bytesPerPixel) == col && s.Row(y) == row
  {
    ByteHasPixel(s, c);
    var tile := s.Tile(col, row);
    ByteInColumns(c, s.bytesPerPixel, tile.x, tile.width);
    PixelsOfTile(s, col, row, c / s.bytesPerPixel, y);
  }

  /** Copying the marked tiles reproduces the new frame exactly if every tile that differs is marked: the
      computed flags are the fewest that do. */
  lemma PatchReproducesIff(s: Surface, newer: seq<U8>, older: seq<U8>, flags: seq<nat>)
    requires s.Valid() && Holds(newer, s.stride, s.Used(), s.height) && Holds(older, s.stride, s.Used(), s.height)
    requires |flags| == s.Cols() * s.Rows()
    ensures (forall y: nat, c: nat :: y < s.height && c < s.Used() ==>
               Patched(s, newer, older, flags, y, c) == Byte(newer, s.stride, s.Used(), s.height, y, c)) <==>
            (forall col, row :: s.HasTile(col, row) && s.Marked(newer, older, col, row) ==> Flag(s, flags, col, row) != 0)
  {
    if forall col, row :: s.HasTile(col, row) && s.Marked(newer, older, col, row) ==> Flag(s, flags, col, row) != 0 {
      forall y: nat, c: nat | y < s.height && c < s.Used()
        ensures Patched(s, newer, older, flags, y, c) == Byte(newer, s.stride, s.Used(), s.height, y, c)
      {
        UnmarkedByteIsSame(s, newer, older, y, c);
      }
    } else {
      var col, row :| s.HasTile(col, row) && s.Marked(newer, older, col, row) && Flag(s, flags, col, row) == 0;
      var y, c := MarkedTileDiffers(s, newer, older, col, row);
      assert Patched(s, newer, older, flags, y, c) == Byte(older, s.stride, s.Used(), s.height, y, c);
    }
  }

  lemma UnmarkedByteIsSame(s: Surface, newer: seq<U8>, older: seq<U8>, y: nat, c: nat)
    requires s.Valid() && Holds(newer, s.stride, s.Used(), s.height) && Holds(older, s.stride, s.Used(), s.height)
    requires y < s.height && c < s.Used()
    ensures s.bytesPerPixel > 0 && s.HasTile(s.Col(c / s.bytesPerPixel), s.Row(y))
    ensures !s.Marked(newer, older, s.Col(c / s.bytesPerPixel), s.Row(y)) ==>
              Byte(newer, s.stride, s.Used(), s.height, y, c) == Byte(older, s.stride, s.Used(), s.height, y, c)
  {
    ByteHasPixel(s, c);
    s.PixelHasTile(c / s.bytesPerPixel, y);
    ByteInTile(s, s.Col(c / s.bytesPerPixel), s.Row(y), y, c);
  }

  lemma MarkedTileDiffers(s: Surface, newer: seq<U8>, older: seq<U8>, col: nat, row: nat) returns (y: nat, c: nat)
    requires s.Valid() && Holds(newer, s.stride, s.Used(), s.height) && Holds(older, s.stride, s.Used(), s.height)
    requires s.HasTile(col, row) && s.Marked(newer, older, col, row)
    ensures y < s.height && c < s.Used()
    ensures s.bytesPerPixel > 0 && s.Col(c / s.bytesPerPixel) == col && s.Row(y) == row
    ensures Byte(newer, s.stride, s.Used(), s.height, y, c) != Byte(older, s.stride, s.Used(), s.height, y, c)
  {
    var lo, n := TileColumns(s, col, row);
    y, c :| s.Tile(col, row).y <= y < s.Tile(col, row).y + s.Tile(col, row).height && lo <= c < lo + n &&
            Byte(newer, s.stride, s.Used(), s.height, y, c) != Byte(older, s.stride, s.Used(), s.height, y, c);
    ByteInTile(s, col, row, y, c);
  }

  lemma TileColumns(s: Surface, col: nat, row: nat) returns (lo: nat, n: nat)
    requires s.Valid() && s.HasTile(col, row)
    ensures lo == s.Tile(col, row).x * s.bytesPerPixel && n == s.Tile(col, row).width * s.bytesPerPixel
    ensures lo + n <= s.Used() <= s.stride
    ensures s.Tile(col, row).y + s.Tile(col, row).height <= s.height
  {
    var tile := s.Tile(col, row);
    lo, n := tile.x * s.bytesPerPixel, tile.width * s.bytesPerPixel;
    TileStarts(s.width, s.tileWidth, col);
    TileWidthFits(tile.x, tile.width, s.width, s.bytesPerPixel);
  }

  /** The marked tiles together are the region that grd_get_damage_region returns for the same tiles. */
  lemma MarkedTilesAreTheRegion(s: Surface, a: seq<U8>, b: seq<U8>, flags: seq<nat>, region: set<(nat, nat)>)
    requires s.Valid() && Holds(a, s.stride, s.Used(), s.height) && Holds(b, s.stride, s.Used(), s.height) && MarksDamage(s, a, b, flags)
    requires forall px: nat, py: nat {:trigger (px, py) in region} ::
               (px, py) in region <==> s.HasPixel(px, py) && s.PixelMarked(a, b, px, py)
    ensures forall px: nat, py: nat :: s.HasPixel(px, py) ==>
              s.HasTile(s.Col(px), s.Row(py)) &&
              ((px, py) in region <==> Flag(s, flags, s.Col(px), s.Row(py)) == 1)
  {
    forall px: nat, py: nat | s.HasPixel(px, py)
      ensures s.HasTile(s.Col(px), s.Row(py)) && ((px, py) in region <==> Flag(s, flags, s.Col(px), s.Row(py)) == 1)
    {
      s.PixelHasTile(px, py);
    }
  }

  // ----- the software damage detector

  const TILE_WIDTH: nat := 64
  const TILE_HEIGHT: nat := 64

  /** grd_get_aligned_size */
  function AlignedSize(size: nat, alignment: nat): nat
    requires alignment > 0
  {
    size + if size % alignment != 0 then alignment - size % alignment else 0
  }

  lemma AlignedTiles(size: nat)
    ensures AlignedSize(size, TILE_WIDTH) / TILE_WIDTH == TilesAcross(size, TILE_WIDTH)
  {
  }

  class DamageDetectorSw {
    const surfaceWidth: nat
    const surfaceHeight: nat
    const damageBufferWidth: nat
    const damageBufferHeight: nat
    const damageBuffer: array<nat>
    const damageBufferLength: nat

    /** The surface as 4 byte pixels in 64 by 64 tiles. */
    function Tiling(stride: nat): Surface {
      Surface(surfaceWidth, surfaceHeight, TILE_WIDTH, TILE_HEIGHT, stride, 4)
    }

    ghost predicate Valid() {
      && damageBufferWidth == TilesAcross(surfaceWidth, TILE_WIDTH)
      && damageBufferHeight == TilesAcross(surfaceHeight, TILE_HEIGHT)
      && damageBufferLength == damageBuffer.Length == damageBufferWidth * damageBufferHeight
    }

    /** create_damage_buffer */
    constructor (surfaceWidth: nat, surfaceHeight: nat)
      ensures Valid() && this.surfaceWidth == surfaceWidth && this.surfaceHeight == surfaceHeight
      ensures fresh(damageBuffer)
      ensures damageBuffer.Length == (surfaceWidth + 63) / 64 * ((surfaceHeight + 63) / 64)
    {
      AlignedTiles(surfaceWidth);
      AlignedTiles(surfaceHeight);
      var width := AlignedSize(surfaceWidth, TILE_WIDTH) / TILE_WIDTH;
      var height := AlignedSize(surfaceHeight, TILE_HEIGHT) / TILE_HEIGHT;
      this.surfaceWidth, this.surfaceHeight := surfaceWidth, surfaceHeight;
      damageBufferWidth, damageBufferHeight, damageBufferLength := width, height, width * height;
      damageBuffer := new nat[width * height](_ => 0);
    }

    method InvalidateSurface()
      requires Valid()
      modifies damageBuffer
      ensures forall i :: 0 <= i < damageBuffer.Length ==> damageBuffer[i] == 1
    {
      var i := 0;
      while i < damageBufferLength
        invariant 0 <= i <= damageBufferLength && forall k :: 0 <= k < i ==> damageBuffer[k] == 1
      {
        damageBuffer[i] := 1;
        i := i + 1;
      }
    }

    method ComputeFrameDamage(newer: array<U8>, older: array<U8>, stride: nat)
      requires Valid() && Tiling(stride).Valid()
      requires Holds(newer[..], stride, Tiling(stride).Used(), surfaceHeight) && Holds(older[..], stride, Tiling(stride).Used(), surfaceHeight)
      modifies damageBuffer
      ensures MarksDamage(Tiling(stride), newer[..], older[..], damageBuffer[..])
    {
      var s := Tiling(stride);
      ghost var a, b := newer[..], older[..];
      var y := 0;
      while y < damageBufferHeight
        invariant 0 <= y <= damageBufferHeight && newer[..] == a && older[..] == b
        invariant FlagsUpTo(s, a, b, damageBuffer[..], 0, y)
      {
        var x := 0;
        while x < damageBufferWidth
          invariant 0 <= x <= damageBufferWidth && newer[..] == a && older[..] == b
          invariant FlagsUpTo(s, a, b, damageBuffer[..], x, y)
        {
          var tile := s.Tile(x, y);
          var tileDamaged := 0;
          var dirty := IsTileDirty(tile, newer, older, stride, Tiling(stride).Used(), surfaceHeight, 4);
          if dirty {
            tileDamaged := 1;
          }
          FlagSet(s, a, b, damageBuffer[..], x, y, dirty);
          var bufferPos := Index(x, y, damageBufferWidth);
          ghost var before := damageBuffer[..];
          damageBuffer[bufferPos] := tileDamaged;
          assert damageBuffer[..] == before[bufferPos := tileDamaged];
          x := x + 1;
        }
        y := y + 1;
      }
    }

    /** grd_damage_detector_sw_compute_damage: without an old frame everything is damaged. */
    method ComputeDamage(newer: array<U8>, older: array?<U8>, stride: nat)
      requires Valid() && Tiling(stride).Valid()
      requires Holds(newer[..], stride, Tiling(stride).Used(), surfaceHeight) && (older != null ==> Holds(older[..], stride, Tiling(stride).Used(), surfaceHeight))
      modifies damageBuffer
      ensures older == null ==> MarksEverything(Tiling(stride), damageBuffer[..])
      ensures older != null ==> MarksDamage(Tiling(stride), newer[..], older[..], damageBuffer[..])
    {
      if older == null {
        InvalidateSurface();
        AllOnes(Tiling(stride), damageBuffer[..]);
        return;
      }
      ComputeFrameDamage(newer, older, stride);
    }
  }

  lemma AllOnes(s: Surface, flags: seq<nat>)
    requires s.Valid() && |flags| == s.Cols() * s.Rows() && forall i :: 0 <= i < |flags| ==> flags[i] == 1
    ensures MarksEverything(s, flags)
  {
    forall col, row | s.HasTile(col, row) ensures Flag(s, flags, col, row) == 1 {
      IndexFits(col, row, s.Cols(), s.Rows());
    }
  }

  /** Whatever the size and the stride, the computed flags reproduce the new frame, with or without an old one. */
  lemma ComputedFlagsReproduce(s: Surface, newer: seq<U8>, older: seq<U8>, flags: seq<nat>, y: nat, c: nat)
    requires s.Valid() && Holds(newer, s.stride, s.Used(), s.height) && Holds(older, s.stride, s.Used(), s.height)
    requires MarksDamage(s, newer, older, flags) || MarksEverything(s, flags)
    requires y < s.height && c < s.Used()
    ensures Patched(s, newer, older, flags, y, c) == Byte(newer, s.stride, s.Used(), s.height, y, c)
  {
    PatchReproducesIff(s, newer, older, flags);
  }
}
