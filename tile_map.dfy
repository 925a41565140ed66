/** The tile stitching of `Route._get_map`: the index rectangle spanned by the
    tiles, the size of the canvas, where each tile is pasted, the paste loop
    itself and the geographic bounds the pasted tiles cover.

    The canvas is modelled one tile cell at a time: `canvas[i, j]` stands for the
    256 by 256 pixel block whose top-left corner is at pixel `(256 * i, 256 * j)`,
    and holds the tile whose image was pasted there last. The lemmas on `OffsetOf`
    and `InRect` tie these cells to the pixel rectangles cairo paints. */
module TileMap {
  import opened Results
  import opened Extrema

  /** Edge length of one tile image in pixels (`tile_size`). */
  const TileSize: int := 256

  /** A slippy-map tile index, as `mercantile.tiles` yields it. */
  datatype Tile = Tile(x: int, y: int, z: int)

  /** The geographic bounds of one tile (`mercantile.bounds`), or of a set of tiles. */
  datatype TileBounds = TileBounds(west: real, south: real, east: real, north: real)

  /** The extreme tile indices `min_x`, `min_y`, `max_x`, `max_y`. */
  datatype Layout = Layout(minX: int, minY: int, maxX: int, maxY: int)
  {
    function Columns(): int { maxX - minX + 1 }
    function Rows(): int { maxY - minY + 1 }
    /** Width of the canvas surface in pixels. */
    function Width(): int { TileSize * Columns() }
    /** Height of the canvas surface in pixels. */
    function Height(): int { TileSize * Rows() }
  }

  /** One tile cell of the canvas: still transparent, or showing a tile's image. */
  datatype Cell = Blank | Painted(tile: Tile)

  /** What `_get_map` returns: the stitched surface and the bounds it covers. */
  datatype StitchedMap = StitchedMap(canvas: array2<Cell>, layout: Layout, bounds: TileBounds)

  /** Pixel offset at which a tile's image is pasted. */
  datatype Offset = Offset(dx: int, dy: int)

  predicate Within(lay: Layout, t: Tile) {
    lay.minX <= t.x <= lay.maxX && lay.minY <= t.y <= lay.maxY
  }

  /** The index rectangle of the tiles; `min` of an empty list raises, which is
      the error result here. Every tile lies in the rectangle and every edge of
      the rectangle is attained by some tile. */
  function ComputeLayout(tiles: seq<Tile>): (r: Result<Layout>)
    ensures r.Err? <==> |tiles| == 0
    ensures r.Err? ==> r.error == EmptyTileSet
    ensures r.Ok? ==> forall t :: t in tiles ==> Within(r.value, t)
    ensures r.Ok? ==> r.value.minX <= r.value.maxX && r.value.minY <= r.value.maxY
    ensures r.Ok? ==> (&& (exists t :: t in tiles && t.x == r.value.minX)
                       && (exists t :: t in tiles && t.x == r.value.maxX)
                       && (exists t :: t in tiles && t.y == r.value.minY)
                       && (exists t :: t in tiles && t.y == r.value.maxY))
  {
    if |tiles| == 0 then Err(EmptyTileSet)
    else
      Ok(Layout(Min(tiles, (t: Tile) => t.x), Min(tiles, (t: Tile) => t.y),
                Max(tiles, (t: Tile) => t.x), Max(tiles, (t: Tile) => t.y)))
  }

  /** The canvas is a whole number of tiles wide and high, at least one in each direction. */
  lemma CanvasSize(tiles: seq<Tile>)
    requires |tiles| > 0
    ensures var lay := ComputeLayout(tiles).value;
      && lay.Width() >= TileSize && lay.Width() % TileSize == 0 && lay.Width() / TileSize == lay.maxX - lay.minX + 1
      && lay.Height() >= TileSize && lay.Height() % TileSize == 0 && lay.Height() / TileSize == lay.maxY - lay.minY + 1
  {
  }

  function OffsetOf(lay: Layout, t: Tile): Offset {
    Offset((t.x - lay.minX) * TileSize, (t.y - lay.minY) * TileSize)
  }

  /** Pixel `(px, py)` of the canvas lies in the block where tile `t` is pasted. */
  predicate InRect(lay: Layout, t: Tile, px: int, py: int) {
    var o := OffsetOf(lay, t);
    o.dx <= px < o.dx + TileSize && o.dy <= py < o.dy + TileSize
  }

  /** Every paste offset is non-negative and the tile's whole block fits on the canvas. */
  lemma TileInsideCanvas(tiles: seq<Tile>, t: Tile)
    requires |tiles| > 0 && t in tiles
    ensures var lay := ComputeLayout(tiles).value; var o := OffsetOf(lay, t);
      && 0 <= o.dx && o.dx + TileSize <= lay.Width()
      && 0 <= o.dy && o.dy + TileSize <= lay.Height()
  {
  }

  /** The top-left tile of the rectangle is pasted at the canvas origin. */
  lemma CornerTileAtOrigin(lay: Layout, t: Tile)
    requires t.x == lay.minX && t.y == lay.minY
    ensures OffsetOf(lay, t) == Offset(0, 0)
  {
  }

  /** Tiles at different indices get different offsets and their blocks do not overlap. */
  lemma DistinctTilesDisjoint(lay: Layout, a: Tile, b: Tile)
    requires (a.x, a.y) != (b.x, b.y)
    ensures OffsetOf(lay, a) != OffsetOf(lay, b)
    ensures forall px, py :: !(InRect(lay, a, px, py) && InRect(lay, b, px, py))
  {
  }

  /** Each pixel belongs to exactly one tile cell: the one at `(px / 256, py / 256)`
      (Euclidean division, so this holds beyond the canvas too). */
  lemma PixelOwner(lay: Layout, t: Tile, px: int, py: int)
    ensures InRect(lay, t, px, py) <==> (t.x - lay.minX == px / TileSize && t.y - lay.minY == py / TileSize)
  {
  }

  /** Tile `t` is pasted into cell `(i, j)` of the grid. */
  predicate Targets(lay: Layout, t: Tile, i: int, j: int) {
    t.x - lay.minX == i && t.y - lay.minY == j
  }

  /** The content of cell `(i, j)` after pasting `tiles` in list order, opaquely,
      onto a cell that held `init`. */
  function PastedCell(tiles: seq<Tile>, lay: Layout, i: int, j: int, init: Cell): Cell
  {
    if |tiles| == 0 then init
    else
      var last := tiles[|tiles| - 1];
      if Targets(lay, last, i, j) then Painted(last)
      else PastedCell(tiles[..|tiles| - 1], lay, i, j, init)
  }

  /** A cell that no tile of the list targets keeps what it held. */
  lemma {:induction false} UntargetedCellKept(tiles: seq<Tile>, lay: Layout, i: int, j: int, init: Cell)
    requires forall k :: 0 <= k < |tiles| ==> !Targets(lay, tiles[k], i, j)
    ensures PastedCell(tiles, lay, i, j, init) == init
  {
    if |tiles| > 0 {
      var front := tiles[..|tiles| - 1];
      assert forall k :: 0 <= k < |front| ==> front[k] == tiles[k];
      UntargetedCellKept(front, lay, i, j, init);
    }
  }

  /** The last tile pasted into a cell is what the cell shows: if no later tile
      targets the cell of `tiles[k]`, that cell shows `tiles[k]`. */
  lemma {:induction false} LastWriterWins(tiles: seq<Tile>, lay: Layout, k: int, init: Cell)
    requires 0 <= k < |tiles|
    requires forall m :: k < m < |tiles| ==> !Targets(lay, tiles[m], tiles[k].x - lay.minX, tiles[k].y - lay.minY)
    ensures PastedCell(tiles, lay, tiles[k].x - lay.minX, tiles[k].y - lay.minY, init) == Painted(tiles[k])
  {
    var n := |tiles| - 1;
    if k < n {
      var front := tiles[..n];
      assert forall m :: 0 <= m < n ==> front[m] == tiles[m];
      LastWriterWins(front, lay, k, init);
    }
  }

  /** No two tiles of the list share an index (as `mercantile.tiles` guarantees at one zoom). */
  predicate DistinctCells(tiles: seq<Tile>) {
    forall a, b :: 0 <= a < b < |tiles| ==> (tiles[a].x, tiles[a].y) != (tiles[b].x, tiles[b].y)
  }

  /** With distinct indices, every tile ends up in its own cell. */
  lemma OwnCell(tiles: seq<Tile>, lay: Layout, k: int, init: Cell)
    requires DistinctCells(tiles) && 0 <= k < |tiles|
    ensures PastedCell(tiles, lay, tiles[k].x - lay.minX, tiles[k].y - lay.minY, init) == Painted(tiles[k])
  {
    var i, j := tiles[k].x - lay.minX, tiles[k].y - lay.minY;
    assert forall m :: k < m < |tiles| ==> !Targets(lay, tiles[m], i, j) by {
      forall m | k < m < |tiles| ensures !Targets(lay, tiles[m], i, j) {
        assert (tiles[k].x, tiles[k].y) != (tiles[m].x, tiles[m].y);
      }
    }
    LastWriterWins(tiles, lay, k, init);
  }

  /** A cell shows the tile of the list that targets it, or what it held when none does. */
  lemma CellContents(tiles: seq<Tile>, lay: Layout, i: int, j: int, init: Cell)
    requires DistinctCells(tiles)
    ensures (forall t :: t in tiles ==> !Targets(lay, t, i, j)) ==> PastedCell(tiles, lay, i, j, init) == init
    ensures forall t :: t in tiles && Targets(lay, t, i, j) ==> PastedCell(tiles, lay, i, j, init) == Painted(t)
  {
    if forall t :: t in tiles ==> !Targets(lay, t, i, j) {
      assert forall k :: 0 <= k < |tiles| ==> !Targets(lay, tiles[k], i, j) by {
        forall k | 0 <= k < |tiles| ensures !Targets(lay, tiles[k], i, j) {
          assert tiles[k] in tiles;
        }
      }
      UntargetedCellKept(tiles, lay, i, j, init);
    }
    forall t | t in tiles && Targets(lay, t, i, j)
      ensures PastedCell(tiles, lay, i, j, init) == Painted(t)
    {
      var k :| 0 <= k < |tiles| && tiles[k] == t;
      OwnCell(tiles, lay, k, init);
    }
  }

  /** With distinct indices the paste order does not matter: any reordering of
      the tile list leaves every cell the same. */
  lemma PasteOrderIrrelevant(a: seq<Tile>, b: seq<Tile>, lay: Layout, i: int, j: int, init: Cell)
    requires DistinctCells(a) && DistinctCells(b) && multiset(a) == multiset(b)
    ensures PastedCell(a, lay, i, j, init) == PastedCell(b, lay, i, j, init)
  {
    assert forall t :: t in a <==> t in b by {
      forall t ensures t in a <==> t in b {
        assert t in a <==> t in multiset(a);
        assert t in b <==> t in multiset(b);
      }
    }
    CellContents(a, lay, i, j, init);
    CellContents(b, lay, i, j, init);
  }

  /** The paste loop: paints each tile's image into its cell, in list order. */
  method PasteTiles(canvas: array2<Cell>, tiles: seq<Tile>, lay: Layout)
    requires canvas.Length0 == lay.Columns() && canvas.Length1 == lay.Rows()
    requires forall t :: t in tiles ==> Within(lay, t)
    modifies canvas
    ensures forall i, j :: 0 <= i < canvas.Length0 && 0 <= j < canvas.Length1 ==>
              canvas[i, j] == PastedCell(tiles, lay, i, j, old(canvas[i, j]))
  {
    for k := 0 to |tiles|
      invariant forall i, j :: 0 <= i < canvas.Length0 && 0 <= j < canvas.Length1 ==>
                  canvas[i, j] == PastedCell(tiles[..k], lay, i, j, old(canvas[i, j]))
    {
      var t := tiles[k];
      assert t in tiles;
      canvas[t.x - lay.minX, t.y - lay.minY] := Painted(t);
      assert tiles[..k + 1][..k] == tiles[..k];
    }
    assert tiles[..|tiles|] == tiles;
  }

  /** The geographic bounds covered by the tiles: the smallest box holding every
      tile's own bounds, with each edge attained by some tile. */
  function CoveredBounds(tiles: seq<Tile>, bounds: Tile -> TileBounds): (r: Result<TileBounds>)
    ensures r.Err? <==> |tiles| == 0
    ensures r.Err? ==> r.error == EmptyTileSet
    ensures r.Ok? ==> forall t :: t in tiles ==>
              && r.value.west <= bounds(t).west && bounds(t).east <= r.value.east
              && r.value.south <= bounds(t).south && bounds(t).north <= r.value.north
    ensures r.Ok? ==> (&& (exists t :: t in tiles && bounds(t).west == r.value.west)
                       && (exists t :: t in tiles && bounds(t).east == r.value.east)
                       && (exists t :: t in tiles && bounds(t).south == r.value.south)
                       && (exists t :: t in tiles && bounds(t).north == r.value.north))
  {
    if |tiles| == 0 then Err(EmptyTileSet)
    else
      Ok(TileBounds(MinReal(tiles, (t: Tile) => bounds(t).west), MinReal(tiles, (t: Tile) => bounds(t).south),
                    MaxReal(tiles, (t: Tile) => bounds(t).east), MaxReal(tiles, (t: Tile) => bounds(t).north)))
  }

  /** If every tile's bounds are well formed, so are the covered bounds. */
  lemma CoveredBoundsWellFormed(tiles: seq<Tile>, bounds: Tile -> TileBounds)
    requires |tiles| > 0
    requires forall t :: t in tiles ==> bounds(t).west <= bounds(t).east && bounds(t).south <= bounds(t).north
    ensures var b := CoveredBounds(tiles, bounds).value; b.west <= b.east && b.south <= b.north
  {
    var b := CoveredBounds(tiles, bounds).value;
    var t :| t in tiles && bounds(t).west == b.west;
    var u :| u in tiles && bounds(u).south == b.south;
  }

  /** `_get_map` on a given tile list: allocate a blank canvas of the layout's
      size, paste every tile, and compute the covered bounds. */
  method GetMap(tiles: seq<Tile>, bounds: Tile -> TileBounds) returns (r: Result<StitchedMap>)
    ensures r.Err? <==> |tiles| == 0
    ensures r.Err? ==> r.error == EmptyTileSet
    ensures r.Ok? ==>
      && r.value.layout == ComputeLayout(tiles).value
      && r.value.bounds == CoveredBounds(tiles, bounds).value
      && fresh(r.value.canvas)
      && r.value.canvas.Length0 == r.value.layout.Columns()
      && r.value.canvas.Length1 == r.value.layout.Rows()
      && forall i, j :: 0 <= i < r.value.canvas.Length0 && 0 <= j < r.value.canvas.Length1 ==>
           r.value.canvas[i, j] == PastedCell(tiles, r.value.layout, i, j, Blank)
  {
    var layout := ComputeLayout(tiles);
    if layout.Err? {
      return Err(layout.error);
    }
    var lay := layout.value;
    var canvas := new Cell[lay.Columns(), lay.Rows()]((i, j) => Blank);
    PasteTiles(canvas, tiles, lay);
    r := Ok(StitchedMap(canvas, lay, CoveredBounds(tiles, bounds).value));
  }
}
