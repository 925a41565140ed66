# OSM_Route: a verified model of the tile stitching and route overlay geometry

`OSMRoute.py` renders a static OpenStreetMap image with a walking route on it.
The class `Route` asks a routing service for the route between two points. It
takes the extent of the route, fetches the slippy-map tiles at zoom 17 that
cover it, and stitches them into one canvas. It then draws a start marker, an
end marker and a dashed polyline on the canvas, in pixels derived from the
web-mercator projection of the covered bounds.

This project models the parts of that pipeline whose behaviour can be stated
exactly, and proves properties of them:

- `extrema.dfy` (module `Extrema`): Python's `min`/`max` over a list
  comprehension, for integer and real keys.
- `tile_map.dfy` (module `TileMap`): `Route._get_map`. It covers the index
  rectangle of the tiles, the canvas size, the paste offsets, the paste loop
  over a 2-D array of tile cells, and the covered geographic bounds.
- `routing.dfy` (module `Routing`): the post-processing in
  `Route._get_routing`. Only the first route is used, the distance is rounded
  half-to-even, and the duration becomes whole minutes by floor division.
- `overlay.dfy` (module `Overlay`): the geometry of `Route._get_img_routing`.
  It covers the route extent, the projected-to-pixel transform, and a drawing
  context (a class) that records each cairo command issued for the markers
  and the path.
- `route.dfy` (module `RouteRenderer`): the composed render. It runs the steps
  in source order, and the first step to fail decides the error.
- `results.dfy` (module `Results`): the result type and the error kinds.

The canvas is a grid of tile cells: `canvas[i, j]` is the 256 by 256 pixel
block for tile `(minX + i, minY + j)`. The lemmas on `OffsetOf`, `InRect` and
`PixelOwner` connect these cells to the pixel rectangles cairo paints.

Foreign calls are parameters of the model:
- `mercantile.tiles` runs after the extent is rounded to 6 decimals; the
  `cover` parameter stands for both steps.
- `mercantile.bounds` is the `bounds` parameter.
- `mercantile.xy` is the `xy` parameter.

The routing response is the decoded list of routes.

The source raises Python's built-in exceptions, and `Error` has one variant per
exception:
- An empty tile list or an empty route raises `ValueError` from `min`.
- A missing route raises `IndexError`.
- A degenerate box raises `ZeroDivisionError`.

The source's duration is a float such as `2.0`; the model gives the integer.

## Model

| member | source | states |
|---|---|---|
| Extrema.Min | OSMRoute.py:70-71 | the minimum of a non-empty list of integer keys is at most every key and is the key of some element |
| Extrema.Max | OSMRoute.py:72-73 | the maximum of a non-empty list of integer keys is at least every key and is the key of some element |
| Extrema.MinReal | OSMRoute.py:164-165 | the same for real keys: a lower bound attained by some element |
| Extrema.MaxReal | OSMRoute.py:166-167 | the same for real keys: an upper bound attained by some element |
| TileMap.ComputeLayout | OSMRoute.py:70-73 | an empty tile list is an error (EmptyTileSet); otherwise every tile lies in [minX, maxX] × [minY, maxY], minX ≤ maxX, minY ≤ maxY, and each of the four extremes is attained by some tile |
| TileMap.CanvasSize | OSMRoute.py:76-80 | canvas width and height are positive multiples of 256, equal to 256 times the number of tile columns and rows |
| TileMap.TileInsideCanvas | OSMRoute.py:95-99 | every paste offset is non-negative and the tile's whole 256×256 block lies inside the canvas |
| TileMap.CornerTileAtOrigin | OSMRoute.py:95-99 | the tile at (minX, minY) is pasted at pixel (0, 0) |
| TileMap.DistinctTilesDisjoint | OSMRoute.py:95-100 | tiles at different indices get different offsets, and their pixel blocks do not overlap |
| TileMap.PixelOwner | OSMRoute.py:95-100 | a canvas pixel lies in a tile's block exactly when the tile's cell is (px div 256, py div 256) |
| TileMap.PasteTiles | OSMRoute.py:84-100 | after the paste loop, every cell equals the result of pasting the list in order onto the old cell (PastedCell); every write lands inside the grid |
| TileMap.UntargetedCellKept | OSMRoute.py:84-100 | a cell that no tile of the list targets keeps its old content after pasting |
| TileMap.LastWriterWins | OSMRoute.py:84-100 | a cell shows the last tile in the list that targets it: if no later tile targets the cell of tiles[k], that cell shows tiles[k] |
| TileMap.OwnCell | OSMRoute.py:84-100 | with distinct tile indices, each tile's own cell shows that tile after pasting |
| TileMap.CellContents | OSMRoute.py:84-100 | with distinct tile indices, a cell shows the tile of the list that targets it, or its old content if none does |
| TileMap.PasteOrderIrrelevant | OSMRoute.py:84-100 | with distinct tile indices, any reordering of the tile list gives the same content in every cell |
| TileMap.CoveredBounds | OSMRoute.py:109-114 | an empty tile list is an error; otherwise west ≤ every tile's west, east ≥ every tile's east, south ≤ every south, north ≥ every north, each attained by some tile |
| TileMap.CoveredBoundsWellFormed | OSMRoute.py:109-114 | if every tile's bounds have west ≤ east and south ≤ north, so do the covered bounds |
| TileMap.GetMap | OSMRoute.py:65-115 | fails exactly on an empty tile list; otherwise returns a fresh grid of columns × rows cells, each holding its pasted content over a blank canvas, with the layout and the covered bounds |
| Routing.Minutes | OSMRoute.py:149 | the duration d in minutes satisfies d·60 ≤ seconds < (d+1)·60, for negative seconds too (floor division) |
| Routing.MinutesUnique | OSMRoute.py:149 | any integer bracketing the seconds that way equals Minutes, so the contract determines the result |
| Routing.MinutesNonNegative | OSMRoute.py:149 | a non-negative duration gives a non-negative number of minutes |
| Routing.MinutesOfExample | OSMRoute.py:149 | 125.4 seconds give 2 minutes |
| Routing.RoundHalfEven | OSMRoute.py:148 | the rounded distance is within 1/2 of the exact value, and on a tie it is even |
| Routing.RoundHalfEvenUnique | OSMRoute.py:148 | any integer with those two properties is the rounded distance |
| Routing.GetRouting | OSMRoute.py:144-150 | with no routes the result is NoRoute; otherwise only the first route is used: its coordinates, its distance rounded half-to-even (so within 1/2), and its duration floored to minutes |
| Routing.ExampleRoute | OSMRoute.py:144-150 | a first route of 950 m and 125.4 s gives distance 950 and duration 2, whatever other routes follow |
| Overlay.RouteExtent | OSMRoute.py:164-167 | an empty route is an error (EmptyRoute); otherwise min_w ≤ max_w, min_s ≤ max_s, every coordinate lies in [min_w, max_w] × [min_s, max_s], and each bound is attained |
| Overlay.MakeTransform | OSMRoute.py:176-180 | fails (DegenerateBounds) exactly when the projected corners share an x or a y; otherwise the top-left corner maps to pixel (0, 0) and the bottom-right corner to (width, height) |
| Overlay.PixelInsideCanvas | OSMRoute.py:176-187 | a point whose projection lies between the two projected corners is mapped to a pixel inside the canvas |
| Overlay.DrawContext.Issue | OSMRoute.py:188-217 | each cairo call appends exactly its own command to the context's record |
| Overlay.DrawStartMarker | OSMRoute.py:184-195 | issues the green disc of radius 12 on the start pixel, then the black label "Я" 5 px left of and 2 px below it, at font size 15 |
| Overlay.DrawEndMarker | OSMRoute.py:197-203 | issues the translucent blue disc of radius 5 on the end pixel |
| Overlay.DrawPath | OSMRoute.py:205-212 | the path loop appends one line_to per coordinate, in order, each through the same transform |
| Overlay.StrokePath | OSMRoute.py:214-217 | issues the translucent red, 14/6-dashed, 4 px stroke |
| Overlay.DrawRoute | OSMRoute.py:183-217 | the context's record grows by exactly the start marker, end marker, path and stroke commands, in that order |
| Overlay.PathOpsExtract | OSMRoute.py:205-212 | the vertices of the drawn polyline are the pixels of the route coordinates, in order, and the path loop draws no disc |
| Overlay.MarkerExtract | OSMRoute.py:184-203 | each marker draws exactly one disc, centred on its pixel, and adds no polyline vertex |
| Overlay.MarkersOnPath | OSMRoute.py:184-212 | in the whole overlay, the polyline has one vertex per coordinate, and the two discs are centred on its first and last vertex |
| RouteRenderer.PlanRender | OSMRoute.py:162-180 | no route gives NoRoute, an empty route gives EmptyRoute, an empty covering gives EmptyTileSet; past those, the plan succeeds exactly when the transform of the covered bounds' projected corners does, and otherwise fails with DegenerateBounds; on success each step's value is the one its function computes, and the north-west and south-east corners of the covered bounds map to (0, 0) and (width, height) |
| RouteRenderer.RenderPlan | OSMRoute.py:174-217 | stitches the plan's tiles into a fresh grid holding each cell's pasted content over blank, with the layout and covered bounds of those tiles, and records exactly the overlay commands under the plan's transform on a fresh context |
| RouteRenderer.GetImgRouting | OSMRoute.py:152-225 | fails exactly when the plan does, with its error; otherwise returns the route, a fresh stitched grid of the plan's tiles, and a fresh drawing context whose record is exactly the overlay commands under the plan's transform |

## Left out

- HTTP: fetching tiles (`_get_img`) and the route (`_get_routing`), the
  browser-like headers, and JSON decoding. A failed tile download, which in
  the source aborts the render, is therefore not modelled. The decoded list of
  routes is the input.
- The random choice of tile mirror and the tile URL. Neither affects geometry.
- `mercantile.tiles`, `mercantile.bounds` and `mercantile.xy` are a foreign
  library of floating-point Web-Mercator math. They are function parameters
  with no properties assumed, so `cover` may return any tile list, including
  one with duplicates.
- Rounding the route extent to 6 decimals: this is decimal rounding of binary
  floats. It is folded into the `cover` parameter.
- Floating point in general. `Minutes`, `RoundHalfEven`, `MakeTransform` and
  `ToPixel` compute on exact reals. This is exact for the first two, because
  Python's floor division and rounding of a float give the correctly rounded
  result of its exact value. It is not exact for the scale divisions and the
  pixel products. NaN is not modelled.
- Cairo rasterisation, PNG decoding and encoding. Each cell of the grid holds
  the tile whose image was pasted there, not that image's pixels. The overlay
  is the list of commands issued to the drawing context, not their effect on
  the surface. The circle angles 0 to 2π are implied by `Arc`.
- The overlay is drawn on the same surface as the tiles. The model keeps the
  command record apart from the tile grid.
- GetMap, GetImgRouting: cairo's refusal to create an oversized or
  unallocatable surface is not modelled. Cairo refuses sides over 32767 px,
  which is 128 or more tile columns or rows, and pycairo then raises
  `cairo.Error`. The model returns a canvas there.
- `RouteRenderer.GetImgRouting`: computes the pixel transform before pasting
  the tiles, where the source pastes first. This does not change the
  outcome, because pasting has no failure in the model.
- `Overlay.DrawRoute`: requires a non-empty route. Its only caller reaches it
  after the route extent has been computed, which fails on an empty route.
- `__init__`, `__enter__`, `__exit__` and the temporary file (OSMRoute.py:25-29,
  222-243): filesystem I/O and object plumbing. This includes the fact that
  `__exit__` returns without closing the descriptor from `mkstemp` when the
  file is already gone.
