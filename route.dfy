/** The whole of `Route._get_img_routing` up to writing the PNG: route, extent,
    tile covering, stitched map, pixel transform and overlay, in that order,
    each failing step ending the render with its error. */
module RouteRenderer {
  import opened Results
  import opened Routing
  import opened TileMap
  import opened Overlay

  /** The values the render computes before it draws. */
  datatype Plan = Plan(route: RouteResult, extent: Extent, tiles: seq<Tile>,
                       layout: Layout, bounds: TileBounds, transform: Transform)

  /** What the render leaves: the route, the stitched map and the overlay commands. */
  datatype Rendered = Rendered(route: RouteResult, stitched: StitchedMap, drawing: DrawContext)

  /** The computation of `_get_img_routing` before any drawing. `cover` stands for
      rounding the extent to six decimals and calling `mercantile.tiles` at the
      given zoom, `bounds` for `mercantile.bounds`, `xy` for `mercantile.xy`.
      The first step to fail decides the error; on success the transform sends
      the north-west corner of the covered bounds to pixel (0, 0) and the
      south-east corner to the bottom-right corner of the canvas. */
  function PlanRender(routes: seq<RawRoute>, cover: (Extent, int) -> seq<Tile>,
                      bounds: Tile -> TileBounds, xy: (real, real) -> Projected): (r: Result<Plan>)
    ensures |routes| == 0 ==> r == Err(NoRoute)
    ensures |routes| > 0 && |routes[0].coordinates| == 0 ==> r == Err(EmptyRoute)
    ensures (&& |routes| > 0 && |routes[0].coordinates| > 0
             && cover(RouteExtent(routes[0].coordinates).value, Zoom) == []) ==> r == Err(EmptyTileSet)
    ensures (&& |routes| > 0 && |routes[0].coordinates| > 0
             && cover(RouteExtent(routes[0].coordinates).value, Zoom) != []) ==>
      var tiles := cover(RouteExtent(routes[0].coordinates).value, Zoom);
      var lay := ComputeLayout(tiles).value;
      var b := CoveredBounds(tiles, bounds).value;
      && (r.Ok? <==> MakeTransform(lay.Width(), lay.Height(), xy(b.west, b.north), xy(b.east, b.south)).Ok?)
      && (r.Err? ==> r.error == DegenerateBounds)
    ensures r.Ok? ==>
      && GetRouting(routes) == Ok(r.value.route)
      && |r.value.route.coordinates| > 0
      && RouteExtent(r.value.route.coordinates) == Ok(r.value.extent)
      && r.value.tiles == cover(r.value.extent, Zoom)
      && ComputeLayout(r.value.tiles) == Ok(r.value.layout)
      && CoveredBounds(r.value.tiles, bounds) == Ok(r.value.bounds)
      && ToPixel(r.value.transform, xy(r.value.bounds.west, r.value.bounds.north)) == Pixel(0.0, 0.0)
      && ToPixel(r.value.transform, xy(r.value.bounds.east, r.value.bounds.south))
         == Pixel(r.value.layout.Width() as real, r.value.layout.Height() as real)
  {
    match GetRouting(routes)
    case Err(e) => Err(e)
    case Ok(route) =>
      match RouteExtent(route.coordinates)
      case Err(e) => Err(e)
      case Ok(extent) =>
        var tiles := cover(extent, Zoom);
        match ComputeLayout(tiles)
        case Err(e) => Err(e)
        case Ok(layout) =>
          var covered := CoveredBounds(tiles, bounds).value;
          var leftTop := xy(covered.west, covered.north);
          var rightBottom := xy(covered.east, covered.south);
          match MakeTransform(layout.Width(), layout.Height(), leftTop, rightBottom)
          case Err(e) => Err(e)
          case Ok(transform) => Ok(Plan(route, extent, tiles, layout, covered, transform))
  }

  /** Stitch the plan's tiles into a fresh canvas and draw the markers and the
      path with the plan's transform on a fresh drawing context. */
  method RenderPlan(p: Plan, bounds: Tile -> TileBounds, xy: (real, real) -> Projected) returns (out: Rendered)
    requires |p.route.coordinates| > 0 && |p.tiles| > 0
    ensures out.route == p.route
    ensures out.stitched.layout == ComputeLayout(p.tiles).value
    ensures out.stitched.bounds == CoveredBounds(p.tiles, bounds).value
    ensures fresh(out.stitched.canvas) && fresh(out.drawing)
    ensures out.stitched.canvas.Length0 == out.stitched.layout.Columns()
    ensures out.stitched.canvas.Length1 == out.stitched.layout.Rows()
    ensures forall i, j :: 0 <= i < out.stitched.canvas.Length0 && 0 <= j < out.stitched.canvas.Length1 ==>
              out.stitched.canvas[i, j] == PastedCell(p.tiles, out.stitched.layout, i, j, Blank)
    ensures out.drawing.ops == RouteOps(p.route.coordinates, xy, p.transform)
  {
    var stitched := GetMap(p.tiles, bounds);
    var ctx := new DrawContext();
    DrawRoute(ctx, p.route.coordinates, xy, p.transform);
    out := Rendered(p.route, stitched.value, ctx);
  }

  /** `_get_img_routing`: compute the plan, then stitch the map and draw the
      markers and the path with the plan's transform. */
  method GetImgRouting(routes: seq<RawRoute>, cover: (Extent, int) -> seq<Tile>,
                       bounds: Tile -> TileBounds, xy: (real, real) -> Projected) returns (r: Result<Rendered>)
    ensures r.Err? <==> PlanRender(routes, cover, bounds, xy).Err?
    ensures r.Err? ==> r.error == PlanRender(routes, cover, bounds, xy).error
    ensures r.Ok? ==>
      var p := PlanRender(routes, cover, bounds, xy).value;
      && r.value.route == p.route
      && r.value.stitched.layout == p.layout
      && r.value.stitched.bounds == p.bounds
      && fresh(r.value.stitched.canvas) && fresh(r.value.drawing)
      && r.value.stitched.canvas.Length0 == p.layout.Columns()
      && r.value.stitched.canvas.Length1 == p.layout.Rows()
      && (forall i, j :: 0 <= i < r.value.stitched.canvas.Length0 && 0 <= j < r.value.stitched.canvas.Length1 ==>
            r.value.stitched.canvas[i, j] == PastedCell(p.tiles, p.layout, i, j, Blank))
      && r.value.drawing.ops == RouteOps(p.route.coordinates, xy, p.transform)
  {
    var plan := PlanRender(routes, cover, bounds, xy);
    if plan.Err? {
      return Err(plan.error);
    }
    var out := RenderPlan(plan.value, bounds, xy);
    r := Ok(out);
  }
}
