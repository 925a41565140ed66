/** The geometry of `Route._get_img_routing`: the extent of the route, the
    transform from projected coordinates to canvas pixels, and the drawing
    commands issued for the start marker, the end marker and the dashed path.

    The projection `mercantile.xy`, the tile covering `mercantile.tiles` (after
    rounding the extent to six decimals at zoom 17) and the tile bounds
    `mercantile.bounds` are foreign; they are parameters here. The arithmetic is
    on exact reals, not on binary floating point. */
module Overlay {
  import opened Results
  import opened Extrema
  import opened Routing
  import opened TileMap

  /** The fixed zoom level of the rendered map. */
  const Zoom: int := 17

  /** A point in web-mercator metres, as `mercantile.xy` returns it. */
  datatype Projected = Projected(x: real, y: real)

  /** A position on the canvas, in pixels from its top-left corner. */
  datatype Pixel = Pixel(x: real, y: real)

  /** `min_w`, `min_s`, `max_w`, `max_s` of the route coordinates. */
  datatype Extent = Extent(minW: real, minS: real, maxW: real, maxS: real)

  /** The box of all route coordinates; `min` of an empty list raises, which
      is the error result here. */
  function RouteExtent(coords: seq<Coordinate>): (r: Result<Extent>)
    ensures r.Err? <==> |coords| == 0
    ensures r.Err? ==> r.error == EmptyRoute
    ensures r.Ok? ==> r.value.minW <= r.value.maxW && r.value.minS <= r.value.maxS
    ensures r.Ok? ==> forall c :: c in coords ==>
              r.value.minW <= c.lon <= r.value.maxW && r.value.minS <= c.lat <= r.value.maxS
    ensures r.Ok? ==> (&& (exists c :: c in coords && c.lon == r.value.minW)
                       && (exists c :: c in coords && c.lon == r.value.maxW)
                       && (exists c :: c in coords && c.lat == r.value.minS)
                       && (exists c :: c in coords && c.lat == r.value.maxS))
  {
    if |coords| == 0 then Err(EmptyRoute)
    else
      Ok(Extent(MinReal(coords, (c: Coordinate) => c.lon), MinReal(coords, (c: Coordinate) => c.lat),
                MaxReal(coords, (c: Coordinate) => c.lon), MaxReal(coords, (c: Coordinate) => c.lat)))
  }

  /** The projected top-left corner of the canvas and the pixels per projected unit. */
  datatype Transform = Transform(leftTop: Projected, kx: real, ky: real)

  /** Offset from the projected top-left corner, scaled per axis: the one
      mapping used for both markers and for every point of the path. */
  function ToPixel(tr: Transform, p: Projected): Pixel {
    Pixel((p.x - tr.leftTop.x) * tr.kx, (p.y - tr.leftTop.y) * tr.ky)
  }

  function PixelOf(tr: Transform, xy: (real, real) -> Projected, c: Coordinate): Pixel {
    ToPixel(tr, xy(c.lon, c.lat))
  }

  /** The scales are the canvas width over the projected width of the covered
      bounds, and the height over the projected height; a zero difference raises
      ZeroDivisionError, which is the error result here.
      The transform sends the two projected corners to the two canvas corners. */
  function MakeTransform(width: int, height: int, leftTop: Projected, rightBottom: Projected): (r: Result<Transform>)
    ensures r.Err? <==> leftTop.x == rightBottom.x || leftTop.y == rightBottom.y
    ensures r.Err? ==> r.error == DegenerateBounds
    ensures r.Ok? ==> r.value.leftTop == leftTop
    ensures r.Ok? ==> ToPixel(r.value, leftTop) == Pixel(0.0, 0.0)
    ensures r.Ok? ==> ToPixel(r.value, rightBottom) == Pixel(width as real, height as real)
  {
    if rightBottom.x - leftTop.x == 0.0 then Err(DegenerateBounds)
    else if rightBottom.y - leftTop.y == 0.0 then Err(DegenerateBounds)
    else
      var kx := width as real / (rightBottom.x - leftTop.x);
      var ky := height as real / (rightBottom.y - leftTop.y);
      Ok(Transform(leftTop, kx, ky))
  }

  predicate Between(a: real, v: real, b: real) {
    (a <= v <= b) || (b <= v <= a)
  }

  lemma ScaleBetween(d: real, t: real, w: real)
    requires d != 0.0 && w >= 0.0 && Between(0.0, t, d)
    ensures 0.0 <= t * (w / d) <= w
  {
    var q := t / d;
    assert 0.0 <= q <= 1.0;
    assert t * (w / d) == q * w;
  }

  /** A point whose projection lies between the two projected corners is drawn
      inside the canvas. */
  lemma PixelInsideCanvas(width: nat, height: nat, leftTop: Projected, rightBottom: Projected, p: Projected)
    requires MakeTransform(width, height, leftTop, rightBottom).Ok?
    requires Between(leftTop.x, p.x, rightBottom.x) && Between(leftTop.y, p.y, rightBottom.y)
    ensures var px := ToPixel(MakeTransform(width, height, leftTop, rightBottom).value, p);
      0.0 <= px.x <= width as real && 0.0 <= px.y <= height as real
  {
    ScaleBetween(rightBottom.x - leftTop.x, p.x - leftTop.x, width as real);
    ScaleBetween(rightBottom.y - leftTop.y, p.y - leftTop.y, height as real);
  }

  /** The cairo commands the overlay issues; colours are red, green, blue, alpha. */
  datatype DrawOp =
    | Arc(centre: Pixel, radius: real)   // a full circle, angles 0 to 2 pi
    | SetSourceRgba(red: real, green: real, blue: real, alpha: real)
    | Fill
    | MoveTo(to: Pixel)
    | SetFontSize(size: real)
    | ShowText(text: string)
    | LineTo(to: Pixel)
    | SetDash(dashes: seq<real>)
    | SetLineWidth(width: real)
    | Stroke

  /** A cairo drawing context, modelled by the commands issued to it so far.
      How cairo rasterises them is not modelled. */
  class DrawContext {
    var ops: seq<DrawOp>

    constructor ()
      ensures ops == []
    {
      ops := [];
    }

    method Issue(op: DrawOp)
      modifies this
      ensures ops == old(ops) + [op]
    {
      ops := ops + [op];
    }
  }

  /** Green disc of radius 12 on the start, with the label "Я" 5 px left of
      and 2 px below its centre, in black, font size 15. */
  function StartMarkerOps(start: Pixel): seq<DrawOp> {
    [ Arc(start, 12.0), SetSourceRgba(0.0, 1.0, 0.0, 0.8), Fill,
      MoveTo(Pixel(start.x - 5.0, start.y + 2.0)), SetSourceRgba(0.0, 0.0, 0.0, 1.0),
      SetFontSize(15.0), ShowText("Я") ]
  }

  /** Blue disc of radius 5 on the end. */
  function EndMarkerOps(end: Pixel): seq<DrawOp> {
    [ Arc(end, 5.0), SetSourceRgba(0.0, 0.0, 1.0, 0.8), Fill ]
  }

  /** One `line_to` per route coordinate, in order. */
  function PathOps(coords: seq<Coordinate>, xy: (real, real) -> Projected, tr: Transform): seq<DrawOp> {
    seq(|coords|, k requires 0 <= k < |coords| => LineTo(PixelOf(tr, xy, coords[k])))
  }

  /** Red, dashed 14 on and 6 off, 4 px wide. */
  const StrokeOps: seq<DrawOp> :=
    [SetSourceRgba(1.0, 0.0, 0.0, 0.8), SetDash([14.0, 6.0]), SetLineWidth(4.0), Stroke]

  /** Every command the overlay issues, in order. */
  function RouteOps(coords: seq<Coordinate>, xy: (real, real) -> Projected, tr: Transform): seq<DrawOp>
    requires |coords| > 0
  {
    StartMarkerOps(PixelOf(tr, xy, coords[0])) + EndMarkerOps(PixelOf(tr, xy, coords[|coords| - 1]))
    + PathOps(coords, xy, tr) + StrokeOps
  }

  method DrawStartMarker(ctx: DrawContext, start: Pixel)
    modifies ctx
    ensures ctx.ops == old(ctx.ops) + StartMarkerOps(start)
  {
    ctx.Issue(Arc(start, 12.0));
    ctx.Issue(SetSourceRgba(0.0, 1.0, 0.0, 0.8));
    ctx.Issue(Fill);
    ctx.Issue(MoveTo(Pixel(start.x - 5.0, start.y + 2.0)));
    ctx.Issue(SetSourceRgba(0.0, 0.0, 0.0, 1.0));
    ctx.Issue(SetFontSize(15.0));
    ctx.Issue(ShowText("Я"));
  }

  method DrawEndMarker(ctx: DrawContext, end: Pixel)
    modifies ctx
    ensures ctx.ops == old(ctx.ops) + EndMarkerOps(end)
  {
    ctx.Issue(Arc(end, 5.0));
    ctx.Issue(SetSourceRgba(0.0, 0.0, 1.0, 0.8));
    ctx.Issue(Fill);
  }

  /** The path loop: one `line_to` per coordinate, each through the same transform. */
  method DrawPath(ctx: DrawContext, coords: seq<Coordinate>, xy: (real, real) -> Projected, tr: Transform)
    modifies ctx
    ensures ctx.ops == old(ctx.ops) + PathOps(coords, xy, tr)
  {
    for i := 0 to |coords|
      invariant ctx.ops == old(ctx.ops) + PathOps(coords[..i], xy, tr)
    {
      var p := PixelOf(tr, xy, coords[i]);
      ctx.Issue(LineTo(p));
      assert PathOps(coords[..i + 1], xy, tr) == PathOps(coords[..i], xy, tr) + [LineTo(p)];
    }
    assert coords[..|coords|] == coords;
  }

  method StrokePath(ctx: DrawContext)
    modifies ctx
    ensures ctx.ops == old(ctx.ops) + StrokeOps
  {
    ctx.Issue(SetSourceRgba(1.0, 0.0, 0.0, 0.8));
    ctx.Issue(SetDash([14.0, 6.0]));
    ctx.Issue(SetLineWidth(4.0));
    ctx.Issue(Stroke);
  }

  /** Draws the markers and the path. Only reached once the route extent has
      been computed, so the route is not empty. */
  method DrawRoute(ctx: DrawContext, coords: seq<Coordinate>, xy: (real, real) -> Projected, tr: Transform)
    requires |coords| > 0
    modifies ctx
    ensures ctx.ops == old(ctx.ops) + RouteOps(coords, xy, tr)
  {
    var start := PixelOf(tr, xy, coords[0]);
    DrawStartMarker(ctx, start);
    var end := PixelOf(tr, xy, coords[|coords| - 1]);
    DrawEndMarker(ctx, end);
    DrawPath(ctx, coords, xy, tr);
    StrokePath(ctx);
  }

  /** The vertices of the polyline: the targets of the `line_to` commands, in order. */
  function PathVertices(ops: seq<DrawOp>): seq<Pixel> {
    if |ops| == 0 then []
    else (if ops[0].LineTo? then [ops[0].to] else []) + PathVertices(ops[1..])
  }

  /** The centres of the discs: the centres of the `arc` commands, in order. */
  function ArcCentres(ops: seq<DrawOp>): seq<Pixel> {
    if |ops| == 0 then []
    else (if ops[0].Arc? then [ops[0].centre] else []) + ArcCentres(ops[1..])
  }

  lemma {:induction false} ExtractAppend(a: seq<DrawOp>, b: seq<DrawOp>)
    ensures PathVertices(a + b) == PathVertices(a) + PathVertices(b)
    ensures ArcCentres(a + b) == ArcCentres(a) + ArcCentres(b)
  {
    if |a| > 0 {
      assert (a + b)[1..] == a[1..] + b;
      ExtractAppend(a[1..], b);
    } else {
      assert a + b == b;
    }
  }

  lemma {:induction false} PathOpsExtract(coords: seq<Coordinate>, xy: (real, real) -> Projected, tr: Transform)
    ensures |PathVertices(PathOps(coords, xy, tr))| == |coords|
    ensures forall i :: 0 <= i < |coords| ==> PathVertices(PathOps(coords, xy, tr))[i] == PixelOf(tr, xy, coords[i])
    ensures ArcCentres(PathOps(coords, xy, tr)) == []
  {
    if |coords| > 0 {
      var ops := PathOps(coords, xy, tr);
      assert ops[1..] == PathOps(coords[1..], xy, tr);
      PathOpsExtract(coords[1..], xy, tr);
    }
  }

  lemma {:induction false} NoVertices(ops: seq<DrawOp>)
    requires forall k :: 0 <= k < |ops| ==> !ops[k].LineTo?
    ensures PathVertices(ops) == []
  {
    if |ops| > 0 {
      assert forall k :: 0 <= k < |ops| - 1 ==> ops[1..][k] == ops[k + 1];
      NoVertices(ops[1..]);
    }
  }

  lemma {:induction false} NoArcs(ops: seq<DrawOp>)
    requires forall k :: 0 <= k < |ops| ==> !ops[k].Arc?
    ensures ArcCentres(ops) == []
  {
    if |ops| > 0 {
      assert forall k :: 0 <= k < |ops| - 1 ==> ops[1..][k] == ops[k + 1];
      NoArcs(ops[1..]);
    }
  }

  /** Each marker issues exactly one disc, on its centre, and no path vertex. */
  lemma MarkerExtract(start: Pixel, end: Pixel)
    ensures PathVertices(StartMarkerOps(start)) == [] && ArcCentres(StartMarkerOps(start)) == [start]
    ensures PathVertices(EndMarkerOps(end)) == [] && ArcCentres(EndMarkerOps(end)) == [end]
    ensures PathVertices(StrokeOps) == [] && ArcCentres(StrokeOps) == []
  {
    var s := StartMarkerOps(start);
    NoVertices(s);
    NoArcs(s[1..]);
    ExtractAppend([s[0]], s[1..]);
    assert [s[0]] + s[1..] == s;
    var e := EndMarkerOps(end);
    NoVertices(e);
    NoArcs(e[1..]);
    ExtractAppend([e[0]], e[1..]);
    assert [e[0]] + e[1..] == e;
    NoVertices(StrokeOps);
    NoArcs(StrokeOps);
  }

  /** The path runs through the pixel of every route coordinate, in order, and
      the two discs are centred on the first and on the last vertex of that path. */
  lemma MarkersOnPath(coords: seq<Coordinate>, xy: (real, real) -> Projected, tr: Transform)
    requires |coords| > 0
    ensures var ops := RouteOps(coords, xy, tr); var path := PathVertices(ops);
      && |path| == |coords|
      && (forall i :: 0 <= i < |coords| ==> path[i] == PixelOf(tr, xy, coords[i]))
      && ArcCentres(ops) == [path[0], path[|path| - 1]]
  {
    var start, end := PixelOf(tr, xy, coords[0]), PixelOf(tr, xy, coords[|coords| - 1]);
    var a, b, p := StartMarkerOps(start), EndMarkerOps(end), PathOps(coords, xy, tr);
    ExtractAppend(a, b);
    ExtractAppend(a + b, p);
    ExtractAppend(a + b + p, StrokeOps);
    PathOpsExtract(coords, xy, tr);
    MarkerExtract(start, end);
  }
}
