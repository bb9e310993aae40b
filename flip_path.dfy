/** The `Path` helper that builds the flip mask of the hero curve: an S-shaped
    outline across a box of `width` by `height`, closed either to the top or
    to the bottom edge, and the SVG that stacks the four variants. The same
    class appears in src/scripts/components/_path.js and, copied inline, in
    src/scripts/home/hero-curve.js; the two copies agree line for line, so
    one model covers both. */
module FlipPath {
  import opened Common
  import opened SvgPath

  /** The fields of a `Path`; nothing in the scripts changes them after
      construction. */
  datatype Path = Path(width: real, height: real, strokeWidth: real, startY: real, endY: real, pathData: seq<Command>)

  /** `new Path(w, h, strokeWidth)`. */
  function NewPath(w: real, h: real, strokeWidth: real): (p: Path)
    ensures p.width == w && p.height == h && p.strokeWidth == strokeWidth
    ensures p.startY == 0.0 && p.endY == p.startY
    ensures p.pathData == [MoveTo(0.0, p.startY)]
    ensures EndPoint(p.pathData) == Point(0.0, 0.0)
  {
    Path(w, h, strokeWidth, 0.0, 0.0, [MoveTo(0.0, 0.0)])
  }

  /** The x where every flip shape starts and closes. */
  const Inset: real := 32.0

  function Radius(p: Path): real {
    p.height / 2.0
  }

  function Pivot(p: Path): real {
    p.width * 0.4
  }

  /** The y the two arcs move by, each: down when `direction` is set. */
  function ArcRise(p: Path, direction: bool): real {
    if direction then Radius(p) else -Radius(p)
  }

  /** The outline without its closing commands. */
  function OpenOutline(p: Path, startY: real, endY: real, direction: bool): seq<Command> {
    [ MoveTo(Inset, if direction then startY else endY),
      HorizontalBy(Pivot(p) - Radius(p)),
      ArcBy(Radius(p), Radius(p), 90.0, false, direction, Radius(p), ArcRise(p, direction)),
      ArcBy(Radius(p), Radius(p), 90.0, false, !direction, Radius(p), ArcRise(p, direction)),
      HorizontalTo(p.width) ]
  }

  /** The closing run: up or down the right edge, back to the inset, close. */
  function Closing(p: Path, closeTop: bool): seq<Command> {
    [VerticalTo(if closeTop then 0.0 else p.height), HorizontalTo(Inset), ClosePath]
  }

  /** `generateFlipShape(startY, endY, direction, close, closeTop)`. */
  function GenerateFlipShape(p: Path, startY: real, endY: real, direction: bool, close: bool, closeTop: bool): (d: seq<Command>)
    ensures |d| == if close then 8 else 5
    ensures d[0].MoveTo? && d[|d| - 1] == (if close then ClosePath else HorizontalTo(p.width))
  {
    OpenOutline(p, startY, endY, direction) + if close then Closing(p, closeTop) else []
  }

  /** The shape of every outline: a move to the inset at the start or end
      y, a run of 0.4·width − height/2, an S-bend of radius height/2 that
      moves down when `direction` is set and up otherwise, a line to the
      right edge, and, when closed, a run up or down the right edge back to
      the inset. */
  lemma FlipShapeOutline(p: Path, startY: real, endY: real, direction: bool, close: bool, closeTop: bool)
    requires p.height >= 0.0
    ensures var d := GenerateFlipShape(p, startY, endY, direction, close, closeTop);
            && d[0] == MoveTo(32.0, if direction then startY else endY)
            && d[1] == HorizontalBy(p.width * 0.4 - p.height / 2.0)
            && IsSBend(d[2], d[3], p.height / 2.0)
            && d[2].sweep == direction
            && d[2].dx == p.height / 2.0
            && d[2].dy + d[3].dy == (if direction then p.height else -p.height)
            && d[4] == HorizontalTo(p.width)
            && (close ==> d[5..] == [VerticalTo(if closeTop then 0.0 else p.height), HorizontalTo(32.0), ClosePath])
  {
  }

  /** The open outline is the closed one with its closing run cut off, and
      `closeTop` only matters when the shape is closed. */
  lemma OpenShapeIsPrefixOfClosed(p: Path, startY: real, endY: real, direction: bool, closeTop: bool, otherTop: bool)
    ensures var closed := GenerateFlipShape(p, startY, endY, direction, true, closeTop);
            var open := GenerateFlipShape(p, startY, endY, direction, false, otherTop);
            && open == closed[..5] && closed == open + closed[5..]
            && ClosePath !in open && closed[7] == ClosePath
  {
    var open := GenerateFlipShape(p, startY, endY, direction, false, otherTop);
    assert ClosePath !in open by {
      forall i | 0 <= i < |open| ensures open[i] != ClosePath {
      }
    }
  }

  /** Where the outline goes: the open outline ends on the right edge after
      moving exactly `height` down (or up), the S-bend ends at
      32 + 0.4·width + height/2, and a closed outline ends back at its
      starting point after reaching the top or bottom right corner. */
  lemma {:induction false} FlipShapeEnds(p: Path, startY: real, endY: real, direction: bool, close: bool, closeTop: bool)
    ensures var y0 := if direction then startY else endY;
            var d := GenerateFlipShape(p, startY, endY, direction, close, closeTop);
            && EndPoint(d[..4]) == Point(32.0 + p.width * 0.4 + p.height / 2.0, y0 + (if direction then p.height else -p.height))
            && EndPoint(d[..5]) == Point(p.width, y0 + (if direction then p.height else -p.height))
            && (close ==> EndPoint(d[..7]) == Point(32.0, if closeTop then 0.0 else p.height))
            && (close ==> EndPoint(d) == Point(32.0, y0))
  {
    var y0 := if direction then startY else endY;
    var d := GenerateFlipShape(p, startY, endY, direction, close, closeTop);
    var r, rise := Radius(p), ArcRise(p, direction);
    var pen0 := Pen(Point(32.0, y0), Point(32.0, y0));
    var pen1 := Pen(Point(32.0 + Pivot(p) - r, y0), Point(32.0, y0));
    var pen2 := Pen(Point(32.0 + Pivot(p), y0 + rise), Point(32.0, y0));
    var pen3 := Pen(Point(32.0 + Pivot(p) + r, y0 + rise + rise), Point(32.0, y0));
    var pen4 := Pen(Point(p.width, y0 + rise + rise), Point(32.0, y0));
    assert Trace(Origin, d[..1]) == pen0 by {
      assert d[..1][1..] == [];
    }
    TraceOneMore(d, 1, pen0, pen1);
    TraceOneMore(d, 2, pen1, pen2);
    TraceOneMore(d, 3, pen2, pen3);
    TraceOneMore(d, 4, pen3, pen4);
    if close {
      var ye := if closeTop then 0.0 else p.height;
      var pen5 := Pen(Point(p.width, ye), Point(32.0, y0));
      var pen6 := Pen(Point(32.0, ye), Point(32.0, y0));
      TraceOneMore(d, 5, pen4, pen5);
      TraceOneMore(d, 6, pen5, pen6);
      TraceOneMore(d, 7, pen6, Pen(Point(32.0, y0), Point(32.0, y0)));
      assert d[..8] == d;
    }
  }

  /** A `<path>` inside a group: its outline, its `fill` when it has one, and the
      `stroke-width` it is given when it is a stroke path. */
  datatype Shape = Shape(d: seq<Command>, fill: Option<string>, strokeWidth: Option<real>)

  /** A `<g>` of the mask: its id, the clip path (with its id when it has
      one) and the shapes drawn after the clip, in document order. */
  datatype Group = Group(id: string, clipId: Option<string>, clip: Shape, shapes: seq<Shape>)

  datatype MaskSvg = MaskSvg(viewBoxWidth: real, viewBoxHeight: real, widthPx: real, heightPx: real, groups: seq<Group>)

  /** `getMaskFlipSVG()`: flip and unflip close to the top, flipInverse and
      unflipInverse to the bottom; the flipped variants start at the bottom
      edge and rise, the others start at the top edge and fall. */
  function GetMaskFlipSvg(p: Path): (svg: MaskSvg)
    ensures |svg.groups| == 4
    ensures forall g :: g in svg.groups ==> |g.clip.d| == 8 && g.clip.d[7] == ClosePath
  {
    var startY, endY := 0.0, p.height;
    var path1 := GenerateFlipShape(p, startY, endY, true, true, true);
    var path1Flipped := GenerateFlipShape(p, startY, endY, false, true, true);
    var path1Stroke := GenerateFlipShape(p, startY, endY, true, false, true);
    var path1StrokeFlipped := GenerateFlipShape(p, startY, endY, false, false, true);
    var path2 := GenerateFlipShape(p, startY, endY, true, true, false);
    var path2Flipped := GenerateFlipShape(p, startY, endY, false, true, false);
    var stroke := Some(p.strokeWidth);
    assert path1[7] == ClosePath && path1Flipped[7] == ClosePath;
    assert path2[7] == ClosePath && path2Flipped[7] == ClosePath;
    MaskSvg(
      p.width + p.strokeWidth, p.height, p.width + p.strokeWidth, p.height + p.strokeWidth,
      [ Group("flip", Some("clipFlip"), Shape(path1, Some("red"), None),
              [Shape(path1, Some("red"), None), Shape(path1Stroke, Some("none"), stroke), Shape(path1Stroke, Some("none"), stroke)]),
        Group("unflip", None, Shape(path1Flipped, Some("none"), None),
              [Shape(path1Flipped, Some("none"), None), Shape(path1StrokeFlipped, Some("none"), stroke)]),
        Group("flipInverse", Some("clipInverse"), Shape(path2, None, None),
              [Shape(path2, Some("blue"), None)]),
        Group("unflipInverse", None, Shape(path2Flipped, Some("none"), None),
              [Shape(path2Flipped, Some("none"), None)]) ])
  }

  /** The layout of the mask: the four groups in order; the visible width
      leaves room for the stroke while the view box is exactly as tall as
      the shapes; every group fills its own clip outline; and every stroke
      path is the open outline of the shape it outlines. */
  lemma MaskFlipSvgLayout(p: Path)
    ensures var svg := GetMaskFlipSvg(p);
            && [svg.groups[0].id, svg.groups[1].id, svg.groups[2].id, svg.groups[3].id]
                 == ["flip", "unflip", "flipInverse", "unflipInverse"]
            && svg.viewBoxWidth == svg.widthPx == p.width + p.strokeWidth
            && svg.viewBoxHeight == p.height && svg.heightPx == p.height + p.strokeWidth
            && (forall i :: 0 <= i < 4 ==> svg.groups[i].shapes[0].d == svg.groups[i].clip.d)
    ensures var g := GetMaskFlipSvg(p).groups;
            var flipStroke := Shape(g[0].clip.d[..5], Some("none"), Some(p.strokeWidth));
            var unflipStroke := Shape(g[1].clip.d[..5], Some("none"), Some(p.strokeWidth));
            && g[0].shapes[1..] == [flipStroke, flipStroke]
            && g[1].shapes[1..] == [unflipStroke]
            && g[2].shapes[1..] == [] && g[3].shapes[1..] == []
            && ClosePath !in flipStroke.d && ClosePath !in unflipStroke.d
  {
    OpenShapeIsPrefixOfClosed(p, 0.0, p.height, true, true, true);
    OpenShapeIsPrefixOfClosed(p, 0.0, p.height, false, true, true);
  }

  /** Each mask shape runs edge to edge: the falling outlines start on the
      top edge and reach the bottom one, the rising ones the other way round;
      a shape and its inverse share the same curve and differ only in the
      side they close to, so together they split the box along that
      curve. */
  lemma MaskCurvesSpanTheBox(p: Path)
    ensures var g := GetMaskFlipSvg(p).groups;
            && g[0].clip.d[0] == MoveTo(32.0, 0.0) && EndPoint(g[0].clip.d[..5]) == Point(p.width, p.height)
            && g[1].clip.d[0] == MoveTo(32.0, p.height) && EndPoint(g[1].clip.d[..5]) == Point(p.width, 0.0)
            && g[0].clip.d[..5] == g[2].clip.d[..5] && g[1].clip.d[..5] == g[3].clip.d[..5]
            && g[0].clip.d[5] == g[1].clip.d[5] == VerticalTo(0.0)
            && g[2].clip.d[5] == g[3].clip.d[5] == VerticalTo(p.height)
  {
    FlipShapeEnds(p, 0.0, p.height, true, true, true);
    FlipShapeEnds(p, 0.0, p.height, false, true, true);
  }
}
