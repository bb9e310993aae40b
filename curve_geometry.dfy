/** The geometry of the anchor-to-anchor curve (`HencurveAnchors._findAnchors`
    and `_drawPath`): a line along one edge of the container, an S-bend
    centred in the gap between the two anchors, and a line to the far
    margin. The newer script (src/scripts/_components/_drawPath.js) and the
    older one (src/scripts/components/_drawPath.js) compute the same path;
    they differ only in where the site margin and the stroke width come
    from, which here are parameters. */
module CurveGeometry {
  import opened Common
  import opened SvgPath

  /** What `getBoundingClientRect()` reports. */
  datatype Rect = Rect(left: real, top: real, width: real, height: real)

  /** An anchor's position relative to its container. */
  datatype AnchorPos = AnchorPos(x: real, y: real, width: real)

  /** The first anchor is located by its bottom-left corner. */
  function FirstAnchorPos(anchor: Rect, container: Rect): (p: AnchorPos)
    ensures p.x + container.left == anchor.left && p.width == anchor.width
    ensures p.y + container.top == anchor.top + anchor.height
  {
    AnchorPos(anchor.left - container.left, anchor.top - container.top + anchor.height, anchor.width)
  }

  /** The second anchor is located by its top-left corner. */
  function SecondAnchorPos(anchor: Rect, container: Rect): (p: AnchorPos)
    ensures p.x + container.left == anchor.left && p.width == anchor.width
    ensures p.y + container.top == anchor.top
  {
    AnchorPos(anchor.left - container.left, anchor.top - container.top, anchor.width)
  }

  /** The quantities `_drawPath` derives before it emits any command. */
  datatype Layout = Layout(
    startX: real, endX: real, startY: real, endY: real,
    firstEndX: real, firstEndY: real, secondStartX: real, secondStartY: real,
    arcSpace: real, arcRadius: real)

  function PlanCurve(first: AnchorPos, second: AnchorPos, svgHeight: real, containerWidth: real,
                     siteMargin: real, strokeWidth: real): Layout
  {
    var firstLower := first.y > second.y;
    var endY := if firstLower then 0.0 else svgHeight;
    var secondStartY := if firstLower then endY + strokeWidth else endY - strokeWidth;
    Layout(
      siteMargin, containerWidth - siteMargin,
      if firstLower then svgHeight - strokeWidth else strokeWidth, endY,
      first.x + first.width, first.y, second.x, secondStartY,
      (second.x - (first.x + first.width)) / 2.0,
      Abs(first.y - secondStartY) / 2.0)
  }

  /** `_drawPath`: the path data, or nothing when the second anchor starts
      left of where the first one ends. */
  function DrawPath(first: AnchorPos, second: AnchorPos, svgHeight: real, containerWidth: real,
                    siteMargin: real, strokeWidth: real): (d: Option<seq<Command>>)
    ensures d.Some? ==> |d.value| == 5 && d.value[0].MoveTo?
  {
    var l := PlanCurve(first, second, svgHeight, containerWidth, siteMargin, strokeWidth);
    if l.arcSpace < 0.0 then None
    else
      var r := l.arcRadius;
      var arc1Direction := l.firstEndY < l.secondStartY;
      var arc2Direction := !arc1Direction;
      Some([ MoveTo(l.startX, l.startY),
             HorizontalTo(l.firstEndX + l.arcSpace - r),
             ArcBy(r, r, 90.0, false, arc1Direction, r, if arc1Direction then r else -r),
             ArcBy(r, r, 90.0, false, arc2Direction, r, if arc2Direction then -r else r),
             HorizontalTo(l.endX) ])
  }

  /** No path exactly when the anchors overlap horizontally. */
  lemma DrawPathBailsOnOverlap(first: AnchorPos, second: AnchorPos, svgHeight: real, containerWidth: real,
                               siteMargin: real, strokeWidth: real)
    ensures var d := DrawPath(first, second, svgHeight, containerWidth, siteMargin, strokeWidth);
            d.None? <==> second.x < first.x + first.width
  {
  }

  /** The curve starts one stroke width inside the bottom edge and heads
      for one stroke width inside the top edge when the first anchor sits
      lower, and the other way round otherwise; the two levels mirror each
      other across the container. */
  lemma CurveLevels(first: AnchorPos, second: AnchorPos, svgHeight: real, containerWidth: real,
                    siteMargin: real, strokeWidth: real)
    ensures var l := PlanCurve(first, second, svgHeight, containerWidth, siteMargin, strokeWidth);
            && (first.y > second.y ==>
                  l.startY == svgHeight - strokeWidth && l.endY == 0.0 && l.secondStartY == strokeWidth)
            && (first.y <= second.y ==>
                  l.startY == strokeWidth && l.endY == svgHeight && l.secondStartY == svgHeight - strokeWidth)
            && l.startY + l.secondStartY == svgHeight
  {
  }

  /** The levels depend on the anchors only through which one is lower. */
  lemma CurveLevelsDependOnlyOnOrder(first: AnchorPos, second: AnchorPos, first': AnchorPos, second': AnchorPos,
                                     svgHeight: real, containerWidth: real, siteMargin: real, strokeWidth: real)
    requires (first.y > second.y) == (first'.y > second'.y)
    ensures var l := PlanCurve(first, second, svgHeight, containerWidth, siteMargin, strokeWidth);
            var l' := PlanCurve(first', second', svgHeight, containerWidth, siteMargin, strokeWidth);
            l.startY == l'.startY && l.endY == l'.endY && l.secondStartY == l'.secondStartY
  {
  }

  /** The shape of the curve: a move to the margin, a line to where the
      bend begins, an S-bend of radius |firstAnchorEndY − secondAnchorStartY|/2
      whose arcs each move r across and together move
      secondAnchorStartY − firstAnchorEndY down, and a line to the far
      margin. */
  lemma DrawPathShape(first: AnchorPos, second: AnchorPos, svgHeight: real, containerWidth: real,
                      siteMargin: real, strokeWidth: real)
    requires first.x + first.width <= second.x
    ensures var l := PlanCurve(first, second, svgHeight, containerWidth, siteMargin, strokeWidth);
            var d := DrawPath(first, second, svgHeight, containerWidth, siteMargin, strokeWidth);
            && d.Some?
            && d.value[0] == MoveTo(siteMargin, l.startY)
            && d.value[1] == HorizontalTo(l.firstEndX + l.arcSpace - l.arcRadius)
            && l.arcRadius == Abs(first.y - l.secondStartY) / 2.0
            && IsSBend(d.value[2], d.value[3], l.arcRadius)
            && d.value[2].dx == l.arcRadius
            && d.value[2].dy + d.value[3].dy == l.secondStartY - first.y
            && d.value[4] == HorizontalTo(containerWidth - siteMargin)
  {
  }

  /** Where the curve goes: the bend starts r before the middle of the gap
      between the anchors and turns over exactly at that middle, after half
      of its vertical move; the curve ends at the far margin, displaced from
      its start by
      secondAnchorStartY − firstAnchorEndY, so it finishes on the second
      start level exactly when the first anchor's bottom lies on the start
      level. */
  lemma {:induction false} DrawPathTrace(first: AnchorPos, second: AnchorPos, svgHeight: real, containerWidth: real,
                                         siteMargin: real, strokeWidth: real)
    requires first.x + first.width <= second.x
    ensures var l := PlanCurve(first, second, svgHeight, containerWidth, siteMargin, strokeWidth);
            var d := DrawPath(first, second, svgHeight, containerWidth, siteMargin, strokeWidth).value;
            var rise := l.secondStartY - first.y;
            && EndPoint(d[..2]) == Point((first.x + first.width + second.x) / 2.0 - l.arcRadius, l.startY)
            && EndPoint(d[..3]) == Point((first.x + first.width + second.x) / 2.0, l.startY + rise / 2.0)
            && EndPoint(d) == Point(containerWidth - siteMargin, l.startY + rise)
            && (EndPoint(d).y == l.secondStartY <==> first.y == l.startY)
  {
    var l := PlanCurve(first, second, svgHeight, containerWidth, siteMargin, strokeWidth);
    var d := DrawPath(first, second, svgHeight, containerWidth, siteMargin, strokeWidth).value;
    var r := l.arcRadius;
    var dy := d[2].dy;
    var start := Point(siteMargin, l.startY);
    var pen0 := Pen(start, start);
    var pen1 := Pen(Point(l.firstEndX + l.arcSpace - r, l.startY), start);
    var pen2 := Pen(Point(l.firstEndX + l.arcSpace, l.startY + dy), start);
    var pen3 := Pen(Point(l.firstEndX + l.arcSpace + r, l.startY + dy + dy), start);
    var pen4 := Pen(Point(containerWidth - siteMargin, l.startY + dy + dy), start);
    assert Trace(Origin, d[..1]) == pen0 by {
      assert d[..1][1..] == [];
    }
    TraceOneMore(d, 1, pen0, pen1);
    TraceOneMore(d, 2, pen1, pen2);
    TraceOneMore(d, 3, pen2, pen3);
    TraceOneMore(d, 4, pen3, pen4);
    assert d[..5] == d;
  }

  // ---------------------------------------------------------------------
  // What both scripts read from the page, and the curve they draw for it.

  /** A `.hencurve-anchors-container`: its element identity, its `id`
      attribute ("" when it has none), its client rectangle, its jQuery
      width and height, the rectangles of its `.hencurve-anchor` elements in
      document order, and its classes. */
  datatype Container = Container(
    ref: nat, id: string, rect: Rect, width: real, height: real,
    anchors: seq<Rect>, classes: set<string>)

  /** An SVG added to a container, with the curve drawn into it if any. */
  datatype DrawnSvg = DrawnSvg(container: nat, path: Option<seq<Command>>)

  /** A ScrollTrigger, with the `id` it was created with, if any. */
  datatype Trigger = Trigger(id: Option<string>)

  /** `_findAnchors` followed by `_drawPath`: the curve for a container, or
      nothing when it has fewer than two anchors or they overlap. */
  function CurveFor(c: Container, siteMargin: real, strokeWidth: real): (d: Option<seq<Command>>)
    ensures |c.anchors| < 2 ==> d.None?
    ensures |c.anchors| >= 2 ==>
              d == DrawPath(FirstAnchorPos(c.anchors[0], c.rect), SecondAnchorPos(c.anchors[1], c.rect),
                            c.height, c.width, siteMargin, strokeWidth)
    ensures d.Some? <==> |c.anchors| >= 2 && c.anchors[0].left + c.anchors[0].width <= c.anchors[1].left
  {
    if |c.anchors| < 2 then None
    else
      var first := FirstAnchorPos(c.anchors[0], c.rect);
      var second := SecondAnchorPos(c.anchors[1], c.rect);
      DrawPathBailsOnOverlap(first, second, c.height, c.width, siteMargin, strokeWidth);
      DrawPath(first, second, c.height, c.width, siteMargin, strokeWidth)
  }

  /** The containers whose curve can be drawn, in order. */
  function Drawable(cs: seq<Container>, siteMargin: real, strokeWidth: real): seq<nat> {
    if cs == [] then []
    else
      var c := cs[|cs| - 1];
      Drawable(cs[..|cs| - 1], siteMargin, strokeWidth) + if CurveFor(c, siteMargin, strokeWidth).Some? then [c.ref] else []
  }
}
