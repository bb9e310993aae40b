/** The part of the SVG path-data grammar (section 8.3 of SVG 1.1) that the
    curve scripts emit, with the current-point rules that give each command
    its meaning. Coordinates are exact reals; how the scripts print numbers
    into the `d` attribute is not modelled. */
module SvgPath {

  datatype Point = Point(x: real, y: real)

  datatype Command =
    | MoveTo(x: real, y: real)          // M x,y
    | HorizontalBy(dx: real)            // h dx
    | HorizontalTo(x: real)             // H x
    | VerticalTo(y: real)               // V y
    | ArcBy(rx: real, ry: real, rotation: real, largeArc: bool, sweep: bool, dx: real, dy: real)  // a ...
    | ClosePath                         // Z

  /** The current point and the start of the current subpath
      (sections 8.3.2 to 8.3.8 of SVG 1.1). */
  datatype Pen = Pen(current: Point, subpathStart: Point)

  const Origin := Pen(Point(0.0, 0.0), Point(0.0, 0.0))

  function Step(pen: Pen, c: Command): Pen {
    match c
    case MoveTo(x, y) => Pen(Point(x, y), Point(x, y))
    case HorizontalBy(dx) => pen.(current := Point(pen.current.x + dx, pen.current.y))
    case HorizontalTo(x) => pen.(current := Point(x, pen.current.y))
    case VerticalTo(y) => pen.(current := Point(pen.current.x, y))
    case ArcBy(_, _, _, _, _, dx, dy) => pen.(current := Point(pen.current.x + dx, pen.current.y + dy))
    case ClosePath => pen.(current := pen.subpathStart)
  }

  /** The pen after drawing `cmds` from `pen`. */
  function Trace(pen: Pen, cmds: seq<Command>): Pen
    decreases |cmds|
  {
    if cmds == [] then pen else Trace(Step(pen, cmds[0]), cmds[1..])
  }

  /** Where a path whose first command is a move-to ends. */
  function EndPoint(cmds: seq<Command>): Point {
    Trace(Origin, cmds).current
  }

  /** Drawing a concatenation draws the first part, then the second. */
  lemma {:induction false} TraceAppend(pen: Pen, a: seq<Command>, b: seq<Command>)
    ensures Trace(pen, a + b) == Trace(Trace(pen, a), b)
    decreases |a|
  {
    if a != [] {
      assert (a + b)[1..] == a[1..] + b;
      TraceAppend(Step(pen, a[0]), a[1..], b);
    } else {
      assert a + b == b;
    }
  }

  /** Drawing one more command of `d` moves the pen by that command. */
  lemma TraceOneMore(d: seq<Command>, k: nat, before: Pen, after: Pen)
    requires 0 < k < |d|
    requires Trace(Origin, d[..k]) == before
    requires Step(before, d[k]) == after
    ensures Trace(Origin, d[..k + 1]) == after
  {
    assert d[..k + 1] == d[..k] + [d[k]];
    TraceAppend(Origin, d[..k], [d[k]]);
    assert [d[k]][1..] == [];
  }

  function Abs(v: real): (r: real)
    ensures r >= 0.0 && (r == v || r == -v)
  {
    if v < 0.0 then -v else v
  }

  /** A circular arc of radius `r` whose chord runs `r` across and `r` up
      or down: a quarter of a circle. */
  predicate IsQuarterArc(c: Command, r: real) {
    && c.ArcBy? && c.rx == r && c.ry == r && r >= 0.0
    && Abs(c.dx) == r && Abs(c.dy) == r
  }

  /** The chord of a quarter arc is the side of a square of radius r, so its
      endpoints lie a quarter turn apart on the circle. */
  lemma QuarterArcChord(c: Command, r: real)
    requires IsQuarterArc(c, r)
    ensures c.dx * c.dx + c.dy * c.dy == 2.0 * r * r
  {
    assert c.dx * c.dx == r * r by {
      if c.dx == -r {
        assert c.dx * c.dx == (-r) * (-r);
      }
    }
    assert c.dy * c.dy == r * r by {
      if c.dy == -r {
        assert c.dy * c.dy == (-r) * (-r);
      }
    }
  }

  /** Two quarter arcs of the same radius and displacement that turn
      opposite ways: an S-shaped step of 2r across and 2r up or down. */
  predicate IsSBend(a1: Command, a2: Command, r: real) {
    && IsQuarterArc(a1, r) && IsQuarterArc(a2, r)
    && a1.dx == a2.dx && a1.dy == a2.dy
    && a1.sweep != a2.sweep
  }
}
