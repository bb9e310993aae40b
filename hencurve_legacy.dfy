/** The older `HencurveAnchors` controller of
    src/scripts/components/_drawPath.js: a fixed 36px margin and 6px stroke,
    every drawn curve is animated and announced every time it is drawn, and
    destroying only removes the SVGs. */
module HencurveLegacy {
  import opened Common
  import opened SvgPath
  import opened CurveGeometry

  const LegacyMargin: real := 36.0
  const LegacyStroke: real := 6.0
  const ImmediateClass := "is-about-us-hero"

  /** What drawing changes in the older script: the SVGs, the live
      ScrollTriggers (created without an id) and the ready events. */
  datatype LegacyState = LegacyState(svgs: seq<DrawnSvg>, triggers: seq<Trigger>, readyEvents: seq<nat>)

  /** Whether `animateSVG` animates at once rather than on scroll: on the
      404 page or in the about-us hero. */
  predicate AnimatesAtOnce(c: Container, pageIs404: bool) {
    pageIs404 || ImmediateClass in c.classes
  }

  /** `_drawSVG(container)` in the older script. */
  function LegacyDrawOne(st: LegacyState, c: Container, pageIs404: bool): LegacyState {
    var path := CurveFor(c, LegacyMargin, LegacyStroke);
    var drawn := st.(svgs := st.svgs + [DrawnSvg(c.ref, path)]);
    if path.None? then drawn
    else
      drawn.(triggers := if AnimatesAtOnce(c, pageIs404) then st.triggers else st.triggers + [Trigger(None)],
             readyEvents := st.readyEvents + [c.ref])
  }

  function LegacyDrawFrame(st: LegacyState, cs: seq<Container>, pageIs404: bool): LegacyState {
    if cs == [] then st
    else LegacyDrawOne(LegacyDrawFrame(st, cs[..|cs| - 1], pageIs404), cs[|cs| - 1], pageIs404)
  }

  /** The containers a frame gives a new ScrollTrigger, in order. */
  function ScrollAnimated(cs: seq<Container>, pageIs404: bool): seq<nat> {
    if cs == [] then []
    else
      var c := cs[|cs| - 1];
      ScrollAnimated(cs[..|cs| - 1], pageIs404)
        + if CurveFor(c, LegacyMargin, LegacyStroke).Some? && !AnimatesAtOnce(c, pageIs404) then [c.ref] else []
  }

  class LegacyHencurveAnchors {
    var isMobile: bool
    var containers: seq<Container>
    var svgs: seq<DrawnSvg>
    var triggers: seq<Trigger>
    var readyEvents: seq<nat>

    function State(): LegacyState
      reads this
    {
      LegacyState(svgs, triggers, readyEvents)
    }

    constructor(existing: seq<Trigger>)
      ensures !isMobile && containers == [] && svgs == [] && triggers == existing && readyEvents == []
    {
      isMobile := false;
      containers := [];
      svgs := [];
      triggers := existing;
      readyEvents := [];
    }

    /** `_init()`. */
    method Init(found: seq<Container>) returns (scheduled: bool)
      modifies this
      ensures scheduled <==> !isMobile && |found| > 0
      ensures containers == if old(isMobile) then old(containers) else found
      ensures State() == old(State()) && isMobile == old(isMobile)
    {
      if isMobile {
        return false;
      }
      containers := found;
      scheduled := |containers| > 0;
    }

    /** `_drawSVG` with `_findAnchors`, `_drawPath`, `onCompleteEvent` and
        the bookkeeping of `animateSVG`. */
    method DrawSvg(c: Container, pageIs404: bool)
      modifies this
      ensures State() == LegacyDrawOne(old(State()), c, pageIs404)
      ensures isMobile == old(isMobile) && containers == old(containers)
    {
      var path := CurveFor(c, LegacyMargin, LegacyStroke);
      svgs := svgs + [DrawnSvg(c.ref, path)];
      if path.Some? {
        if !AnimatesAtOnce(c, pageIs404) {
          triggers := triggers + [Trigger(None)];
        }
        readyEvents := readyEvents + [c.ref];
      }
    }

    /** The frame callback `_init` requests. */
    method DrawAll(pageIs404: bool)
      modifies this
      ensures State() == LegacyDrawFrame(old(State()), containers, pageIs404)
      ensures isMobile == old(isMobile) && containers == old(containers)
    {
      var i := 0;
      while i < |containers|
        invariant 0 <= i <= |containers|
        invariant State() == LegacyDrawFrame(old(State()), containers[..i], pageIs404)
        invariant isMobile == old(isMobile) && containers == old(containers)
      {
        DrawSvg(containers[i], pageIs404);
        assert containers[..i + 1][..i] == containers[..i];
        i := i + 1;
      }
      assert containers[..i] == containers;
    }

    /** `_destroy()`: remove the SVGs. */
    method Destroy()
      modifies this
      ensures svgs == [] && triggers == old(triggers) && readyEvents == old(readyEvents)
      ensures isMobile == old(isMobile) && containers == old(containers)
    {
      svgs := [];
    }

    /** The mobile breakpoint handler. */
    method EnterMobile()
      modifies this
      ensures isMobile && svgs == [] && triggers == old(triggers) && readyEvents == old(readyEvents)
      ensures containers == old(containers)
    {
      isMobile := true;
      Destroy();
    }

    /** The desktop breakpoint handler and the frame it requests. */
    method EnterDesktop(found: seq<Container>) returns (scheduled: bool)
      modifies this
      ensures !isMobile && containers == found && (scheduled <==> |found| > 0)
      ensures State() == old(State())
    {
      isMobile := false;
      scheduled := Init(found);
    }

    /** The debounced resize handler with its two frames. */
    method HandleResize(found: seq<Container>) returns (scheduled: bool)
      modifies this
      ensures old(isMobile) ==> !scheduled && State() == old(State()) && containers == old(containers)
      ensures !old(isMobile) ==>
                && scheduled == (|found| > 0) && containers == found
                && svgs == [] && triggers == old(triggers) && readyEvents == old(readyEvents)
      ensures isMobile == old(isMobile)
    {
      if isMobile {
        return false;
      }
      Destroy();
      scheduled := Init(found);
    }
  }

  /** Every frame announces every drawable container again, in order, and
      adds one ScrollTrigger per drawable container that animates on scroll;
      the SVGs gain one per container. */
  lemma {:induction false} LegacyFrameEffect(st: LegacyState, cs: seq<Container>, pageIs404: bool)
    ensures var after := LegacyDrawFrame(st, cs, pageIs404);
            && after.readyEvents == st.readyEvents + Drawable(cs, LegacyMargin, LegacyStroke)
            && |after.triggers| == |st.triggers| + |ScrollAnimated(cs, pageIs404)|
            && st.triggers <= after.triggers
            && |after.svgs| == |st.svgs| + |cs|
  {
    if cs != [] {
      LegacyFrameEffect(st, cs[..|cs| - 1], pageIs404);
    }
  }

  /** With the fixed margin, every curve starts 36px from the left edge,
      6px inside the top or bottom edge, and ends 36px from the right edge. */
  lemma LegacyCurveMargins(c: Container)
    requires CurveFor(c, LegacyMargin, LegacyStroke).Some?
    ensures var d := CurveFor(c, LegacyMargin, LegacyStroke).value;
            && d[0].MoveTo? && d[0].x == 36.0 && (d[0].y == 6.0 || d[0].y == c.height - 6.0)
            && d[4] == HorizontalTo(c.width - 36.0)
  {
    var first := FirstAnchorPos(c.anchors[0], c.rect);
    var second := SecondAnchorPos(c.anchors[1], c.rect);
    DrawPathShape(first, second, c.height, c.width, LegacyMargin, LegacyStroke);
    CurveLevels(first, second, c.height, c.width, LegacyMargin, LegacyStroke);
  }

  /** Destroying keeps every ScrollTrigger, so a container that animates on
      scroll collects one more trigger with every resize: after `n`
      destroy-and-redraw rounds it has `n` of them. */
  lemma {:induction false} LegacyTriggersAccumulate(st: LegacyState, c: Container, n: nat)
    requires CurveFor(c, LegacyMargin, LegacyStroke).Some? && !AnimatesAtOnce(c, false)
    ensures |Rounds(st, c, n).triggers| == |st.triggers| + n
  {
    if n > 0 {
      LegacyTriggersAccumulate(st, c, n - 1);
      var before := Rounds(st, c, n - 1).(svgs := []);
      assert [c][..0] == [];
      assert LegacyDrawFrame(before, [c], false) == LegacyDrawOne(before, c, false);
    }
  }

  /** `n` rounds of the resize handler (destroy, then draw) over a page
      with the single container `c`. */
  function Rounds(st: LegacyState, c: Container, n: nat): LegacyState {
    if n == 0 then st
    else LegacyDrawFrame(Rounds(st, c, n - 1).(svgs := []), [c], false)
  }
}
