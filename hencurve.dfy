/** The `HencurveAnchors` controller of src/scripts/_components/_drawPath.js:
    it draws one curve per container, announces each drawn curve with a
    `hencurvesPathReady` event, gives scroll-driven curves a ScrollTrigger
    named `hencurve-…`, and after the initial load remembers which
    containers it has animated so that a redraw does not announce them
    twice. Destroying clears that memory, removes the SVGs and kills only its
    own triggers. */
module Hencurve {
  import opened Common
  import opened SvgPath
  import opened CurveGeometry
  import opened RemUnits

  const TriggerPrefix := "hencurve-"
  const NoScrollClass := "is-animate-no-scroll"

  /** `convertRemToPixels("2.25rem")`; it always succeeds. */
  function SiteMargin(rootFontSize: real): (m: real)
    ensures ConvertRemToPixels(RemString("2.25rem"), rootFontSize) == Ok(m)
  {
    HencurveLengths(rootFontSize);
    ConvertRemToPixels(RemString("2.25rem"), rootFontSize).value
  }

  /** `convertRemToPixels("0.5rem")`; it always succeeds. */
  function StrokeWidth(rootFontSize: real): (w: real)
    ensures ConvertRemToPixels(RemString("0.5rem"), rootFontSize) == Ok(w)
  {
    HencurveLengths(rootFontSize);
    ConvertRemToPixels(RemString("0.5rem"), rootFontSize).value
  }

  /** The ScrollTrigger id of a container: the prefix and its `id`, or the
      current time in milliseconds when it has none. */
  function TriggerId(c: Container, now: nat): (id: string)
    ensures TriggerPrefix <= id
    ensures c.id != "" ==> id[|TriggerPrefix|..] == c.id
  {
    TriggerPrefix + if c.id != "" then c.id else NatToString(now)
  }

  /** The triggers `_destroy` kills. */
  predicate IsHencurveTrigger(t: Trigger) {
    t.id.Some? && TriggerPrefix <= t.id.value
  }

  /** The triggers that survive `_destroy`, in their order. */
  function KeepForeign(ts: seq<Trigger>): seq<Trigger> {
    if ts == [] then []
    else
      var last := ts[|ts| - 1];
      KeepForeign(ts[..|ts| - 1]) + if IsHencurveTrigger(last) then [] else [last]
  }

  /** What drawing changes: the SVGs in the containers, the live triggers,
      the ready events dispatched so far (by container), and the set of
      containers marked as animated. */
  datatype DrawState = DrawState(svgs: seq<DrawnSvg>, triggers: seq<Trigger>, readyEvents: seq<nat>, animated: set<nat>)

  /** `_drawSVG(container)`: add an SVG, draw the curve into it, and unless
      the container was already animated after the initial load, animate it
      (marking it after the initial load, creating a trigger unless it
      animates without scrolling) and dispatch the ready event. */
  function DrawOne(st: DrawState, c: Container, siteMargin: real, strokeWidth: real, initialLoad: bool, now: nat): DrawState {
    var path := CurveFor(c, siteMargin, strokeWidth);
    var drawn := st.(svgs := st.svgs + [DrawnSvg(c.ref, path)]);
    if path.None? || (!initialLoad && c.ref in st.animated) then drawn
    else
      drawn.(
        animated := if initialLoad then st.animated else st.animated + {c.ref},
        triggers := if NoScrollClass in c.classes then st.triggers else st.triggers + [Trigger(Some(TriggerId(c, now)))],
        readyEvents := st.readyEvents + [c.ref])
  }

  /** The animation-frame callback of `_init`: every container in order. */
  function DrawFrame(st: DrawState, cs: seq<Container>, siteMargin: real, strokeWidth: real, initialLoad: bool, now: nat): DrawState {
    if cs == [] then st
    else DrawOne(DrawFrame(st, cs[..|cs| - 1], siteMargin, strokeWidth, initialLoad, now), cs[|cs| - 1],
                 siteMargin, strokeWidth, initialLoad, now)
  }

  /** A frame over one more container is one more `_drawSVG` step. */
  lemma DrawFrameSnoc(st: DrawState, cs: seq<Container>, i: nat, siteMargin: real, strokeWidth: real, initialLoad: bool, now: nat)
    requires i < |cs|
    ensures DrawFrame(st, cs[..i + 1], siteMargin, strokeWidth, initialLoad, now)
            == DrawOne(DrawFrame(st, cs[..i], siteMargin, strokeWidth, initialLoad, now), cs[i], siteMargin, strokeWidth, initialLoad, now)
  {
    assert cs[..i + 1][..i] == cs[..i];
  }

  class HencurveAnchors {
    var isMobile: bool
    var containers: seq<Container>
    var animatedContainers: set<nat>
    var isInitialLoad: bool
    var hasInitialized: bool
    var svgs: seq<DrawnSvg>
    var triggers: seq<Trigger>
    var readyEvents: seq<nat>

    function State(): DrawState
      reads this
    {
      DrawState(svgs, triggers, readyEvents, animatedContainers)
    }

    /** The object and the module flags as the page loads; `existing` are the
        triggers other scripts have created. */
    constructor(existing: seq<Trigger>)
      ensures !isMobile && containers == [] && animatedContainers == {}
      ensures isInitialLoad && !hasInitialized
      ensures svgs == [] && triggers == existing && readyEvents == []
    {
      isMobile := false;
      containers := [];
      animatedContainers := {};
      isInitialLoad := true;
      hasInitialized := false;
      svgs := [];
      triggers := existing;
      readyEvents := [];
    }

    /** `_init()`: on desktop, remember the containers found and report
        whether a frame was requested to draw them. */
    method Init(found: seq<Container>) returns (scheduled: bool)
      modifies this
      ensures scheduled <==> !isMobile && |found| > 0
      ensures containers == if old(isMobile) then old(containers) else found
      ensures State() == old(State()) && isMobile == old(isMobile)
      ensures isInitialLoad == old(isInitialLoad) && hasInitialized == old(hasInitialized)
    {
      if isMobile {
        return false;
      }
      containers := found;
      scheduled := |containers| > 0;
    }

    /** `onCompleteEvent` and `animateSVG` for a container whose curve was
        just drawn. */
    method OnCompleteEvent(c: Container, now: nat)
      modifies this
      ensures !old(isInitialLoad) && c.ref in old(animatedContainers) ==> State() == old(State())
      ensures !(!old(isInitialLoad) && c.ref in old(animatedContainers)) ==>
                && readyEvents == old(readyEvents) + [c.ref]
                && animatedContainers == (if isInitialLoad then old(animatedContainers) else old(animatedContainers) + {c.ref})
                && triggers == (if NoScrollClass in c.classes then old(triggers) else old(triggers) + [Trigger(Some(TriggerId(c, now)))])
                && svgs == old(svgs)
      ensures isMobile == old(isMobile) && containers == old(containers)
      ensures isInitialLoad == old(isInitialLoad) && hasInitialized == old(hasInitialized)
    {
      if !isInitialLoad && c.ref in animatedContainers {
        return;
      }
      AnimateSvg(c, now);
      readyEvents := readyEvents + [c.ref];
    }

    /** The bookkeeping part of `animateSVG`. */
    method AnimateSvg(c: Container, now: nat)
      modifies this
      ensures animatedContainers == if isInitialLoad then old(animatedContainers) else old(animatedContainers) + {c.ref}
      ensures triggers == if NoScrollClass in c.classes then old(triggers) else old(triggers) + [Trigger(Some(TriggerId(c, now)))]
      ensures svgs == old(svgs) && readyEvents == old(readyEvents)
      ensures isMobile == old(isMobile) && containers == old(containers)
      ensures isInitialLoad == old(isInitialLoad) && hasInitialized == old(hasInitialized)
    {
      if !isInitialLoad {
        animatedContainers := animatedContainers + {c.ref};
      }
      if NoScrollClass !in c.classes {
        triggers := triggers + [Trigger(Some(TriggerId(c, now)))];
      }
    }

    /** `_drawSVG(container)` with `_findAnchors` and `_drawPath`. */
    method DrawSvg(c: Container, rootFontSize: real, now: nat)
      modifies this
      ensures State() == DrawOne(old(State()), c, SiteMargin(rootFontSize), StrokeWidth(rootFontSize), isInitialLoad, now)
      ensures isMobile == old(isMobile) && containers == old(containers)
      ensures isInitialLoad == old(isInitialLoad) && hasInitialized == old(hasInitialized)
    {
      DrawCurve(c, SiteMargin(rootFontSize), StrokeWidth(rootFontSize), now);
    }

    /** The body of `_drawSVG` once `_drawPath` has converted the margin and
        the stroke width. */
    method DrawCurve(c: Container, siteMargin: real, strokeWidth: real, now: nat)
      modifies this
      ensures State() == DrawOne(old(State()), c, siteMargin, strokeWidth, isInitialLoad, now)
      ensures isMobile == old(isMobile) && containers == old(containers)
      ensures isInitialLoad == old(isInitialLoad) && hasInitialized == old(hasInitialized)
    {
      var path := CurveFor(c, siteMargin, strokeWidth);
      svgs := svgs + [DrawnSvg(c.ref, path)];
      if path.Some? {
        OnCompleteEvent(c, now);
      }
    }

    /** The frame callback `_init` requests: draw every container found. */
    method DrawAll(rootFontSize: real, now: nat)
      modifies this
      ensures State() == DrawFrame(old(State()), containers, SiteMargin(rootFontSize), StrokeWidth(rootFontSize), isInitialLoad, now)
      ensures isMobile == old(isMobile) && containers == old(containers)
      ensures isInitialLoad == old(isInitialLoad) && hasInitialized == old(hasInitialized)
    {
      ghost var start, margin, stroke := State(), SiteMargin(rootFontSize), StrokeWidth(rootFontSize);
      var i := 0;
      while i < |containers|
        invariant 0 <= i <= |containers|
        invariant State() == DrawFrame(start, containers[..i], margin, stroke, isInitialLoad, now)
        invariant isMobile == old(isMobile) && containers == old(containers)
        invariant isInitialLoad == old(isInitialLoad) && hasInitialized == old(hasInitialized)
      {
        DrawSvg(containers[i], rootFontSize, now);
        DrawFrameSnoc(start, containers, i, margin, stroke, isInitialLoad, now);
        i := i + 1;
      }
      assert containers[..i] == containers;
    }

    /** `_destroy()`: forget the animated containers, kill the triggers
        named `hencurve-…`, remove the SVGs. */
    method Destroy()
      modifies this
      ensures animatedContainers == {} && svgs == []
      ensures triggers == KeepForeign(old(triggers))
      ensures readyEvents == old(readyEvents)
      ensures isMobile == old(isMobile) && containers == old(containers)
      ensures isInitialLoad == old(isInitialLoad) && hasInitialized == old(hasInitialized)
    {
      animatedContainers := {};
      var kept := [];
      var i := 0;
      while i < |triggers|
        invariant 0 <= i <= |triggers|
        invariant kept == KeepForeign(triggers[..i])
      {
        if !IsHencurveTrigger(triggers[i]) {
          kept := kept + [triggers[i]];
        }
        assert triggers[..i + 1][..i] == triggers[..i];
        i := i + 1;
      }
      assert triggers[..i] == triggers;
      triggers := kept;
      svgs := [];
    }

    /** The mobile breakpoint handler. */
    method EnterMobile()
      modifies this
      ensures isMobile && !hasInitialized && isInitialLoad
      ensures animatedContainers == {} && svgs == [] && triggers == KeepForeign(old(triggers))
      ensures readyEvents == old(readyEvents) && containers == old(containers)
    {
      isMobile := true;
      Destroy();
      hasInitialized := false;
      isInitialLoad := true;
    }

    /** The desktop breakpoint handler and the frame it requests. */
    method EnterDesktop(found: seq<Container>) returns (scheduled: bool)
      modifies this
      ensures !isMobile && hasInitialized && containers == found
      ensures scheduled <==> |found| > 0
      ensures State() == old(State()) && isInitialLoad == old(isInitialLoad)
    {
      isMobile := false;
      scheduled := Init(found);
      hasInitialized := true;
    }

    /** The debounced resize handler with its timeout and frame: on desktop,
        destroy and re-initialise, after which the initial load is over. */
    method HandleResize(found: seq<Container>) returns (scheduled: bool)
      modifies this
      ensures old(isMobile) ==> !scheduled && State() == old(State()) && containers == old(containers)
      ensures old(isMobile) ==> isInitialLoad == old(isInitialLoad) && hasInitialized == old(hasInitialized)
      ensures !old(isMobile) ==>
                && scheduled == (|found| > 0) && containers == found
                && animatedContainers == {} && svgs == [] && triggers == KeepForeign(old(triggers))
                && readyEvents == old(readyEvents)
                && !isInitialLoad && hasInitialized
      ensures isMobile == old(isMobile)
    {
      if isMobile {
        return false;
      }
      Destroy();
      scheduled := Init(found);
      hasInitialized := true;
      isInitialLoad := false;
    }

    /** The window `load` listener: resize once unless already set up. */
    method OnLoad(found: seq<Container>) returns (scheduled: bool)
      modifies this
      ensures old(hasInitialized) ==> !scheduled && State() == old(State()) && containers == old(containers)
      ensures old(hasInitialized) ==> isInitialLoad == old(isInitialLoad) && hasInitialized
      ensures !old(hasInitialized) && old(isMobile) ==>
                && !scheduled && State() == old(State()) && containers == old(containers)
                && isInitialLoad == old(isInitialLoad) && !hasInitialized
      ensures !old(hasInitialized) && !old(isMobile) ==>
                && scheduled == (|found| > 0) && containers == found
                && animatedContainers == {} && svgs == [] && triggers == KeepForeign(old(triggers))
                && readyEvents == old(readyEvents)
                && !isInitialLoad && hasInitialized
      ensures isMobile == old(isMobile)
    {
      if !hasInitialized {
        scheduled := HandleResize(found);
      } else {
        scheduled := false;
      }
    }
  }

  // ---------------------------------------------------------------------
  // What a frame does.

  /** The surviving triggers are exactly the foreign ones, in order. */
  lemma {:induction false} KeepForeignKeepsExactlyForeign(ts: seq<Trigger>)
    ensures forall t :: t in KeepForeign(ts) <==> t in ts && !IsHencurveTrigger(t)
    ensures |KeepForeign(ts)| <= |ts|
  {
    if ts != [] {
      var init := ts[..|ts| - 1];
      KeepForeignKeepsExactlyForeign(init);
      assert ts == init + [ts[|ts| - 1]];
    }
  }

  lemma {:induction false} KeepForeignAppend(a: seq<Trigger>, b: seq<Trigger>)
    ensures KeepForeign(a + b) == KeepForeign(a) + KeepForeign(b)
    decreases |b|
  {
    if b == [] {
      assert a + b == a;
    } else {
      var b' := b[..|b| - 1];
      assert (a + b)[..|a + b| - 1] == a + b';
      KeepForeignAppend(a, b');
    }
  }

  /** Every trigger a frame creates is one `_destroy` kills, so destroying
      after any number of frames leaves exactly the foreign triggers that
      were there before. */
  lemma {:induction false} DestroyUndoesFrameTriggers(st: DrawState, cs: seq<Container>, siteMargin: real, strokeWidth: real, initialLoad: bool, now: nat)
    ensures KeepForeign(DrawFrame(st, cs, siteMargin, strokeWidth, initialLoad, now).triggers) == KeepForeign(st.triggers)
  {
    if cs != [] {
      var before := DrawFrame(st, cs[..|cs| - 1], siteMargin, strokeWidth, initialLoad, now);
      DestroyUndoesFrameTriggers(st, cs[..|cs| - 1], siteMargin, strokeWidth, initialLoad, now);
      var after := DrawFrame(st, cs, siteMargin, strokeWidth, initialLoad, now);
      if after.triggers != before.triggers {
        var c := cs[|cs| - 1];
        var t := Trigger(Some(TriggerId(c, now)));
        assert after.triggers == before.triggers + [t];
        KeepForeignAppend(before.triggers, [t]);
        assert KeepForeign([t]) == KeepForeign([]) + [] by {
          assert [t][..0] == [];
        }
      }
    }
  }

  /** A frame only adds to the animated set, and never removes SVGs. */
  lemma {:induction false} DrawFrameGrows(st: DrawState, cs: seq<Container>, siteMargin: real, strokeWidth: real, initialLoad: bool, now: nat)
    ensures var after := DrawFrame(st, cs, siteMargin, strokeWidth, initialLoad, now);
            st.animated <= after.animated && st.readyEvents <= after.readyEvents
            && after.svgs == st.svgs + SvgsFor(cs, siteMargin, strokeWidth)
  {
    if cs != [] {
      DrawFrameGrows(st, cs[..|cs| - 1], siteMargin, strokeWidth, initialLoad, now);
    }
  }

  /** One SVG per container, in order, holding its curve if it has one. */
  function SvgsFor(cs: seq<Container>, siteMargin: real, strokeWidth: real): (r: seq<DrawnSvg>)
    ensures |r| == |cs|
    ensures forall i :: 0 <= i < |cs| ==> r[i] == DrawnSvg(cs[i].ref, CurveFor(cs[i], siteMargin, strokeWidth))
  {
    if cs == [] then []
    else SvgsFor(cs[..|cs| - 1], siteMargin, strokeWidth) + [DrawnSvg(cs[|cs| - 1].ref, CurveFor(cs[|cs| - 1], siteMargin, strokeWidth))]
  }

  /** During the initial load nothing is remembered: every drawable
      container is announced, in order, each time a frame runs. */
  lemma {:induction false} InitialLoadAnnouncesAll(st: DrawState, cs: seq<Container>, siteMargin: real, strokeWidth: real, now: nat)
    ensures var after := DrawFrame(st, cs, siteMargin, strokeWidth, true, now);
            after.readyEvents == st.readyEvents + Drawable(cs, siteMargin, strokeWidth)
            && after.animated == st.animated
  {
    if cs != [] {
      InitialLoadAnnouncesAll(st, cs[..|cs| - 1], siteMargin, strokeWidth, now);
    }
  }

  /** After the initial load, a frame marks every drawable container. */
  lemma {:induction false} FrameMarksDrawable(st: DrawState, cs: seq<Container>, siteMargin: real, strokeWidth: real, now: nat)
    ensures var after := DrawFrame(st, cs, siteMargin, strokeWidth, false, now);
            forall c :: c in cs && CurveFor(c, siteMargin, strokeWidth).Some? ==> c.ref in after.animated
  {
    if cs != [] {
      var init := cs[..|cs| - 1];
      FrameMarksDrawable(st, init, siteMargin, strokeWidth, now);
      DrawFrameGrows(DrawFrame(st, init, siteMargin, strokeWidth, false, now), [cs[|cs| - 1]], siteMargin, strokeWidth, false, now);
      assert [cs[|cs| - 1]][..0] == [];
      assert forall c :: c in cs ==> c in init || c == cs[|cs| - 1] by {
        assert cs == init + [cs[|cs| - 1]];
      }
    }
  }

  /** After the initial load, a frame over containers that are all marked
      already announces nothing, creates no trigger and marks nothing new. */
  lemma {:induction false} MarkedFrameIsQuiet(st: DrawState, cs: seq<Container>, siteMargin: real, strokeWidth: real, now: nat)
    requires forall c :: c in cs && CurveFor(c, siteMargin, strokeWidth).Some? ==> c.ref in st.animated
    ensures var after := DrawFrame(st, cs, siteMargin, strokeWidth, false, now);
            after.readyEvents == st.readyEvents && after.triggers == st.triggers && after.animated == st.animated
  {
    if cs != [] {
      var init := cs[..|cs| - 1];
      assert forall c :: c in init ==> c in cs;
      MarkedFrameIsQuiet(st, init, siteMargin, strokeWidth, now);
    }
  }

  /** The point of `animatedContainers`: once the initial load is over,
      drawing the same containers a second time without destroying in
      between announces none of them again and adds no trigger. */
  lemma SecondFrameAnnouncesNothing(st: DrawState, cs: seq<Container>, siteMargin: real, strokeWidth: real, now: nat, later: nat)
    ensures var first := DrawFrame(st, cs, siteMargin, strokeWidth, false, now);
            var second := DrawFrame(first, cs, siteMargin, strokeWidth, false, later);
            second.readyEvents == first.readyEvents && second.triggers == first.triggers
  {
    var first := DrawFrame(st, cs, siteMargin, strokeWidth, false, now);
    FrameMarksDrawable(st, cs, siteMargin, strokeWidth, now);
    MarkedFrameIsQuiet(first, cs, siteMargin, strokeWidth, later);
  }
}
