# Hencove Webflow scripts, modelled in Dafny

The Hencove marketing site runs a handful of scripts on Webflow pages. This
project models their logic and proves properties about it:

- **The asset loader** (`asset-loader.js`, modules `AssetLoader`,
  `JsonValues`, `StringOrder`). It decides developer mode from the query string
  and the key/value store. It resolves the URL segment (`main` or the saved
  branch) and turns the build manifest into the stylesheet and script tags it
  injects into the head. When the manifest path fails it injects fixed file
  names instead. In developer mode it runs a panel for switching branch,
  refreshing and exiting. The class `AssetLoader.Page` holds the page state:
  the store, the branch, the branch list, the head, the panel and the
  navigation target.
- **The hencurve controller** (`src/scripts/_components/_drawPath.js`,
  modules `Hencurve`, `CurveGeometry`). It draws one curve per
  `.hencurve-anchors-container`, from the bottom of its first anchor to the
  top of its second. It announces each drawn curve and gives scroll-driven
  curves a `hencurve-…` ScrollTrigger. After the initial load it remembers
  which containers it has animated. Destroying clears that memory, removes
  the SVGs and kills only its own triggers. The older copy in
  `src/scripts/components/_drawPath.js` (module `HencurveLegacy`) uses a fixed
  36px margin and 6px stroke, announces on every draw and never kills a
  trigger.
- **The flip-mask `Path` helper** (`src/scripts/components/_path.js` and the
  identical inline class in `src/scripts/home/hero-curve.js` at lines 35-143, module
  `FlipPath`). It builds S-shaped outlines from two quarter arcs, and the
  four-group clip mask made from them.
- **Rem conversion** (`src/scripts/_utilities.js`, module `RemUnits`).
  `convertRemToPixels` strips everything but digits, `.` and `-`, and reads
  the longest leading decimal the way `parseFloat` does. It scales that
  value by the root font size, or throws.
- **Three small DOM scripts**:
  - the "our work" category tabs (`CategoryFilter`);
  - equal card heights (`CardSize`);
  - deselect-on-reclick for the team filter radios (`TeamFilter`).

Path data is a sequence of SVG commands (`SvgPath`). `SvgPath.Trace` follows
the pen through them as section 8.3 of SVG 1.1 defines the commands: `M`, `h`,
`H`, `V`, relative `a` and `Z`. That is how the lemmas state where a curve
goes.

Inputs the scripts read from their environment are parameters of the model:
- element rectangles and sizes;
- the root font size;
- `Date.now()`;
- fetch outcomes;
- the store and the location.

State the scripts change in place is the state of Dafny classes:
- `Hencurve.HencurveAnchors`, `HencurveLegacy.LegacyHencurveAnchors`;
- `AssetLoader.Page`;
- `CategoryFilter.CategoryFilterPage`, `CardSize.CardSection`,
  `TeamFilter.TeamFilterGrid`.

Each method is specified against a function of the old state, and the lemmas
state the properties of those functions.

## Model

| member | source | states |
|---|---|---|
| RemUnits.KeepNumericChars | src/scripts/_utilities.js:37 | the reduced text holds only digits, `.` and `-`, and is no longer than the input |
| RemUnits.KeepNumericCharsSingle | src/scripts/_utilities.js:37 | a single numeric character is kept and any other character is removed |
| RemUnits.KeepNumericCharsConcat | src/scripts/_utilities.js:37 | the reduction works character by character: it distributes over concatenation |
| RemUnits.KeepNumericCharsKeepsNumeric | src/scripts/_utilities.js:37 | text made only of numeric characters is kept as it is |
| RemUnits.KeepNumericCharsIdempotent | src/scripts/_utilities.js:37 | reducing twice is reducing once |
| RemUnits.LeadingDecimal | src/scripts/_utilities.js:37 | the scanned literal is well split: digit strings on both sides of the point, and no fraction unless a '.' was taken |
| RemUnits.LeadingDecimalIsLongestLiteral | src/scripts/_utilities.js:37 | the scanner finds nothing iff no prefix is a decimal literal; otherwise it returns the longest such prefix |
| RemUnits.LiteralValueShiftsPoint | src/scripts/_utilities.js:37 | a literal's value is its digits read as one integer, with the point moved left by the fraction's length and the sign applied |
| RemUnits.ParseRem | src/scripts/_utilities.js:37-40 | `parseFloat` of the reduced text is NaN iff no prefix of it is a decimal literal; otherwise it is the value of the longest literal prefix, read as a well-split literal |
| RemUnits.LongestLiteralFixesValue | src/scripts/_utilities.js:37-40 | any well-split literal whose text is the longest literal prefix of the reduced text has exactly the value `parseFloat` returns |
| RemUnits.LiteralSplitIsUnique | src/scripts/_utilities.js:37 | two well-split literals with the same text are the same literal, so a literal's text fixes its value |
| RemUnits.ConvertRemToPixels | src/scripts/_utilities.js:26-51 | a number gives rem × font size; a string gives the parsed value × font size; a string with no literal throws "Invalid REM value provided"; any other type throws "REM value must be a number or string" |
| RemUnits.ConvertRemReadsLongestLiteral | src/scripts/_utilities.js:37-47 | text is rejected iff its reduced form has no literal prefix; otherwise the result is the longest literal prefix's value × font size |
| RemUnits.HencurveLengths | src/scripts/_components/_drawPath.js:127-129 | "2.25rem" converts to 2.25 × font size and "0.5rem" to 0.5 × font size, without throwing |
| FlipPath.NewPath | src/scripts/components/_path.js:32-42 | the fields are the arguments, startY = endY = 0, and the path data is a single move to the origin |
| FlipPath.GenerateFlipShape | src/scripts/components/_path.js:44-72 | a closed outline has 8 commands ending in `Z`; an open one has 5 ending in `H width`; both start with a move |
| FlipPath.FlipShapeOutline | src/scripts/components/_path.js:44-72 | the outline is: a move to x = 32 at startY or endY (chosen by direction); `h` to 0.4·width − height/2; two quarter arcs of radius height/2 forming an S-bend whose first sweep is the direction and whose rise totals ±height; `H width`; when closed, `V 0` or `V height`, `H 32` and `Z` |
| FlipPath.OpenShapeIsPrefixOfClosed | src/scripts/components/_path.js:62-69 | the open outline is the closed one with its closing run cut off, and has no `Z` |
| FlipPath.FlipShapeEnds | src/scripts/components/_path.js:44-72 | the pen ends the bend one height below or above the start and reaches the right edge; the closed outline returns to its start |
| FlipPath.GetMaskFlipSvg | src/scripts/components/_path.js:74-151 | there are four groups, each with a closed clip; the fills and strokes of flip, unflip, flipInverse and unflipInverse are as written |
| FlipPath.MaskFlipSvgLayout | src/scripts/components/_path.js:74-151 | the group ids are in order and the sizes are the path's; each stroke shape is its clip's outline without the closing run |
| FlipPath.MaskCurvesSpanTheBox | src/scripts/components/_path.js:74-151 | flip runs from (32, 0) to (width, height) and unflip from (32, height) to (width, 0); the inverse groups share those curves and close on the other edge |
| CurveGeometry.FirstAnchorPos | src/scripts/_components/_drawPath.js:89-93 | the first anchor is located by its bottom-left corner, relative to the container |
| CurveGeometry.SecondAnchorPos | src/scripts/_components/_drawPath.js:95-99 | the second anchor is located by its top-left corner, relative to the container |
| CurveGeometry.DrawPath | src/scripts/_components/_drawPath.js:120-178 | a drawn path has five commands and starts with a move |
| CurveGeometry.DrawPathBailsOnOverlap | src/scripts/_components/_drawPath.js:152-158 | there is no path iff the second anchor starts left of the first anchor's right edge |
| CurveGeometry.CurveLevels | src/scripts/_components/_drawPath.js:137-150 | when the first anchor is lower: start one stroke above the bottom, end at 0, second level = 0 + stroke; otherwise: start at stroke, end at the height, second level = height − stroke |
| CurveGeometry.CurveLevelsDependOnlyOnOrder | src/scripts/_components/_drawPath.js:137-150 | the levels depend on the anchors only through which one is lower |
| CurveGeometry.DrawPathShape | src/scripts/_components/_drawPath.js:160-178 | the path is: a move to (margin, startY); `H` to firstEndX + arcSpace − r; two quarter arcs of radius r = \|firstY − secondLevel\|/2 with opposite sweeps; `H` to width − margin |
| CurveGeometry.DrawPathTrace | src/scripts/_components/_drawPath.js:160-178 | the bend is centred on the middle of the gap; the curve ends at width − margin, and it ends on the second anchor's level iff the first anchor sits on the start level |
| CurveGeometry.CurveFor | src/scripts/_components/_drawPath.js:67-118 | there is no curve with fewer than two anchors; otherwise the curve is `_drawPath` of the two anchor positions, and it exists iff the anchors do not overlap |
| Hencurve.SiteMargin | src/scripts/_components/_drawPath.js:127 | the margin is the successful conversion of "2.25rem" |
| Hencurve.StrokeWidth | src/scripts/_components/_drawPath.js:129 | the stroke is the successful conversion of "0.5rem" |
| Hencurve.TriggerId | src/scripts/_components/_drawPath.js:206 | the id starts with "hencurve-" and continues with the container's id when it has one |
| Hencurve.HencurveAnchors.constructor | src/scripts/_components/_drawPath.js:22-27 | the page starts on desktop with nothing animated, in the initial load, not yet initialized |
| Hencurve.HencurveAnchors.Init | src/scripts/_components/_drawPath.js:28-49 | on mobile nothing changes; otherwise the containers found are kept, and a frame is scheduled iff there are any |
| Hencurve.HencurveAnchors.OnCompleteEvent | src/scripts/_components/_drawPath.js:256-280 | after the initial load, an already animated container is skipped; otherwise it is animated and announced |
| Hencurve.HencurveAnchors.AnimateSvg | src/scripts/_components/_drawPath.js:194-254 | the container is marked only after the initial load; a `hencurve-` trigger is added unless it has `is-animate-no-scroll` |
| Hencurve.HencurveAnchors.DrawSvg | src/scripts/_components/_drawPath.js:51-65 | the new state is one `_drawSVG` step of the drawing specification |
| Hencurve.HencurveAnchors.DrawAll | src/scripts/_components/_drawPath.js:43-48 | the frame draws every container in order |
| Hencurve.HencurveAnchors.Destroy | src/scripts/_components/_drawPath.js:283-308 | the animated set and the SVGs are cleared, and exactly the non-`hencurve-` triggers survive, in order |
| Hencurve.HencurveAnchors.EnterMobile | src/scripts/_components/_drawPath.js:357-363 | entering mobile destroys everything and resets to the initial load |
| Hencurve.HencurveAnchors.EnterDesktop | src/scripts/_components/_drawPath.js:365-374 | entering desktop re-reads the containers, marks the page initialized and keeps the initial-load flag |
| Hencurve.HencurveAnchors.HandleResize | src/scripts/_components/_drawPath.js:324-351 | on mobile nothing happens; on desktop it destroys, re-reads the containers and ends the initial load |
| Hencurve.HencurveAnchors.OnLoad | src/scripts/_components/_drawPath.js:316-321 | once initialized, the load event changes nothing; on a first load it does what a resize does: on mobile nothing changes, and on desktop the found containers are kept, the animated set and the SVGs are cleared, only the foreign triggers survive, the initial load ends, and a frame is scheduled iff there are containers |
| Hencurve.KeepForeignKeepsExactlyForeign | src/scripts/_components/_drawPath.js:291-296 | a trigger survives iff it is not a `hencurve-` trigger |
| Hencurve.DestroyUndoesFrameTriggers | src/scripts/_components/_drawPath.js:194-308 | destroying after any frame leaves exactly the foreign triggers that were live before it |
| Hencurve.DrawFrameGrows | src/scripts/_components/_drawPath.js:43-65 | a frame adds one SVG per container, in order, and only adds to the animated set and the events |
| Hencurve.InitialLoadAnnouncesAll | src/scripts/_components/_drawPath.js:256-280 | during the initial load a frame announces every drawable container, in order, and marks none |
| Hencurve.FrameMarksDrawable | src/scripts/_components/_drawPath.js:213-237 | after the initial load a frame marks every drawable container |
| Hencurve.MarkedFrameIsQuiet | src/scripts/_components/_drawPath.js:259-266 | a frame over already marked containers announces nothing and adds no trigger |
| Hencurve.SecondFrameAnnouncesNothing | src/scripts/_components/_drawPath.js:256-280 | after the initial load, redrawing without destroying announces no container twice |
| HencurveLegacy.LegacyHencurveAnchors.constructor | src/scripts/components/_drawPath.js:20-22 | the page starts on desktop with no SVGs |
| HencurveLegacy.LegacyHencurveAnchors.Init | src/scripts/components/_drawPath.js:24-51 | on mobile nothing changes; otherwise the containers found are kept, and a frame is scheduled iff there are any |
| HencurveLegacy.LegacyHencurveAnchors.DrawSvg | src/scripts/components/_drawPath.js:54-64 | the new state is one `_drawSVG` step of the older drawing specification |
| HencurveLegacy.LegacyHencurveAnchors.DrawAll | src/scripts/components/_drawPath.js:44-50 | the frame draws every container in order |
| HencurveLegacy.LegacyHencurveAnchors.Destroy | src/scripts/components/_drawPath.js:295-305 | only the SVGs are removed; the triggers stay |
| HencurveLegacy.LegacyHencurveAnchors.EnterMobile | src/scripts/components/_drawPath.js:332-336 | entering mobile removes the SVGs |
| HencurveLegacy.LegacyHencurveAnchors.EnterDesktop | src/scripts/components/_drawPath.js:338-345 | entering desktop re-reads the containers |
| HencurveLegacy.LegacyHencurveAnchors.HandleResize | src/scripts/components/_drawPath.js:309-326 | on desktop it removes the SVGs and re-reads the containers |
| HencurveLegacy.LegacyFrameEffect | src/scripts/components/_drawPath.js:241-293 | every frame announces every drawable container again and adds one trigger per scroll-animated one |
| HencurveLegacy.LegacyCurveMargins | src/scripts/components/_drawPath.js:140-239 | curves start 36px from the left, 6px inside the top or bottom edge, and end 36px from the right |
| HencurveLegacy.LegacyTriggersAccumulate | src/scripts/components/_drawPath.js:295-326 | after n resize rounds a scroll-animated container has n more live triggers |
| Common.ContainsIff | asset-loader.js:10 | `includes` holds iff the needle occurs at some index |
| AssetLoader.IsDevIff | asset-loader.js:9-10 | developer mode is on iff the query contains "dev" or the stored `webflow-dev` is exactly "true" |
| AssetLoader.StartupWritesOnlyTheFlag | asset-loader.js:12-14 | startup writes `webflow-dev` = "true" iff the query contains "dev", and touches no other key |
| AssetLoader.DevModeSticks | asset-loader.js:9-14 | after a visit with "dev", every later visit is in developer mode |
| AssetLoader.StartupSegment | asset-loader.js:7-28 | the segment is "main" outside developer mode, and in developer mode the saved branch if it is non-empty, else "main"; it is never empty |
| AssetLoader.MainEntry | asset-loader.js:75-78 | there is an entry iff the manifest has a truthy "main.js" |
| AssetLoader.CssFiles | asset-loader.js:81-85 | `forEach` throws iff `css` is truthy with a positive length but is not an array; an array gives its elements' string forms in order; anything else gives none |
| AssetLoader.ManifestAssets | asset-loader.js:63-88 | the manifest path fails iff the fetch rejects, the body is not JSON, there is no truthy "main.js" entry, or its css throws; on success the stylesheets are the entry's css files and the script is the entry's `file` as printed |
| AssetLoader.StylesheetTags | asset-loader.js:81-84 | one stylesheet per listed file, in order, at `base/segment/file` |
| AssetLoader.LoadTagsShape | asset-loader.js:63-117 | every load injects stylesheets and then exactly one async script; the manifest path gives the listed stylesheets then the entry's script; the fallback gives exactly two tags |
| AssetLoader.NoCssWithoutList | asset-loader.js:81-88 | with `css` absent, falsy, empty or not a list, only the script is injected |
| AssetLoader.FallbackNames | asset-loader.js:106-116 | outside developer mode the fallback is `styles.min.css` and then `bundle.min.js` |
| AssetLoader.DevFallbackNames | asset-loader.js:106-116 | in developer mode the fallback is `styles.css?v=<now>` and then `bundle.js?v=<now>` |
| AssetLoader.TimeAgoCases | asset-loader.js:160-169 | under 60000 ms (including negative differences) gives "just now"; below an hour gives "⌊d/60000⌋m ago"; otherwise "⌊d/3600000⌋h ago"; the printed number reads back as that floor |
| AssetLoader.NamesOf | asset-loader.js:50 | the names are each element's `name`, in order |
| AssetLoader.BranchesAfterFetchSpec | asset-loader.js:39-61 | on success the list is the names, sorted, as a permutation; on any error it is `[currentBranch]` |
| AssetLoader.OptionsFor | asset-loader.js:148-154 | there is one option per branch, in order, selected iff it is the current branch |
| AssetLoader.OneSelectedOption | asset-loader.js:148-154 | with distinct names, at most one option is selected, and one is iff the current branch is listed |
| AssetLoader.DeleteParam | asset-loader.js:234-235 | the parameters left are exactly those with another name |
| AssetLoader.SetParamSpec | asset-loader.js:214-215 | after `set` the name occurs once, with the new value, and every other parameter is unchanged and in place |
| AssetLoader.ReloadThenExit | asset-loader.js:213-257 | a reload query has exactly one `dev` = "" and one `t` = now; exit removes both, so exiting after a reload gives the same query as exiting at once |
| AssetLoader.ExitLeavesDevMode | asset-loader.js:223-237 | after exit, a visit without "dev" in its query is a production visit on "main" |
| AssetLoader.SwitchedBranchIsLoadedNext | asset-loader.js:205-216 | the branch chosen is the segment of the next developer-mode visit |
| AssetLoader.Page.constructor | asset-loader.js:5-28 | the startup state: the mode, the stored flag, the initial branch and an empty head |
| AssetLoader.Page.LoadAsset | asset-loader.js:119-131 | one stylesheet, or one async script, is appended to the head |
| AssetLoader.Page.UpdateDevPanelManifestInfo | asset-loader.js:133-139 | the manifest line is rewritten only when the panel is shown and a time is known |
| AssetLoader.Page.LoadAssetsWithManifest | asset-loader.js:63-117 | the head gains exactly the load's tags; the manifest time is kept only in developer mode on the manifest path, and there the panel's manifest line is rewritten when the panel is shown and a time is known |
| AssetLoader.Page.UpdateBranchSelector | asset-loader.js:141-158 | with a panel and a non-empty list, the options are rebuilt from the list and the selector is enabled; otherwise nothing changes |
| AssetLoader.Page.FetchGitHubBranches | asset-loader.js:39-61 | the branch list becomes the fetch's result; with a panel and a non-empty list the selector is rebuilt and enabled, and otherwise it is left as it was |
| AssetLoader.Page.AddDevPanel | asset-loader.js:171-200 | a fresh panel shows the branches and manifest time already known, or the loading placeholders |
| AssetLoader.Page.SelectBranch | asset-loader.js:205-218 | re-selecting the current branch changes nothing; another branch is stored and the page reloads with `dev` and `t` set |
| AssetLoader.Page.Exit | asset-loader.js:223-237 | both keys are removed from the store, and the page reloads without `dev` and `t` |
| AssetLoader.Page.Refresh | asset-loader.js:251-258 | the page reloads with `dev` = "" and `t` = now |
| JsonValues.TemplateOf | asset-loader.js:88 | an absent `file` prints as "undefined", and a present one as its string form |
| StringOrder.SortStringsSorts | asset-loader.js:50 | `sort()` yields the names in ascending code-unit order, as a permutation |
| CategoryFilter.MapIdsDistinct | src/scripts/our-work/category-filter.js:2-53 | the ten link ids are pairwise distinct |
| CategoryFilter.AtMostOneShown | src/scripts/our-work/category-filter.js:95-120 | after a click, a present entry is shown and active iff it is the clicked one, so at most one container is shown |
| CategoryFilter.LabelAfterNamesClicked | src/scripts/our-work/category-filter.js:109-113 | the link text becomes the clicked entry's name when it is present, and is unchanged when no present entry matches |
| CategoryFilter.AfterClickIdempotent | src/scripts/our-work/category-filter.js:95-120 | clicking the same category twice is clicking it once |
| CategoryFilter.InitialSelectionIsFirst | src/scripts/our-work/category-filter.js:88-91 | on load "B2B" is shown and named, and every other present container is hidden |
| CategoryFilter.CategoryFilterPage.constructor | src/scripts/our-work/category-filter.js:2-53 | the page holds one view per map entry |
| CategoryFilter.CategoryFilterPage.HandleTabClick | src/scripts/our-work/category-filter.js:95-120 | each entry is updated by the click rule, skipping any with a missing element, and the link text follows |
| CategoryFilter.CategoryFilterPage.Init | src/scripts/our-work/category-filter.js:56-92 | without the list or the link nothing changes; otherwise the handlers are attached and the first category is selected |
| CategoryFilter.CategoryFilterPage.ClickCategoryLink | src/scripts/our-work/category-filter.js:69-73 | the list's visibility toggles once |
| CategoryFilter.CategoryFilterPage.ClickItem | src/scripts/our-work/category-filter.js:76-86 | an existing link selects its category and toggles the list once |
| CardSize.OffsetHeight | src/scripts/about/card-size.js:11-16 | the measured height is the natural height, raised to the minimum height when one is set |
| CardSize.MaxNaturalIsMaximum | src/scripts/about/card-size.js:14-16 | the applied height is at least every card's natural height, and equals one of them |
| CardSize.EqualizedCardsAreEqual | src/scripts/about/card-size.js:14-19 | afterwards every card's min-height and measured height is that maximum, and its content is unchanged |
| CardSize.EqualizedIgnoresOldMinimums | src/scripts/about/card-size.js:11-19 | the result depends only on the natural heights, so equalizing twice is equalizing once |
| CardSize.CardSection.constructor | src/scripts/about/card-size.js:4-7 | the section and its cards |
| CardSize.CardSection.EqualizeCardHeights | src/scripts/about/card-size.js:3-20 | without the section or its cards nothing changes; otherwise the cards become the equalized cards |
| TeamFilter.Unchecked | src/scripts/about/team-filter.js:14-18 | every radio is unchecked, and every other button is untouched |
| TeamFilter.UncheckedIdempotent | src/scripts/about/team-filter.js:14-18 | unchecking twice is unchecking once |
| TeamFilter.ClickCycle | src/scripts/about/team-filter.js:11-23 | a first click remembers the button, a second forgets it, a third remembers it again, and a click elsewhere switches to that button |
| TeamFilter.TeamFilterGrid.constructor | src/scripts/about/team-filter.js:4-8 | the grid and its buttons, with nothing remembered |
| TeamFilter.TeamFilterGrid.DeselectFilterRadio | src/scripts/about/team-filter.js:3-25 | the handlers are attached iff the grid exists |
| TeamFilter.TeamFilterGrid.Click | src/scripts/about/team-filter.js:11-23 | re-clicking the remembered button unchecks every radio and forgets it; any other click remembers the button and unchecks nothing |

## Left out

- Animation: GSAP, ScrollTrigger, DrawSVG and SVG.js calls are not modelled. Only the bookkeeping around them is: the triggers' ids, the animated set and the ready events.
- Rendering: paths are command sequences with exact `real` coordinates. The path text, number formatting and the SVG markup of the mask are not modelled.
- Floating point: coordinates and rem values are exact reals. JavaScript doubles and their rounding are not modelled.
- Timing: `debounce`, `throttle`, `setTimeout`, the `isResizing` flag and matchMedia dispatch are not modelled. Each handler and each animation frame is a method that the caller invokes in some order.
- Hencurve.HencurveAnchors.HandleResize: the timeout and the frame it requests run as one step, so a resize that overlaps a pending one is not modelled.
- HencurveLegacy.LegacyHencurveAnchors.HandleResize: its two nested animation frames collapse into the frame the caller runs next.
- Hencurve.HencurveAnchors.DrawAll: one clock value `now` is used for the whole frame. The script reads `Date.now()` per container within one synchronous pass, so containers without an id drawn in one frame share a trigger id in the model.
- HencurveLegacy.LegacyFrameEffect: the older `animateSVG` tweens every `.hencurve-anchors-svg path` on the page, not only the container's own. The model records only the trigger created per container.
- Logging, the random debug class name added to each SVG, and the curve colour are not modelled.
- AssetLoader.NamesOf: a success is a list of objects whose `name` is a string. Other bodies are treated like a failed fetch. A null element really does throw, but an element without a string `name` would not.
- AssetLoader.CssFiles: only a numeric `length` counts on an object. A `length` that JavaScript would coerce to a positive number is treated as absent.
- JsonValues.ToJsString: JSON numbers are integers. Fractional numbers and their printing are not modelled.
- AssetLoader.Page.UpdateDevPanelManifestInfo: the `last-modified` header is given as a time in milliseconds. Date parsing, invalid dates, and what `toLocaleTimeString` prints (passed in as a string) are not modelled.
- AssetLoader.Page.AddDevPanel: the panel's HTML and styling are not modelled. The placeholder option shown by default is recorded as not selected.
- AssetLoader.Page.Exit: the catch branch that cleans the URL with regular expressions is not modelled. The location is its parsed query parameters, and how `location.search` is parsed into them is not modelled.
- AssetLoader.Page: the order in which the manifest fetch, the branch fetch and `DOMContentLoaded` settle is left to the caller.
- StringOrder.SortStrings: it orders by character. For branch names outside the Basic Multilingual Plane this differs from ordering by UTF-16 code unit.
- TeamFilter.TeamFilterGrid.Click: the browser's own checking of a clicked radio is not modelled. Only what the handler writes is.
- CardSize.OffsetHeight: layout is reduced to a natural height per card that a minimum height can only raise.
- `team-videos.js`, `_pageDraw.js`, `_pinwheel.js`, the old on-page pinwheel code, the rest of `hero-curve.js` (the `pageDraw` object), `vite.config.js` and `src/main.js` are not part of this model. They are animation configuration, media toggles, build configuration or lists of imports.

## Findings

| source | as written | input that shows it | evidently intended | confidence | as-written member | corrected member |
|---|---|---|---|---|---|---|
| src/scripts/components/_drawPath.js:295-326 | `_destroy` removes the SVGs but never kills the ScrollTriggers that `animateSVG` creates. Each desktop resize redraws, so each resize adds one more trigger per scroll-animated container. | one container with two non-overlapping anchors and no `is-about-us-hero` class, on a page that is not the 404 page, resized n times: it has n live triggers | destroying kills the triggers the script created, so that a redraw replaces them. The newer copy does this in src/scripts/_components/_drawPath.js:283-308 | not executed | HencurveLegacy.LegacyTriggersAccumulate | Hencurve.DestroyUndoesFrameTriggers |
