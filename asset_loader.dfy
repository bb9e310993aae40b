/** The Webflow asset loader (asset-loader.js): it decides whether the page
    runs in developer mode, picks the URL segment the bundle is loaded from,
    turns the build manifest into the stylesheet and script tags it injects
    (or falls back to fixed file names), and in developer mode maintains a
    small panel that lists the repository's branches and lets the developer
    switch branch, refresh or leave developer mode. The network, the key/value
    store, the clock and navigation are inputs and outputs of the model. */
module AssetLoader {
  import opened Common
  import opened JsonValues
  import opened StringOrder

  const BaseUrl := "https://pub-aa058d2f7a144fc9b37b2046ac64d64a.r2.dev"
  const GithubRepo := "Hencove/hencove-website-webflow"
  const DevFlagKey := "webflow-dev"
  const BranchKey := "webflow-dev-branch"
  const DefaultBranch := "main"

  // ---------------------------------------------------------------------
  // Environment resolution.

  /** The `localStorage` contents. */
  type Store = map<string, string>

  /** `localStorage.getItem(key)`; `None` is null. */
  function GetItem(store: Store, key: string): Option<string> {
    if key in store then Some(store[key]) else None
  }

  /** Developer mode: the query string mentions "dev" anywhere, or the
      store says so. */
  predicate IsDev(search: string, store: Store) {
    Contains(search, "dev") || GetItem(store, DevFlagKey) == Some("true")
  }

  lemma IsDevIff(search: string, store: Store)
    ensures IsDev(search, store) <==>
              (exists i :: OccursAt(search, "dev", i)) || (DevFlagKey in store && store[DevFlagKey] == "true")
  {
    ContainsIff(search, "dev");
  }

  /** The store after the startup code has run. */
  function StartupStore(search: string, store: Store): Store {
    if Contains(search, "dev") then store[DevFlagKey := "true"] else store
  }

  /** Startup writes the developer flag exactly when the query mentions
      "dev", and touches no other key. */
  lemma StartupWritesOnlyTheFlag(search: string, store: Store)
    ensures var after := StartupStore(search, store);
            && (Contains(search, "dev") ==> GetItem(after, DevFlagKey) == Some("true"))
            && (!Contains(search, "dev") ==> after == store)
            && (forall k :: k != DevFlagKey ==> GetItem(after, k) == GetItem(store, k))
  {
  }

  /** Once a visit with "dev" in the query has run, every later visit is in
      developer mode, whatever its query. */
  lemma DevModeSticks(search: string, store: Store, laterSearch: string)
    requires Contains(search, "dev")
    ensures IsDev(laterSearch, StartupStore(search, store))
  {
  }

  /** The branch the page starts on: the saved branch in developer mode
      when it is not empty, otherwise "main". */
  function InitialBranch(isDev: bool, store: Store): string {
    if isDev && BranchKey in store && store[BranchKey] != "" then store[BranchKey] else DefaultBranch
  }

  /** `env`. */
  function Environment(isDev: bool): string {
    if isDev then "dev" else "main"
  }

  /** `urlPath`: the branch in developer mode, the environment otherwise. */
  function UrlPath(isDev: bool, currentBranch: string, environment: string): string {
    if isDev then currentBranch else environment
  }

  /** The segment assets are loaded from at startup: "main" outside
      developer mode; in developer mode the saved branch if there is a
      non-empty one and "main" otherwise. It is never empty, and never the
      "dev" environment name unless a branch of that name was saved. */
  lemma StartupSegment(search: string, store: Store)
    ensures var dev := IsDev(search, store);
            var segment := UrlPath(dev, InitialBranch(dev, StartupStore(search, store)), Environment(dev));
            && (!dev ==> segment == "main")
            && (dev ==> segment == if GetItem(store, BranchKey).Some? && store[BranchKey] != "" then store[BranchKey] else "main")
            && segment != ""
            && (segment == "dev" ==> GetItem(store, BranchKey) == Some("dev"))
  {
    StartupWritesOnlyTheFlag(search, store);
  }

  // ---------------------------------------------------------------------
  // The asset plan.

  /** An element appended to `document.head`. */
  datatype Tag = Stylesheet(href: string) | Script(src: string, async: bool)

  /** What fetching `manifest.json` gives: a rejected fetch, a body that is
      not JSON, or a parsed body with the `last-modified` header when it is
      present and non-empty (already read as a time in milliseconds). */
  datatype ManifestResponse = NetworkError | NotJson | JsonBody(body: Json, lastModified: Option<int>)

  /** The files the manifest names. */
  datatype Assets = Assets(css: seq<string>, file: string)

  function AssetUrl(urlPath: string, file: string): string {
    BaseUrl + "/" + urlPath + "/" + file
  }

  /** `manifest["main.js"]` when it is truthy. */
  function MainEntry(manifest: Json): (e: Option<Json>)
    ensures e.Some? <==> manifest.JObj? && "main.js" in manifest.fields && Truthy(manifest.fields["main.js"])
  {
    match Property(manifest, "main.js")
    case Some(entry) => if Truthy(entry) then Some(entry) else None
    case None => None
  }

  /** The stylesheet names the entry lists, or `None` when `forEach` would
      throw: `css` is truthy with a positive length but is not an array
      (a non-empty string, or an object with a positive numeric `length`). */
  function CssFiles(entry: Json): (r: Option<seq<string>>)
    ensures r.None? <==> Property(entry, "css").Some? && ThrowsOnForEach(Property(entry, "css").value)
    ensures (r.Some? && Property(entry, "css").Some? && Property(entry, "css").value.JArr?) ==>
              var items := Property(entry, "css").value.items;
              |r.value| == |items| && forall i :: 0 <= i < |items| ==> r.value[i] == ElementString(items[i])
    ensures (r.Some? && !(Property(entry, "css").Some? && Property(entry, "css").value.JArr?)) ==> r.value == []
  {
    match Property(entry, "css")
    case None => Some([])
    case Some(css) =>
      if ThrowsOnForEach(css) then None
      else if css.JArr? then Some(seq(|css.items|, i requires 0 <= i < |css.items| => ElementString(css.items[i])))
      else Some([])
  }

  /** How an array element prints inside `${…}`. */
  function ElementString(j: Json): string {
    ToJsString(j)
  }

  /** `css && css.length > 0` holds and `css.forEach` is not a function. */
  predicate ThrowsOnForEach(css: Json) {
    || (css.JStr? && css.s != "")
    || (css.JObj? && "length" in css.fields && css.fields["length"].JNum? && css.fields["length"].n > 0)
  }

  /** What the manifest path loads, or `None` when it throws and the loader
      falls back. */
  function ManifestAssets(r: ManifestResponse): (a: Option<Assets>)
    ensures a.None? <==>
              || r.NetworkError? || r.NotJson?
              || (r.JsonBody? && (MainEntry(r.body).None? || CssFiles(MainEntry(r.body).value).None?))
    ensures a.Some? ==>
              && r.JsonBody? && MainEntry(r.body).Some?
              && var entry := MainEntry(r.body).value;
                 && CssFiles(entry).Some?
                 && a.value == Assets(CssFiles(entry).value, TemplateOf(Property(entry, "file")))
  {
    match r
    case NetworkError => None
    case NotJson => None
    case JsonBody(body, _) =>
      match MainEntry(body)
      case None => None
      case Some(entry) =>
        match CssFiles(entry)
        case None => None
        case Some(css) => Some(Assets(css, TemplateOf(Property(entry, "file"))))
  }

  /** One stylesheet per file, in order. */
  function StylesheetTags(urlPath: string, files: seq<string>): (tags: seq<Tag>)
    ensures |tags| == |files|
    ensures forall i :: 0 <= i < |files| ==> tags[i] == Stylesheet(AssetUrl(urlPath, files[i]))
  {
    if files == [] then []
    else StylesheetTags(urlPath, files[..|files| - 1]) + [Stylesheet(AssetUrl(urlPath, files[|files| - 1]))]
  }

  /** The fixed names loaded when the manifest path fails. */
  function FallbackTags(urlPath: string, isDev: bool, now: int): seq<Tag> {
    var suffix := if isDev then "" else ".min";
    var version := if isDev then "?v=" + IntToString(now) else "";
    [ Stylesheet(AssetUrl(urlPath, "styles" + suffix + ".css" + version)),
      Script(AssetUrl(urlPath, "bundle" + suffix + ".js" + version), true) ]
  }

  /** Everything `loadAssetsWithManifest` appends to the head. */
  function LoadTags(urlPath: string, isDev: bool, r: ManifestResponse, now: int): seq<Tag> {
    match ManifestAssets(r)
    case Some(a) => StylesheetTags(urlPath, a.css) + [Script(AssetUrl(urlPath, a.file), true)]
    case None => FallbackTags(urlPath, isDev, now)
  }

  /** Whichever path is taken, the loader injects stylesheets followed by
      exactly one async script: on the manifest path one stylesheet per
      listed file, in listed order, then the entry's script; on the fallback
      path exactly one stylesheet and one script. */
  lemma LoadTagsShape(urlPath: string, isDev: bool, r: ManifestResponse, now: int)
    ensures var tags := LoadTags(urlPath, isDev, r, now);
            && |tags| >= 1 && tags[|tags| - 1].Script? && tags[|tags| - 1].async
            && (forall i :: 0 <= i < |tags| - 1 ==> tags[i].Stylesheet?)
            && (ManifestAssets(r).Some? ==>
                  var a := ManifestAssets(r).value;
                  && |tags| == |a.css| + 1
                  && (forall i :: 0 <= i < |a.css| ==> tags[i] == Stylesheet(AssetUrl(urlPath, a.css[i])))
                  && tags[|a.css|] == Script(AssetUrl(urlPath, a.file), true))
            && (ManifestAssets(r).None? ==> |tags| == 2)
  {
  }

  /** No stylesheet comes from the manifest when the entry lists none:
      `css` absent, falsy, empty or not an array. */
  lemma NoCssWithoutList(urlPath: string, isDev: bool, body: Json, lastModified: Option<int>, now: int)
    requires MainEntry(body).Some?
    requires var css := Property(MainEntry(body).value, "css");
             css.None? || !Truthy(css.value) || css.value == JArr([]) || (!css.value.JArr? && !ThrowsOnForEach(css.value))
    ensures var tags := LoadTags(urlPath, isDev, JsonBody(body, lastModified), now);
            |tags| == 1 && tags[0].Script?
  {
  }

  /** The fallback names in production: minified, without a query. */
  lemma FallbackNames(urlPath: string, now: int)
    ensures FallbackTags(urlPath, false, now) ==
              [Stylesheet(AssetUrl(urlPath, "styles.min.css")), Script(AssetUrl(urlPath, "bundle.min.js"), true)]
  {
    assert "styles" + ".min" + ".css" + "" == "styles.min.css";
    assert "bundle" + ".min" + ".js" + "" == "bundle.min.js";
  }

  /** The fallback names in developer mode: unminified, with a `?v=<now>`
      cache-buster. */
  lemma DevFallbackNames(urlPath: string, now: int)
    ensures FallbackTags(urlPath, true, now) ==
              [ Stylesheet(AssetUrl(urlPath, "styles.css?v=" + IntToString(now))),
                Script(AssetUrl(urlPath, "bundle.js?v=" + IntToString(now)), true) ]
  {
    var version := "?v=" + IntToString(now);
    assert "styles" + "" + ".css" + version == "styles.css" + version;
    assert "bundle" + "" + ".js" + version == "bundle.js" + version;
    assert "styles.css" + version == "styles.css?v=" + IntToString(now);
    assert "bundle.js" + version == "bundle.js?v=" + IntToString(now);
  }

  // ---------------------------------------------------------------------
  // Developer helpers.

  /** `getTimeAgo` of a difference of `diffMs` milliseconds. */
  function TimeAgo(diffMs: int): string {
    var diffMins := diffMs / 60000;
    var diffHours := diffMins / 60;
    if diffMins < 1 then "just now"
    else if diffMins < 60 then NatToString(diffMins) + "m ago"
    else NatToString(diffHours) + "h ago"
  }

  lemma FloorOfFloor(d: int)
    ensures (d / 60000) / 60 == d / 3600000
  {
    var q, r := d / 60000, d % 60000;
    var q2, r2 := q / 60, q % 60;
    assert d == 60000 * q + r;
    assert q == 60 * q2 + r2;
    assert d == 3600000 * q2 + (60000 * r2 + r);
    assert 0 <= 60000 * r2 + r < 3600000;
    DivisionIsUnique(d, 3600000, q2, 60000 * r2 + r);
  }

  lemma DivisionIsUnique(d: int, k: int, q: int, r: int)
    requires k > 0 && 0 <= r < k && d == k * q + r
    ensures d / k == q
  {
    var q', r' := d / k, d % k;
    assert k * (q' - q) == r - r';
    MultipleInOpenInterval(k, q' - q);
  }

  lemma MultipleInOpenInterval(k: int, m: int)
    requires k > 0 && -k < k * m < k
    ensures m == 0
  {
  }

  /** Under a minute, including differences in the future, reads "just
      now"; under an hour, the whole minutes; from an hour on, the whole
      hours. The number in the message reads back as that floor. */
  lemma TimeAgoCases(diffMs: int)
    ensures (TimeAgo(diffMs) == "just now") <==> diffMs < 60000
    ensures 60000 <= diffMs < 3600000 ==>
              && 1 <= diffMs / 60000 < 60
              && TimeAgo(diffMs) == NatToString(diffMs / 60000) + "m ago"
              && DigitsValue(NatToString(diffMs / 60000)) == diffMs / 60000
    ensures diffMs >= 3600000 ==>
              && TimeAgo(diffMs) == NatToString(diffMs / 3600000) + "h ago"
              && DigitsValue(NatToString(diffMs / 3600000)) == diffMs / 3600000
  {
    FloorOfFloor(diffMs);
    if diffMs >= 60000 {
      var s := TimeAgo(diffMs);
      var digits := if diffMs / 60000 < 60 then NatToString(diffMs / 60000) else NatToString(diffMs / 3600000);
      assert s[0] == digits[0];
      assert s != "just now";
      if diffMs < 3600000 {
        NatToStringRoundTrip(diffMs / 60000);
      } else {
        NatToStringRoundTrip(diffMs / 3600000);
      }
    }
  }

  /** `getTimeAgo(date)` at time `now`. */
  function GetTimeAgo(date: int, now: int): string {
    TimeAgo(now - date)
  }

  /** What `fetch` of the branch list gives. */
  datatype BranchResponse = BranchRequestFailed | BranchHttpError(status: int) | BranchNotJson | BranchJson(body: Json)

  /** `branch.name` of every element, when every element is an object with
      a string `name`. */
  function NamesOf(items: seq<Json>): (r: Option<seq<string>>)
    ensures r.Some? ==> |r.value| == |items|
    ensures r.Some? ==> forall i :: 0 <= i < |items| ==> Property(items[i], "name") == Some(JStr(r.value[i]))
  {
    if items == [] then Some([])
    else
      var last := items[|items| - 1];
      match NamesOf(items[..|items| - 1])
      case None => None
      case Some(names) =>
        match Property(last, "name")
        case Some(JStr(n)) => Some(names + [n])
        case _ => None
  }

  /** The branch names of a successful response. */
  function BranchNames(r: BranchResponse): Option<seq<string>> {
    if r.BranchJson? && r.body.JArr? then NamesOf(r.body.items) else None
  }

  /** `availableBranches` after `fetchGitHubBranches`. */
  function BranchesAfterFetch(r: BranchResponse, currentBranch: string): seq<string> {
    match BranchNames(r)
    case Some(names) => SortStrings(names)
    case None => [currentBranch]
  }

  /** On success the list is the names, sorted; on any error it is just the
      current branch. */
  lemma BranchesAfterFetchSpec(r: BranchResponse, currentBranch: string)
    ensures var bs := BranchesAfterFetch(r, currentBranch);
            && (BranchNames(r).Some? ==> Sorted(bs) && multiset(bs) == multiset(BranchNames(r).value))
            && (BranchNames(r).None? ==> bs == [currentBranch])
            && (r.BranchRequestFailed? || r.BranchHttpError? || r.BranchNotJson? ==> bs == [currentBranch])
  {
    if BranchNames(r).Some? {
      SortStringsSorts(BranchNames(r).value);
    }
  }

  /** An `<option>` of the branch selector. */
  datatype BranchOption = BranchOption(value: string, selected: bool)

  /** The options `updateBranchSelector` builds, one per branch in order,
      selected exactly when it is the current branch. */
  function OptionsFor(branches: seq<string>, currentBranch: string): (opts: seq<BranchOption>)
    ensures |opts| == |branches|
    ensures forall i :: 0 <= i < |branches| ==>
              opts[i].value == branches[i] && (opts[i].selected <==> branches[i] == currentBranch)
  {
    if branches == [] then []
    else OptionsFor(branches[..|branches| - 1], currentBranch)
           + [BranchOption(branches[|branches| - 1], branches[|branches| - 1] == currentBranch)]
  }

  /** With distinct names, exactly one option is selected when the current
      branch is listed and none otherwise; after a failed fetch the single
      option is the current branch, selected. */
  lemma OneSelectedOption(branches: seq<string>, currentBranch: string)
    requires forall i, j :: 0 <= i < j < |branches| ==> branches[i] != branches[j]
    ensures var opts := OptionsFor(branches, currentBranch);
            && (forall i, j :: 0 <= i < |opts| && 0 <= j < |opts| && opts[i].selected && opts[j].selected ==> i == j)
            && ((exists i :: 0 <= i < |opts| && opts[i].selected) <==> currentBranch in branches)
    ensures OptionsFor([currentBranch], currentBranch) == [BranchOption(currentBranch, true)]
  {
    var opts := OptionsFor(branches, currentBranch);
    if currentBranch in branches {
      var k :| 0 <= k < |branches| && branches[k] == currentBranch;
      assert opts[k].selected;
    }
    assert [currentBranch][..0] == [];
  }

  // ---------------------------------------------------------------------
  // URL query parameters (`URLSearchParams`), in order.

  type Param = (string, string)

  /** `params.delete(name)`. */
  function DeleteParam(ps: seq<Param>, name: string): (r: seq<Param>)
    ensures forall p :: p in r <==> p in ps && p.0 != name
    ensures |r| <= |ps|
  {
    if ps == [] then []
    else (if ps[0].0 == name then [] else [ps[0]]) + DeleteParam(ps[1..], name)
  }

  /** `params.set(name, value)`: the first entry named `name` takes the
      value and later ones go; with none, the entry is appended. */
  function SetParam(ps: seq<Param>, name: string, value: string): seq<Param> {
    if ps == [] then [(name, value)]
    else if ps[0].0 == name then [(name, value)] + DeleteParam(ps[1..], name)
    else [ps[0]] + SetParam(ps[1..], name, value)
  }

  /** The entries named `name`, in order. */
  function Named(ps: seq<Param>, name: string): seq<Param> {
    if ps == [] then []
    else (if ps[0].0 == name then [ps[0]] else []) + Named(ps[1..], name)
  }

  lemma {:induction false} DeleteParamNamed(ps: seq<Param>, name: string)
    ensures Named(DeleteParam(ps, name), name) == []
  {
    if ps != [] {
      DeleteParamNamed(ps[1..], name);
      NamedAppend((if ps[0].0 == name then [] else [ps[0]]), DeleteParam(ps[1..], name), name);
    }
  }

  lemma {:induction false} NamedAppend(a: seq<Param>, b: seq<Param>, name: string)
    ensures Named(a + b, name) == Named(a, name) + Named(b, name)
  {
    if a != [] {
      assert (a + b)[1..] == a[1..] + b;
      NamedAppend(a[1..], b, name);
    } else {
      assert a + b == b;
    }
  }

  lemma {:induction false} DeleteParamAppend(a: seq<Param>, b: seq<Param>, name: string)
    ensures DeleteParam(a + b, name) == DeleteParam(a, name) + DeleteParam(b, name)
  {
    if a != [] {
      assert (a + b)[1..] == a[1..] + b;
      DeleteParamAppend(a[1..], b, name);
    } else {
      assert a + b == b;
    }
  }

  lemma {:induction false} DeleteParamTwice(ps: seq<Param>, name: string)
    ensures DeleteParam(DeleteParam(ps, name), name) == DeleteParam(ps, name)
  {
    if ps != [] {
      DeleteParamTwice(ps[1..], name);
      DeleteParamAppend((if ps[0].0 == name then [] else [ps[0]]), DeleteParam(ps[1..], name), name);
    }
  }

  /** After `set`, the parameter occurs exactly once, with the new value,
      and every other parameter is where it was. */
  lemma {:induction false} SetParamSpec(ps: seq<Param>, name: string, value: string)
    ensures Named(SetParam(ps, name, value), name) == [(name, value)]
    ensures DeleteParam(SetParam(ps, name, value), name) == DeleteParam(ps, name)
  {
    if ps == [] {
    } else if ps[0].0 == name {
      DeleteParamNamed(ps[1..], name);
      NamedAppend([(name, value)], DeleteParam(ps[1..], name), name);
      DeleteParamAppend([(name, value)], DeleteParam(ps[1..], name), name);
      DeleteParamTwice(ps[1..], name);
    } else {
      SetParamSpec(ps[1..], name, value);
      NamedAppend([ps[0]], SetParam(ps[1..], name, value), name);
      DeleteParamAppend([ps[0]], SetParam(ps[1..], name, value), name);
    }
  }

  lemma {:induction false} DeleteParamCommutes(ps: seq<Param>, a: string, b: string)
    ensures DeleteParam(DeleteParam(ps, a), b) == DeleteParam(DeleteParam(ps, b), a)
  {
    if ps != [] {
      DeleteParamCommutes(ps[1..], a, b);
      var head := if ps[0].0 == a then [] else [ps[0]];
      var head' := if ps[0].0 == b then [] else [ps[0]];
      DeleteParamAppend(head, DeleteParam(ps[1..], a), b);
      DeleteParamAppend(head', DeleteParam(ps[1..], b), a);
    }
  }

  /** The query the refresh button and a branch switch navigate to. */
  function ReloadParams(ps: seq<Param>, now: int): seq<Param> {
    SetParam(SetParam(ps, "dev", ""), "t", IntToString(now))
  }

  /** The query the exit button navigates to. */
  function ExitParams(ps: seq<Param>): seq<Param> {
    DeleteParam(DeleteParam(ps, "dev"), "t")
  }

  /** Reloading keeps "dev" in the query and stamps the time; exiting
      removes both and keeps every other parameter in order, so exiting
      after any number of reloads gives the query exiting would have given
      at first. */
  lemma ReloadThenExit(ps: seq<Param>, now: int)
    ensures Named(ReloadParams(ps, now), "t") == [("t", IntToString(now))]
    ensures Named(ReloadParams(ps, now), "dev") == [("dev", "")]
    ensures forall p :: p in ExitParams(ps) <==> p in ps && p.0 != "dev" && p.0 != "t"
    ensures ExitParams(ReloadParams(ps, now)) == ExitParams(ps)
  {
    var once := SetParam(ps, "dev", "");
    SetParamSpec(ps, "dev", "");
    SetParamSpec(once, "t", IntToString(now));
    SetParamKeepsOthers(once, "t", IntToString(now), "dev");
    DeleteParamCommutes(ReloadParams(ps, now), "dev", "t");
    DeleteParamCommutes(once, "dev", "t");
    DeleteParamCommutes(ps, "dev", "t");
  }

  /** `set` leaves the entries of any other name untouched. */
  lemma {:induction false} SetParamKeepsOthers(ps: seq<Param>, name: string, value: string, other: string)
    requires other != name
    ensures Named(SetParam(ps, name, value), other) == Named(ps, other)
  {
    if ps == [] {
    } else if ps[0].0 == name {
      DeleteParamKeepsOthers(ps[1..], name, other);
      NamedAppend([(name, value)], DeleteParam(ps[1..], name), other);
    } else {
      SetParamKeepsOthers(ps[1..], name, value, other);
      NamedAppend([ps[0]], SetParam(ps[1..], name, value), other);
    }
  }

  lemma {:induction false} DeleteParamKeepsOthers(ps: seq<Param>, name: string, other: string)
    requires other != name
    ensures Named(DeleteParam(ps, name), other) == Named(ps, other)
  {
    if ps != [] {
      DeleteParamKeepsOthers(ps[1..], name, other);
      NamedAppend((if ps[0].0 == name then [] else [ps[0]]), DeleteParam(ps[1..], name), other);
    }
  }

  /** The window location: everything but the query, and the query's
      parameters. */
  datatype Location = Location(rest: string, params: seq<Param>)

  // ---------------------------------------------------------------------
  // The page.

  class Page {
    const isDev: bool
    /** The location the page was opened at. */
    const location: Location
    var store: Store
    var currentBranch: string
    var availableBranches: seq<string>
    var manifestLastModified: Option<int>
    var head: seq<Tag>
    /** Whether `#webflow-dev-panel` is in the document, and its contents. */
    var panel: bool
    var options: seq<BranchOption>
    var selectDisabled: bool
    var manifestInfo: string
    /** Where `window.location.href` was last sent, if anywhere. */
    var navigatedTo: Option<Location>

    /** The startup code, up to the point where it starts loading. */
    constructor(search: string, loc: Location, initialStore: Store)
      ensures isDev == IsDev(search, initialStore) && location == loc
      ensures store == StartupStore(search, initialStore)
      ensures currentBranch == InitialBranch(isDev, store)
      ensures availableBranches == [] && manifestLastModified == None && head == []
      ensures !panel && options == [] && selectDisabled && manifestInfo == "" && navigatedTo == None
    {
      var dev := IsDev(search, initialStore);
      var s := initialStore;
      if Contains(search, "dev") {
        s := s[DevFlagKey := "true"];
      }
      var branch := DefaultBranch;
      if dev {
        var saved := GetItem(s, BranchKey);
        if saved.Some? && saved.value != "" {
          branch := saved.value;
        }
      }
      isDev := dev;
      location := loc;
      store := s;
      currentBranch := branch;
      manifestLastModified := None;
      availableBranches := [];
      head := [];
      panel := false;
      options := [];
      selectDisabled := true;
      manifestInfo := "";
      navigatedTo := None;
    }

    /** `loadAsset(type, url)`. */
    method LoadAsset(isCss: bool, url: string)
      modifies this
      ensures head == old(head) + [if isCss then Stylesheet(url) else Script(url, true)]
      ensures store == old(store) && currentBranch == old(currentBranch) && availableBranches == old(availableBranches)
      ensures manifestLastModified == old(manifestLastModified) && panel == old(panel) && options == old(options)
      ensures selectDisabled == old(selectDisabled) && manifestInfo == old(manifestInfo) && navigatedTo == old(navigatedTo)
    {
      if isCss {
        head := head + [Stylesheet(url)];
      } else {
        head := head + [Script(url, true)];
      }
    }

    /** `updateDevPanelManifestInfo()`; `localeTime` is what
        `toLocaleTimeString` prints for the manifest time. */
    method UpdateDevPanelManifestInfo(now: int, localeTime: string)
      modifies this
      ensures manifestInfo == if panel && manifestLastModified.Some?
                              then "Manifest: " + localeTime + " (" + GetTimeAgo(manifestLastModified.value, now) + ")"
                              else old(manifestInfo)
      ensures head == old(head) && store == old(store) && currentBranch == old(currentBranch)
      ensures availableBranches == old(availableBranches) && manifestLastModified == old(manifestLastModified)
      ensures panel == old(panel) && options == old(options) && selectDisabled == old(selectDisabled)
      ensures navigatedTo == old(navigatedTo)
    {
      if panel && manifestLastModified.Some? {
        manifestInfo := "Manifest: " + localeTime + " (" + GetTimeAgo(manifestLastModified.value, now) + ")";
      }
    }

    /** The `forEach` over the manifest's css list: one stylesheet per file,
        in order. */
    method LoadStylesheets(urlPath: string, files: seq<string>)
      modifies this
      ensures head == old(head) + StylesheetTags(urlPath, files)
      ensures store == old(store) && currentBranch == old(currentBranch) && availableBranches == old(availableBranches)
      ensures manifestLastModified == old(manifestLastModified) && panel == old(panel) && options == old(options)
      ensures selectDisabled == old(selectDisabled) && manifestInfo == old(manifestInfo) && navigatedTo == old(navigatedTo)
    {
      var i := 0;
      while i < |files|
        invariant 0 <= i <= |files|
        invariant head == old(head) + StylesheetTags(urlPath, files[..i])
        invariant store == old(store) && currentBranch == old(currentBranch) && availableBranches == old(availableBranches)
        invariant manifestLastModified == old(manifestLastModified) && panel == old(panel) && options == old(options)
        invariant selectDisabled == old(selectDisabled) && manifestInfo == old(manifestInfo) && navigatedTo == old(navigatedTo)
      {
        LoadAsset(true, AssetUrl(urlPath, files[i]));
        assert files[..i + 1][..i] == files[..i];
        i := i + 1;
      }
      assert files[..i] == files;
    }

    /** `loadAssetsWithManifest(environment)` once the manifest request has
        settled with `response`. */
    method LoadAssetsWithManifest(environment: string, response: ManifestResponse, now: int, localeTime: string)
      modifies this
      ensures head == old(head) + LoadTags(UrlPath(isDev, currentBranch, environment), isDev, response, now)
      ensures manifestLastModified ==
                if isDev && ManifestAssets(response).Some? && response.lastModified.Some?
                then response.lastModified else old(manifestLastModified)
      ensures manifestInfo ==
                if isDev && ManifestAssets(response).Some? && panel && manifestLastModified.Some?
                then "Manifest: " + localeTime + " (" + GetTimeAgo(manifestLastModified.value, now) + ")"
                else old(manifestInfo)
      ensures store == old(store) && currentBranch == old(currentBranch) && availableBranches == old(availableBranches)
      ensures panel == old(panel) && options == old(options) && selectDisabled == old(selectDisabled)
      ensures navigatedTo == old(navigatedTo)
    {
      var urlPath := UrlPath(isDev, currentBranch, environment);
      var assets := ManifestAssets(response);
      if assets.None? {
        var suffix := if isDev then "" else ".min";
        var version := if isDev then "?v=" + IntToString(now) else "";
        LoadAsset(true, AssetUrl(urlPath, "styles" + suffix + ".css" + version));
        LoadAsset(false, AssetUrl(urlPath, "bundle" + suffix + ".js" + version));
        return;
      }
      LoadStylesheets(urlPath, assets.value.css);
      LoadAsset(false, AssetUrl(urlPath, assets.value.file));
      if isDev {
        if response.lastModified.Some? {
          manifestLastModified := response.lastModified;
        }
        UpdateDevPanelManifestInfo(now, localeTime);
      }
    }

    /** `updateBranchSelector()`. */
    method UpdateBranchSelector()
      modifies this
      ensures panel && |availableBranches| > 0 ==>
                options == OptionsFor(availableBranches, currentBranch) && !selectDisabled
      ensures !(panel && |availableBranches| > 0) ==>
                options == old(options) && selectDisabled == old(selectDisabled)
      ensures head == old(head) && store == old(store) && currentBranch == old(currentBranch)
      ensures availableBranches == old(availableBranches) && manifestLastModified == old(manifestLastModified)
      ensures panel == old(panel) && manifestInfo == old(manifestInfo) && navigatedTo == old(navigatedTo)
    {
      if panel && |availableBranches| > 0 {
        var opts := [];
        var i := 0;
        while i < |availableBranches|
          invariant 0 <= i <= |availableBranches|
          invariant opts == OptionsFor(availableBranches[..i], currentBranch)
        {
          var branch := availableBranches[i];
          opts := opts + [BranchOption(branch, branch == currentBranch)];
          assert availableBranches[..i + 1][..i] == availableBranches[..i];
          i := i + 1;
        }
        assert availableBranches[..i] == availableBranches;
        options := opts;
        selectDisabled := false;
      }
    }

    /** `fetchGitHubBranches()` once the request has settled. */
    method FetchGitHubBranches(response: BranchResponse)
      modifies this
      ensures availableBranches == BranchesAfterFetch(response, old(currentBranch))
      ensures panel && |availableBranches| > 0 ==>
                options == OptionsFor(availableBranches, currentBranch) && !selectDisabled
      ensures !(panel && |availableBranches| > 0) ==> options == old(options) && selectDisabled == old(selectDisabled)
      ensures head == old(head) && store == old(store) && currentBranch == old(currentBranch)
      ensures manifestLastModified == old(manifestLastModified) && panel == old(panel)
      ensures manifestInfo == old(manifestInfo) && navigatedTo == old(navigatedTo)
    {
      var names := BranchNames(response);
      if names.Some? {
        availableBranches := SortStrings(names.value);
      } else {
        availableBranches := [currentBranch];
      }
      UpdateBranchSelector();
    }

    /** `addDevPanel()`: a fresh panel whose selector is filled and whose
        manifest line is written from what has arrived so far. */
    method AddDevPanel(now: int, localeTime: string)
      modifies this
      ensures panel
      ensures |availableBranches| > 0 ==> options == OptionsFor(availableBranches, currentBranch) && !selectDisabled
      ensures |availableBranches| == 0 ==> options == [BranchOption("Loading branches...", false)] && selectDisabled
      ensures manifestInfo == if manifestLastModified.Some?
                              then "Manifest: " + localeTime + " (" + GetTimeAgo(manifestLastModified.value, now) + ")"
                              else "Loading manifest..."
      ensures head == old(head) && store == old(store) && currentBranch == old(currentBranch)
      ensures availableBranches == old(availableBranches) && manifestLastModified == old(manifestLastModified)
      ensures navigatedTo == old(navigatedTo)
    {
      panel := true;
      options := [BranchOption("Loading branches...", false)];
      selectDisabled := true;
      manifestInfo := "Loading manifest...";
      UpdateBranchSelector();
      UpdateDevPanelManifestInfo(now, localeTime);
    }

    /** The selector's change handler. */
    method SelectBranch(selected: string, now: int)
      modifies this
      ensures selected == old(currentBranch) ==>
                currentBranch == old(currentBranch) && store == old(store) && navigatedTo == old(navigatedTo)
      ensures selected != old(currentBranch) ==>
                && currentBranch == selected && store == old(store)[BranchKey := selected]
                && navigatedTo == Some(location.(params := ReloadParams(location.params, now)))
      ensures head == old(head) && availableBranches == old(availableBranches)
      ensures manifestLastModified == old(manifestLastModified) && panel == old(panel) && options == old(options)
      ensures selectDisabled == old(selectDisabled) && manifestInfo == old(manifestInfo)
    {
      if selected != currentBranch {
        currentBranch := selected;
        store := store[BranchKey := selected];
        navigatedTo := Some(location.(params := ReloadParams(location.params, now)));
      }
    }

    /** The exit button. */
    method Exit()
      modifies this
      ensures store == old(store) - {DevFlagKey, BranchKey}
      ensures navigatedTo == Some(location.(params := ExitParams(location.params)))
      ensures head == old(head) && currentBranch == old(currentBranch) && availableBranches == old(availableBranches)
      ensures manifestLastModified == old(manifestLastModified) && panel == old(panel) && options == old(options)
      ensures selectDisabled == old(selectDisabled) && manifestInfo == old(manifestInfo)
    {
      store := store - {DevFlagKey};
      store := store - {BranchKey};
      navigatedTo := Some(location.(params := ExitParams(location.params)));
    }

    /** The refresh button. */
    method Refresh(now: int)
      modifies this
      ensures navigatedTo == Some(location.(params := ReloadParams(location.params, now)))
      ensures store == old(store) && head == old(head) && currentBranch == old(currentBranch)
      ensures availableBranches == old(availableBranches) && manifestLastModified == old(manifestLastModified)
      ensures panel == old(panel) && options == old(options) && selectDisabled == old(selectDisabled)
      ensures manifestInfo == old(manifestInfo)
    {
      navigatedTo := Some(location.(params := ReloadParams(location.params, now)));
    }
  }

  /** After exiting, the next visit without "dev" in its query is a
      production visit on "main". */
  lemma ExitLeavesDevMode(store: Store, laterSearch: string)
    requires !Contains(laterSearch, "dev")
    ensures var after := store - {DevFlagKey, BranchKey};
            && !IsDev(laterSearch, after)
            && UrlPath(false, InitialBranch(false, after), Environment(false)) == "main"
  {
  }

  /** A branch switch is remembered: the next developer-mode visit starts
      on the chosen branch, and its assets come from that branch. */
  lemma SwitchedBranchIsLoadedNext(store: Store, selected: string, laterSearch: string)
    requires selected != ""
    requires Contains(laterSearch, "dev") || GetItem(store, DevFlagKey) == Some("true")
    ensures var after := StartupStore(laterSearch, store[BranchKey := selected]);
            var dev := IsDev(laterSearch, store[BranchKey := selected]);
            dev && UrlPath(dev, InitialBranch(dev, after), Environment(dev)) == selected
  {
  }
}
