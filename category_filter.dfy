/** The "our work" category filter (src/scripts/our-work/category-filter.js):
    a fixed table of categories, each a link that selects it and a
    container of case studies. Selecting a category shows its container,
    marks its link active and writes its name on the category link; every
    other category whose elements exist is hidden and deactivated. */
module CategoryFilter {

  /** An entry of `our_work_map`. */
  datatype MapItem = MapItem(linkTriggerId: string, containerId: string, displayName: string)

  const OurWorkMap: seq<MapItem> := [
    MapItem("our-work-b2b-trigger", "our-work-b2b", "B2B"),
    MapItem("our-work-branding-trigger", "our-work-branding", "Branding"),
    MapItem("our-work-healthcare-trigger", "our-work-healthcare", "Healthcare"),
    MapItem("our-work-web-trigger", "our-work-web", "Web"),
    MapItem("our-work-finance-trigger", "our-work-finance", "Finance"),
    MapItem("our-work-creative-trigger", "our-work-creative", "Creative"),
    MapItem("our-work-technology-trigger", "our-work-technology", "Technology"),
    MapItem("our-work-content-trigger", "our-work-content", "Content"),
    MapItem("our-work-strategy-trigger", "our-work-strategy", "Strategy"),
    MapItem("our-work-campaign-trigger", "our-work-campaign", "Campaign")
  ]

  /** A container's inline `display`: never written yet, "block" or "none". */
  datatype Display = Unset | Block | Hidden

  /** The page elements of one map entry: whether its link and its
      container exist, the container's display and whether the link has
      the "active" class. */
  datatype ItemView = ItemView(triggerPresent: bool, containerPresent: bool, display: Display, active: bool)

  predicate Present(v: ItemView) {
    v.triggerPresent && v.containerPresent
  }

  /** One iteration of `handleTabClick`: a present entry is shown and
      activated when it is the clicked one and hidden and deactivated
      otherwise; an entry with a missing element is skipped. */
  function AfterClick(v: ItemView, entry: MapItem, clickedId: string): ItemView {
    if !Present(v) then v
    else if entry.linkTriggerId == clickedId then v.(display := Block, active := true)
    else v.(display := Hidden, active := false)
  }

  /** The category link's text after `handleTabClick` has visited `entries`:
      the name of the last present entry with the clicked id, if any. */
  function LabelAfter(entries: seq<MapItem>, views: seq<ItemView>, clickedId: string, linkText: string): string
    requires |views| == |entries|
  {
    if entries == [] then linkText
    else
      var k := |entries| - 1;
      var before := LabelAfter(entries[..k], views[..k], clickedId, linkText);
      if Present(views[k]) && entries[k].linkTriggerId == clickedId then entries[k].displayName else before
  }

  /** The link ids of the table are pairwise distinct. */
  lemma MapIdsDistinct()
    ensures forall i, j :: 0 <= i < j < |OurWorkMap| ==> OurWorkMap[i].linkTriggerId != OurWorkMap[j].linkTriggerId
  {
    forall i, j | 0 <= i < j < |OurWorkMap|
      ensures OurWorkMap[i].linkTriggerId != OurWorkMap[j].linkTriggerId
    {
      var a, b := OurWorkMap[i].linkTriggerId, OurWorkMap[j].linkTriggerId;
      if |a| == |b| {
        assert a[9] != b[9] || a[10] != b[10];
      }
    }
  }

  /** After a click, a present entry is shown exactly when it is the
      clicked one, and the link text names the clicked entry when it is present
      and is unchanged when no present entry has the clicked id. */
  lemma {:induction false} LabelAfterNamesClicked(entries: seq<MapItem>, views: seq<ItemView>, clickedId: string, linkText: string)
    requires |views| == |entries|
    requires forall i, j :: 0 <= i < j < |entries| ==> entries[i].linkTriggerId != entries[j].linkTriggerId
    ensures forall i :: 0 <= i < |entries| && Present(views[i]) && entries[i].linkTriggerId == clickedId ==>
              LabelAfter(entries, views, clickedId, linkText) == entries[i].displayName
    ensures (forall i :: 0 <= i < |entries| && Present(views[i]) ==> entries[i].linkTriggerId != clickedId) ==>
              LabelAfter(entries, views, clickedId, linkText) == linkText
  {
    if entries != [] {
      var k := |entries| - 1;
      LabelAfterNamesClicked(entries[..k], views[..k], clickedId, linkText);
    }
  }

  /** Whatever the page looked like, after selecting a category at most one
      present container is shown and at most one present link is active:
      those of the clicked category. */
  lemma AtMostOneShown(views: seq<ItemView>, clickedId: string)
    requires |views| == |OurWorkMap|
    ensures var after := seq(|views|, i requires 0 <= i < |views| => AfterClick(views[i], OurWorkMap[i], clickedId));
            && (forall i :: 0 <= i < |after| && Present(after[i]) ==>
                  (after[i].display == Block <==> OurWorkMap[i].linkTriggerId == clickedId)
                  && (after[i].active <==> OurWorkMap[i].linkTriggerId == clickedId))
            && (forall i, j ::
                  (0 <= i < |after| && 0 <= j < |after| && Present(after[i]) && Present(after[j])
                   && after[i].display == Block && after[j].display == Block) ==> i == j)
  {
    MapIdsDistinct();
  }

  /** Selecting the same category twice leaves the page as selecting it
      once did. */
  lemma AfterClickIdempotent(v: ItemView, entry: MapItem, clickedId: string)
    ensures AfterClick(AfterClick(v, entry, clickedId), entry, clickedId) == AfterClick(v, entry, clickedId)
    ensures Present(AfterClick(v, entry, clickedId)) == Present(v)
  {
  }

  /** The filter page: the filter list and the category link (either may be
      missing), one view per map entry, the list's "is-visible" class and
      the category link's text. */
  class CategoryFilterPage {
    /** `our_work_map`. */
    const entries: seq<MapItem>
    const listPresent: bool
    const linkPresent: bool
    const items: array<ItemView>
    /** Whether `_initOurWorkCategoryFilter` got past its early return and
        attached the click handlers. */
    var wired: bool
    var listVisible: bool
    var linkText: string

    constructor(list: bool, link: bool, views: seq<ItemView>, visible: bool, text: string)
      requires |views| == |OurWorkMap|
      ensures entries == OurWorkMap
      ensures listPresent == list && linkPresent == link && items[..] == views && fresh(items)
      ensures !wired && listVisible == visible && linkText == text
    {
      entries := OurWorkMap;
      listPresent := list;
      linkPresent := link;
      items := new ItemView[|views|](i requires 0 <= i < |views| => views[i]);
      wired := false;
      listVisible := visible;
      linkText := text;
    }

    /** `handleTabClick(clickedTriggerId, filterTrigger)`. */
    method HandleTabClick(clickedId: string)
      requires items.Length == |entries|
      modifies this, items
      ensures forall i :: 0 <= i < items.Length ==> items[i] == AfterClick(old(items[i]), entries[i], clickedId)
      ensures linkText == LabelAfter(entries, old(items[..]), clickedId, old(linkText))
      ensures wired == old(wired) && listVisible == old(listVisible)
    {
      var i := 0;
      while i < items.Length
        invariant 0 <= i <= items.Length
        invariant forall k :: 0 <= k < i ==> items[k] == AfterClick(old(items[k]), entries[k], clickedId)
        invariant forall k :: i <= k < items.Length ==> items[k] == old(items[k])
        invariant linkText == LabelAfter(entries[..i], old(items[..])[..i], clickedId, old(linkText))
        invariant wired == old(wired) && listVisible == old(listVisible)
      {
        var entry := entries[i];
        var v := items[i];
        if Present(v) {
          if entry.linkTriggerId == clickedId {
            items[i] := v.(display := Block, active := true);
            linkText := entry.displayName;
          } else {
            items[i] := v.(display := Hidden, active := false);
          }
        }
        assert entries[..i + 1][..i] == entries[..i];
        assert old(items[..])[..i + 1][..i] == old(items[..])[..i];
        i := i + 1;
      }
      assert entries[..i] == entries;
      assert old(items[..])[..i] == old(items[..]);
    }

    /** `_initOurWorkCategoryFilter()`: nothing without the filter list or
        the category link; otherwise the handlers are attached and the first
        category is selected. */
    method Init()
      requires items.Length == |entries| && entries == OurWorkMap && !wired
      modifies this, items
      ensures wired <==> listPresent && linkPresent
      ensures !wired ==> items[..] == old(items[..]) && linkText == old(linkText)
      ensures wired ==>
                && (forall i :: 0 <= i < items.Length ==> items[i] == AfterClick(old(items[i]), entries[i], "our-work-b2b-trigger"))
                && linkText == LabelAfter(entries, old(items[..]), "our-work-b2b-trigger", old(linkText))
      ensures listVisible == old(listVisible)
    {
      if !listPresent || !linkPresent {
        return;
      }
      wired := true;
      HandleTabClick(entries[0].linkTriggerId);
    }

    /** A click on the category link toggles the list once. */
    method ClickCategoryLink()
      modifies this
      ensures listVisible == if wired then !old(listVisible) else old(listVisible)
      ensures wired == old(wired) && linkText == old(linkText)
    {
      if wired {
        listVisible := !listVisible;
      }
    }

    /** A click on the link of entry `k`: handled only when that link
        exists and the handlers were attached. */
    method ClickItem(k: nat)
      requires k < items.Length == |entries|
      modifies this, items
      ensures var handled := old(wired) && old(items[k]).triggerPresent;
              && (handled ==>
                    && (forall i :: 0 <= i < items.Length ==> items[i] == AfterClick(old(items[i]), entries[i], entries[k].linkTriggerId))
                    && linkText == LabelAfter(entries, old(items[..]), entries[k].linkTriggerId, old(linkText))
                    && listVisible == !old(listVisible))
              && (!handled ==> items[..] == old(items[..]) && linkText == old(linkText) && listVisible == old(listVisible))
      ensures wired == old(wired)
    {
      if wired && items[k].triggerPresent {
        HandleTabClick(entries[k].linkTriggerId);
        listVisible := !listVisible;
      }
    }
  }

  /** On page load the first category is shown and named when its elements
      exist, and every other present container is hidden. */
  lemma InitialSelectionIsFirst(views: seq<ItemView>, linkText: string)
    requires |views| == |OurWorkMap| && Present(views[0])
    ensures LabelAfter(OurWorkMap, views, "our-work-b2b-trigger", linkText) == "B2B"
    ensures forall i :: 0 < i < |views| && Present(views[i]) ==>
              AfterClick(views[i], OurWorkMap[i], "our-work-b2b-trigger").display == Hidden
  {
    MapIdsDistinct();
    LabelAfterNamesClicked(OurWorkMap, views, "our-work-b2b-trigger", linkText);
  }
}
