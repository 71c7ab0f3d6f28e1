/**
 * The place list behind the widget: the fixed registry of places in Monaco,
 * the `MarkerPlace` items built from encyclopedia pages, and the `PlacesList`
 * view-model with its keyword filter, collapse toggle, loading flag and
 * error messages. Each lookup of a registry entry is handled as one
 * sequential step: either it yields one new item, or the timeout reports it.
 */
module Places {
  import opened Wrappers
  import opened Text
  import opened Thumbnail

  /** The registry: one lookup is issued per entry, in this order. */
  const PlacesToVisit: seq<string> := [
    "Opéra de Monte-Carlo",
    "Fort Antoine Theatre",
    "Saint Nicholas Cathedral, Monaco",
    "Monaco Top Cars Collection",
    "Oceanographic Museum",
    "Museum of Stamps and Coins",
    "Museum of Prehistoric Anthropology",
    "Prince's Palace of Monaco",
    "Japanese Garden, Monaco",
    "Jardin Exotique de Monaco"
  ]

  /** The one message shown when the map cannot be created. */
  const MapErrorMessage: string := "Cannot load Google Map."

  /** What the timeout message puts in front of the place name. */
  const FetchErrorPrefix: string := "Was not able to fetch \""

  datatype Coordinate = Coordinate(lat: real, lon: real)

  /** One page of an answer; a payload without coordinates has `coordinates == []`. */
  datatype Page = Page(
    title: string,
    coordinates: seq<Coordinate>,
    thumbnail: PageThumbnail,
    extract: string,
    fullUrl: string)

  /**
   * How one lookup ends: the callback ran with the answer's pages (in key
   * order, possibly none when the answer has no pages), the request failed
   * without running the callback, or it never completed.
   */
  datatype Lookup = Answered(pages: seq<Page>) | Errored | Unanswered

  predicate HasCoordinates(page: Page) {
    |page.coordinates| > 0
  }

  /**
   * Building a `MarkerPlace` from `page` does not throw: the marker reads
   * `coordinates[0]`, and a present thumbnail must have a `source` to resize.
   */
  predicate CanBuild(page: Page): (b: bool)
    ensures b <==> HasCoordinates(page) && !page.thumbnail.WithoutSource?
  {
    HasCoordinates(page) && ImageUrl(page.thumbnail).Some?
  }

  /**
   * The page an item is built from: the first page of the answer, when the
   * callback could build a `MarkerPlace` from it without throwing.
   */
  function PlaceFrom(lookup: Lookup): (page: Option<Page>)
    ensures !lookup.Answered? ==> page.None?
    ensures page.Some? ==> lookup.pages != [] && page.value == lookup.pages[0]
    ensures page.Some? ==> HasCoordinates(page.value) && !page.value.thumbnail.WithoutSource?
    ensures lookup.Answered? && lookup.pages != [] && CanBuild(lookup.pages[0]) ==>
      page == Some(lookup.pages[0])
  {
    if lookup.Answered? && |lookup.pages| > 0 && CanBuild(lookup.pages[0])
    then Some(lookup.pages[0])
    else None
  }

  /** The request completed, so its `always` handler runs. */
  predicate Completes(lookup: Lookup) {
    !lookup.Unanswered?
  }

  /** The message the timeout appends for a place that produced no item. */
  function FetchError(name: string): (msg: string)
    ensures |msg| == |FetchErrorPrefix| + |name| + 1
    ensures msg[..|FetchErrorPrefix|] == FetchErrorPrefix && msg[|msg| - 1] == '"'
    ensures msg[|FetchErrorPrefix|..|msg| - 1] == name
  {
    FetchErrorPrefix + name + "\""
  }

  /** A timeout message names its place unambiguously: different places get different messages. */
  lemma FetchErrorInjective(a: string, b: string)
    ensures FetchError(a) == FetchError(b) ==> a == b
  {
  }

  /** The map failure message is never the timeout message of any place. */
  lemma MapErrorIsNotFetchError(name: string)
    ensures FetchError(name) != MapErrorMessage
  {
  }

  /** Pages of the items a sequence of lookups adds, in processing order. */
  function AddedPages(lookups: seq<Lookup>): (pages: seq<Page>) {
    if lookups == [] then []
    else
      var last := lookups[|lookups| - 1];
      AddedPages(lookups[..|lookups| - 1]) +
        (if PlaceFrom(last).Some? then [PlaceFrom(last).value] else [])
  }

  /** Timeout messages a sequence of lookups appends, in processing order. */
  function Diagnostics(names: seq<string>, lookups: seq<Lookup>): (msgs: seq<string>)
    requires |names| == |lookups|
  {
    if lookups == [] then []
    else
      var k := |lookups| - 1;
      Diagnostics(names[..k], lookups[..k]) +
        (if PlaceFrom(lookups[k]).Some? then [] else [FetchError(names[k])])
  }

  /** A single lookup adds its page when `PlaceFrom` yields one, and nothing otherwise. */
  lemma AddedPagesOfOne(lookup: Lookup)
    ensures PlaceFrom(lookup).Some? ==> AddedPages([lookup]) == [PlaceFrom(lookup).value]
    ensures PlaceFrom(lookup).None? ==> AddedPages([lookup]) == []
  {
  }

  /** Handling lookup `i` after the first `i` extends both the added pages and the messages by one step. */
  lemma ExtendByOne(
    pages0: seq<Page>, pages: seq<Page>, pages': seq<Page>,
    messages0: seq<string>, messages: seq<string>, messages': seq<string>,
    names: seq<string>, lookups: seq<Lookup>, i: nat)
    requires |names| == |lookups| && i < |lookups|
    requires pages == pages0 + AddedPages(lookups[..i]) && pages' == pages + AddedPages([lookups[i]])
    requires messages == messages0 + Diagnostics(names[..i], lookups[..i])
    requires messages' == messages + Diagnostics([names[i]], [lookups[i]])
    ensures pages' == pages0 + AddedPages(lookups[..i + 1])
    ensures messages' == messages0 + Diagnostics(names[..i + 1], lookups[..i + 1])
  {
    AddedPagesStep(lookups, i);
    DiagnosticsStep(names, lookups, i);
  }

  /** A single lookup appends its place's timeout message exactly when `PlaceFrom` yields no page. */
  lemma DiagnosticsOfOne(name: string, lookup: Lookup)
    ensures PlaceFrom(lookup).Some? ==> Diagnostics([name], [lookup]) == []
    ensures PlaceFrom(lookup).None? ==> Diagnostics([name], [lookup]) == [FetchError(name)]
  {
  }

  /** Handling one more lookup extends the added pages by that lookup's page, if any. */
  lemma AddedPagesStep(lookups: seq<Lookup>, i: nat)
    requires i < |lookups|
    ensures AddedPages(lookups[..i + 1]) == AddedPages(lookups[..i]) + AddedPages([lookups[i]])
  {
    assert lookups[..i + 1][..i] == lookups[..i];
    assert [lookups[i]][..0] == [];
  }

  /** Handling one more lookup extends the messages by that lookup's message, if any. */
  lemma DiagnosticsStep(names: seq<string>, lookups: seq<Lookup>, i: nat)
    requires |names| == |lookups| && i < |lookups|
    ensures Diagnostics(names[..i + 1], lookups[..i + 1]) ==
      Diagnostics(names[..i], lookups[..i]) + Diagnostics([names[i]], [lookups[i]])
  {
    assert lookups[..i + 1][..i] == lookups[..i];
    assert names[..i + 1][..i] == names[..i];
  }

  /** Every lookup yields exactly one item or exactly one message, never both and never neither. */
  lemma {:induction false} EachLookupAccountedOnce(names: seq<string>, lookups: seq<Lookup>)
    requires |names| == |lookups|
    ensures |AddedPages(lookups)| + |Diagnostics(names, lookups)| == |lookups|
  {
    if lookups != [] {
      var k := |lookups| - 1;
      EachLookupAccountedOnce(names[..k], lookups[..k]);
    }
  }

  /** Every place whose lookup produced no item has its timeout message among the messages. */
  lemma {:induction false} FailuresAreReported(names: seq<string>, lookups: seq<Lookup>)
    requires |names| == |lookups|
    ensures forall i :: 0 <= i < |lookups| && PlaceFrom(lookups[i]).None? ==>
      FetchError(names[i]) in Diagnostics(names, lookups)
  {
    if lookups != [] {
      var k := |lookups| - 1;
      FailuresAreReported(names[..k], lookups[..k]);
      var d := Diagnostics(names, lookups);
      var prev := Diagnostics(names[..k], lookups[..k]);
      assert d == prev + (if PlaceFrom(lookups[k]).Some? then [] else [FetchError(names[k])]);
      forall i | 0 <= i < |lookups| && PlaceFrom(lookups[i]).None?
        ensures FetchError(names[i]) in d
      {
        if i < k {
          assert names[..k][i] == names[i] && lookups[..k][i] == lookups[i];
        }
      }
    }
  }

  /** Every message is the timeout message of a place whose lookup produced no item. */
  lemma {:induction false} ReportsAreFailures(names: seq<string>, lookups: seq<Lookup>)
    requires |names| == |lookups|
    ensures forall m :: m in Diagnostics(names, lookups) ==>
      exists i :: 0 <= i < |lookups| && PlaceFrom(lookups[i]).None? && m == FetchError(names[i])
  {
    if lookups != [] {
      var k := |lookups| - 1;
      ReportsAreFailures(names[..k], lookups[..k]);
      var d := Diagnostics(names, lookups);
      var prev := Diagnostics(names[..k], lookups[..k]);
      assert d == prev + (if PlaceFrom(lookups[k]).Some? then [] else [FetchError(names[k])]);
      forall m | m in d
        ensures exists i :: 0 <= i < |lookups| && PlaceFrom(lookups[i]).None? && m == FetchError(names[i])
      {
        if m in prev {
          var i :| 0 <= i < k && PlaceFrom(lookups[..k][i]).None? && m == FetchError(names[..k][i]);
          assert names[..k][i] == names[i] && lookups[..k][i] == lookups[i];
        } else {
          assert PlaceFrom(lookups[k]).None? && m == FetchError(names[k]);
        }
      }
    }
  }

  /** The messages are exactly those of the places whose lookup produced no item. */
  lemma DiagnosticsNameFailures(names: seq<string>, lookups: seq<Lookup>)
    requires |names| == |lookups|
    ensures forall i :: 0 <= i < |lookups| && PlaceFrom(lookups[i]).None? ==>
      FetchError(names[i]) in Diagnostics(names, lookups)
    ensures forall m :: m in Diagnostics(names, lookups) ==>
      exists i :: 0 <= i < |lookups| && PlaceFrom(lookups[i]).None? && m == FetchError(names[i])
  {
    FailuresAreReported(names, lookups);
    ReportsAreFailures(names, lookups);
  }

  /** An item as the list shows it: its title and whether it is visible. */
  datatype ItemView = ItemView(title: string, visible: bool)

  /** The list after filtering by `keyword`: same items, visibility recomputed from the titles alone. */
  function FilterView(view: seq<ItemView>, keyword: string): (filtered: seq<ItemView>) {
    seq(|view|, i requires 0 <= i < |view| => ItemView(view[i].title, Matches(view[i].title, keyword)))
  }

  /**
   * Filtering keeps the number, order and titles of the items, and makes an
   * item visible exactly when its lower-cased title contains the lower-cased keyword.
   */
  lemma FilterViewExact(view: seq<ItemView>, keyword: string)
    ensures |FilterView(view, keyword)| == |view|
    ensures forall i :: 0 <= i < |view| ==>
      FilterView(view, keyword)[i].title == view[i].title &&
      (FilterView(view, keyword)[i].visible <==> Contains(Lower(view[i].title), Lower(keyword)))
  {
  }

  /** Filtering twice with the same keyword is filtering once. */
  lemma FilterViewIdempotent(view: seq<ItemView>, keyword: string)
    ensures FilterView(FilterView(view, keyword), keyword) == FilterView(view, keyword)
  {
  }

  /** The empty keyword shows every item, whatever was hidden before. */
  lemma FilterViewEmptyKeyword(view: seq<ItemView>)
    ensures forall i :: 0 <= i < |view| ==> FilterView(view, "")[i].visible
  {
  }

  /** One point of interest: the page it was built from and its visibility in the list and on the map. */
  class MarkerPlace {
    const page: Page
    const title: string
    const position: Coordinate
    const imgUrl: string
    var isVisible: bool

    /** The title, marker position and image are those of the page the place was built from. */
    ghost predicate Valid() {
      && title == page.title
      && HasCoordinates(page)
      && position == page.coordinates[0]
      && ImageUrl(page.thumbnail) == Some(imgUrl)
    }

    /** Building the place throws unless `CanBuild(page)`; the caller handles that case. */
    constructor (page: Page)
      requires CanBuild(page)
      ensures this.page == page && Valid()
      ensures isVisible
    {
      this.page := page;
      title := page.title;
      position := page.coordinates[0];
      imgUrl := ImageUrl(page.thumbnail).value;
      isVisible := true;
    }

    /** Shows the place when its title contains the keyword, ignoring case, and hides it otherwise. */
    method Filter(keyword: string)
      modifies this`isVisible
      ensures isVisible == Matches(title, keyword)
      ensures isVisible <==> Contains(Lower(title), Lower(keyword))
    {
      if IndexOf(Lower(title), Lower(keyword)) != -1 {
        isVisible := true;
      } else {
        isVisible := false;
      }
    }
  }

  /** The view-model the page binds to. */
  class PlacesList {
    var items: seq<MarkerPlace>
    var keyword: string
    var selectedItems: seq<int>
    var errorMessages: seq<string>
    var isCollapsed: bool
    var isLoading: bool
    /** `finishedLoading` calls whose delayed clearing of `isLoading` is still to come. */
    var pendingLoadingClears: nat

    constructor ()
      ensures items == [] && keyword == "" && selectedItems == [] && errorMessages == []
      ensures !isCollapsed && !isLoading && pendingLoadingClears == 0
    {
      items := [];
      keyword := "";
      selectedItems := [];
      errorMessages := [];
      isCollapsed := false;
      isLoading := false;
      pendingLoadingClears := 0;
    }

    ghost function Elements(): set<MarkerPlace>
      reads this
    {
      set p | p in items
    }

    /** The pages the items were built from, in order. */
    function Pages(): (pages: seq<Page>)
      reads this
    {
      var places := items;
      seq(|places|, i requires 0 <= i < |places| => places[i].page)
    }

    /** The list as shown: each item's title and visibility, in order. */
    ghost function View(): seq<ItemView>
      reads this, Elements()
    {
      seq(|items|, i requires 0 <= i < |items| reads this, Elements() =>
        ItemView(items[i].title, items[i].isVisible))
    }

    method StartedLoading()
      modifies this`isLoading
      ensures isLoading
    {
      isLoading := true;
    }

    /** Schedules the clearing of `isLoading` after the grace delay. */
    method FinishedLoading()
      modifies this`pendingLoadingClears
      ensures pendingLoadingClears == old(pendingLoadingClears) + 1
    {
      pendingLoadingClears := pendingLoadingClears + 1;
    }

    /** The grace delay of one `finishedLoading` call has elapsed. */
    method LoadingGraceElapsed()
      requires pendingLoadingClears > 0
      modifies this`isLoading, this`pendingLoadingClears
      ensures !isLoading
      ensures pendingLoadingClears == old(pendingLoadingClears) - 1
    {
      isLoading := false;
      pendingLoadingClears := pendingLoadingClears - 1;
    }

    /** Rewrites every item's visibility in place from its title and `keyword`. */
    method FilterList(keyword: string)
      modifies Elements()
      ensures forall i :: 0 <= i < |items| ==> items[i].isVisible == Matches(items[i].title, keyword)
      ensures View() == FilterView(old(View()), keyword)
    {
      var i := 0;
      while i < |items|
        invariant 0 <= i <= |items|
        invariant forall j :: 0 <= j < i ==> items[j].isVisible == Matches(items[j].title, keyword)
      {
        items[i].Filter(keyword);
        i := i + 1;
      }
    }

    /** The keyword observable: a new value refilters the list; the same value notifies no one. */
    method SetKeyword(newValue: string)
      modifies this`keyword, Elements()
      ensures keyword == newValue && items == old(items)
      ensures old(keyword) != newValue ==> View() == FilterView(old(View()), newValue)
      ensures old(keyword) == newValue ==> View() == old(View())
    {
      if newValue != keyword {
        keyword := newValue;
        FilterList(newValue);
      }
    }

    method ToggleList()
      modifies this`isCollapsed
      ensures isCollapsed == !old(isCollapsed)
    {
      isCollapsed := !isCollapsed;
    }

    /**
     * The selection observable: toggles the list, then shows the item at the
     * first selected index of the full list; `None` stands for the exception
     * raised when that index names no item.
     */
    method Select(newValue: seq<int>) returns (shown: Option<MarkerPlace>)
      modifies this`selectedItems, this`isCollapsed
      ensures selectedItems == newValue
      ensures isCollapsed == !old(isCollapsed)
      ensures shown.Some? <==> |newValue| > 0 && 0 <= newValue[0] < |items|
      ensures shown.Some? ==> shown.value == items[newValue[0]]
    {
      selectedItems := newValue;
      ToggleList();
      if |newValue| > 0 && 0 <= newValue[0] < |items| {
        shown := Some(items[newValue[0]]);
      } else {
        shown := None;
      }
    }

    /** The timeout of a lookup that produced no item. */
    method ReportFetchFailure(name: string)
      modifies this`errorMessages
      ensures errorMessages == old(errorMessages) + [FetchError(name)]
    {
      errorMessages := errorMessages + [FetchError(name)];
    }

    /** The map could not be created: one fixed message, and loading ends. */
    method ReportMapFailure()
      modifies this`errorMessages, this`pendingLoadingClears
      ensures errorMessages == old(errorMessages) + [MapErrorMessage]
      ensures pendingLoadingClears == old(pendingLoadingClears) + 1
    {
      errorMessages := errorMessages + [MapErrorMessage];
      FinishedLoading();
    }

    /**
     * The `forEach` callback for entry `index` of `registry`, run to the end of
     * its lookup: the success callback adds one item and cancels the timeout,
     * or the timeout reports the place; a completed request on the last entry
     * ends loading. The items grow by exactly the page the lookup yields, if
     * any (see `AddedPagesOfOne`), as a fresh, well-built, visible place; the
     * messages grow by the place's timeout message exactly when no page is
     * yielded (see `DiagnosticsOfOne`).
     */
    method ProcessLookup(registry: seq<string>, index: nat, lookup: Lookup)
      requires index < |registry|
      modifies this`items, this`errorMessages, this`pendingLoadingClears
      ensures |old(items)| <= |items| && items[..|old(items)|] == old(items)
      ensures Pages() == old(Pages()) + AddedPages([lookup])
      ensures forall k :: |old(items)| <= k < |items| ==>
        fresh(items[k]) && items[k].Valid() && items[k].isVisible
      ensures errorMessages == old(errorMessages) + Diagnostics([registry[index]], [lookup])
      ensures pendingLoadingClears == old(pendingLoadingClears) +
        (if Completes(lookup) && index == |registry| - 1 then 1 else 0)
    {
      var added := false;
      if lookup.Answered? && |lookup.pages| > 0 && CanBuild(lookup.pages[0]) {
        var place := new MarkerPlace(lookup.pages[0]);
        items := items + [place];
        added := true;
      }
      if !added {
        ReportFetchFailure(registry[index]);
      }
      if Completes(lookup) && index == |registry| - 1 {
        FinishedLoading();
      }
    }

    /** `registry.forEach`: the lookup of every entry, handled in order as it ends. */
    method ForEachPlace(registry: seq<string>, lookups: seq<Lookup>)
      requires |lookups| == |registry|
      modifies this`items, this`errorMessages, this`pendingLoadingClears
      ensures Pages() == old(Pages()) + AddedPages(lookups)
      ensures errorMessages == old(errorMessages) + Diagnostics(registry, lookups)
      ensures |old(items)| <= |items| && items[..|old(items)|] == old(items)
      ensures forall k :: |old(items)| <= k < |items| ==>
        fresh(items[k]) && items[k].Valid() && items[k].isVisible
      ensures pendingLoadingClears == old(pendingLoadingClears) +
        (if lookups != [] && Completes(lookups[|lookups| - 1]) then 1 else 0)
    {
      var n := |registry|;
      var i := 0;
      while i < n
        invariant 0 <= i <= n
        invariant Pages() == old(Pages()) + AddedPages(lookups[..i])
        invariant errorMessages == old(errorMessages) + Diagnostics(registry[..i], lookups[..i])
        invariant |old(items)| <= |items| && items[..|old(items)|] == old(items)
        invariant forall k :: |old(items)| <= k < |items| ==>
          fresh(items[k]) && items[k].Valid() && items[k].isVisible
        invariant pendingLoadingClears == old(pendingLoadingClears) +
          (if 0 < i == n && Completes(lookups[n - 1]) then 1 else 0)
      {
        ghost var before, pagesBefore, messagesBefore := items, Pages(), errorMessages;
        ProcessLookup(registry, i, lookups[i]);
        forall k | |old(items)| <= k < |items|
          ensures fresh(items[k]) && items[k].Valid() && items[k].isVisible
        {
          if k < |before| {
            assert items[k] == before[k];
          }
        }
        ExtendByOne(old(Pages()), pagesBefore, Pages(), old(errorMessages), messagesBefore, errorMessages,
          registry, lookups, i);
        i := i + 1;
      }
      assert lookups[..n] == lookups;
      assert registry[..n] == registry;
    }

    /** Once the map is ready: one lookup per registry entry, each handled as it ends. */
    method InitializeMarkers(lookups: seq<Lookup>)
      requires |lookups| == |PlacesToVisit|
      modifies this`items, this`errorMessages, this`pendingLoadingClears
      ensures Pages() == old(Pages()) + AddedPages(lookups)
      ensures errorMessages == old(errorMessages) + Diagnostics(PlacesToVisit, lookups)
      ensures items[..|old(items)|] == old(items)
      ensures forall k :: |old(items)| <= k < |items| ==>
        fresh(items[k]) && items[k].Valid() && items[k].isVisible
      ensures pendingLoadingClears == old(pendingLoadingClears) +
        (if Completes(lookups[|lookups| - 1]) then 1 else 0)
    {
      ForEachPlace(PlacesToVisit, lookups);
    }
  }

  /** Page start-up: a fresh list, loading shown, and the map created or its failure reported. */
  method DocumentReady(mapLoads: bool) returns (list: PlacesList)
    ensures fresh(list)
    ensures list.items == [] && list.keyword == "" && list.selectedItems == []
    ensures !list.isCollapsed && list.isLoading
    ensures list.errorMessages == (if mapLoads then [] else [MapErrorMessage])
    ensures list.pendingLoadingClears == (if mapLoads then 0 else 1)
  {
    list := new PlacesList();
    list.StartedLoading();
    if !mapLoads {
      list.ReportMapFailure();
    }
  }
}
