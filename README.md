# Neighborhood map: the place list, modelled in Dafny

The widget shows ten points of interest in Monaco on a map and in a list.
When the map is ready it looks up each place in the registry
(`places_to_visit`) on Wikipedia. It builds a `MarkerPlace` from every answer
whose first page has coordinates and either no thumbnail or a thumbnail with a
`source`. Every place that yields no item gets the
message `Was not able to fetch "<name>"` once its 2-second timeout fires. The
`PlacesList` view-model holds the items, a keyword that filters them
case-insensitively, a collapse flag toggled by selection, a loading flag and
the accumulated error messages.

This project models that logic from `js/app.js`:

- `text.dfy` (module `Text`): the keyword test of `MarkerPlace.filter`.
  `title.toLowerCase().indexOf(keyword.toLowerCase()) !== -1` becomes `Lower`,
  `IndexOf` (proved to return the least occurrence, or -1 when there is none)
  and `Matches`, which is proved equal to "the lower-cased title contains the
  lower-cased keyword".
- `thumbnail.dfy` (module `Thumbnail`): `source.replace(/\d+px/, '200px')` and
  the default flag image. The greedy search for the first `\d+px`
  (`DigitRunEnd`, `PxMatchAt`, `FirstPx`) is proved equal to the declarative
  reading of the regular expression (`DigitsThenPx`). The rewrite is proved to
  replace exactly the leftmost match, to leave a URL without a match as it is,
  and to be idempotent.
- `places.dfy` (module `Places`): the registry, the `Page` payload and the
  `Lookup` outcome datatypes, the `MarkerPlace` and `PlacesList` classes, and
  the sequential handling of each lookup (`ProcessLookup`, `ForEachPlace`,
  `InitializeMarkers`)
  and of start-up (`DocumentReady`).
- `wrappers.dfy`: `Option`.

Knockout observables are plain fields. A subscription is a direct call: a new
keyword runs `FilterList`, and a new selection runs `ToggleList` and picks an
item. A `setTimeout` callback is an explicit step. The timeout message is
`ReportFetchFailure`, issued by `ProcessLookup` exactly when no item was added.
The delayed clearing of `isLoading` is `LoadingGraceElapsed`, which consumes
one scheduled `finishedLoading`.

Behaviour of the code that the model keeps on purpose:

- A keyword observable does not notify when it is set to the value it already
  holds, so `SetKeyword` refilters only on a change.
- A newly added item is visible even while a non-empty keyword is in force. It
  stays visible until the keyword changes.
- Selection indexes the full item list, not the filtered view. The list is
  toggled before the lookup of `items()[newValue[0]]`, so an empty selection
  or an index past the end still toggles. `Select` returns `None` for the
  exception that follows.
- `finishedLoading` is called from the `always` handler of the last registry
  entry's request only. If that request never completes, loading is never
  cleared, whatever the other requests do.

## Model

| member | source | states |
|---|---|---|
| `Text.ToLower` | js/app.js:160 | an ASCII capital becomes the lower-case letter at the same alphabet position; every other character is kept, so no ASCII capital is left |
| `Text.Lower` | js/app.js:160 | the ASCII-only stand-in for `toLowerCase`: same length, each character lowered by `ToLower`, so no ASCII capital is left and every other character is kept |
| `Text.IndexFrom` | js/app.js:160 | the search from `from` returns -1 exactly when `k` occurs nowhere at or after `from`, otherwise an occurrence with none before it |
| `Text.IndexOf` | js/app.js:160 | `indexOf` returns -1 iff the keyword is not a substring, else its least occurrence index |
| `Text.Matches` | js/app.js:159-166 | the filter test holds iff the lower-cased title contains the lower-cased keyword |
| `Text.EmptyKeywordMatches` | js/app.js:160 | the empty keyword is found at index 0 of every title, so it matches every title |
| `Text.MatchesIgnoresCase` | js/app.js:160 | keywords of equal length whose characters are pairwise equal or the two cases of one ASCII letter select the same titles |
| `Text.ExtendedKeywordNarrows` | js/app.js:159-166 | typing more characters can only hide items: a title matching `k + x` matches `k` |
| `Thumbnail.DigitRunEnd` | js/app.js:134 | the greedy `\d+` stops at the first non-digit or at the end, with only digits before it |
| `Thumbnail.FirstPx` | js/app.js:134 | the leftmost position at or after `from` where `\d+px` matches, or none when it matches nowhere there |
| `Thumbnail.ReplaceWidth` | js/app.js:134 | `replace(/\d+px/, '200px')`: a URL without a match is kept; otherwise the text before the leftmost match is kept and `200px` follows it (pinned down fully by `ReplaceWidthAtFirstMatch` and `ReplaceWidthNoMatch`) |
| `Thumbnail.ImageUrl` | js/app.js:131-137 | the `imgUrl` choice: a thumbnail with a `source` gives `ReplaceWidth(source)`, no thumbnail gives the Monaco flag, and no image exactly when a thumbnail has no `source` (building throws) |
| `Thumbnail.DigitRunEndAt` | js/app.js:134 | a digit run that ends at a non-digit is the one the greedy match takes |
| `Thumbnail.PxMatchAtIffRegex` | js/app.js:134 | the greedy test matches at `i` iff some non-empty digit run from `i` is followed by `px` |
| `Thumbnail.ReplaceWidthAtFirstMatch` | js/app.js:134 | with the leftmost `\d+px` at `src[i..j+2]`, the result is `src[..i] + "200px" + src[j+2..]` |
| `Thumbnail.ReplaceWidthNoMatch` | js/app.js:134 | a thumbnail URL without any `\d+px` is returned unchanged |
| `Thumbnail.ReplaceWidthIdempotent` | js/app.js:134 | resizing an already resized URL changes nothing |
| `Thumbnail.ImageUrlNormalised` | js/app.js:131-137 | without a thumbnail the image is the Monaco flag URL; with a `source` it is a fixed point of the resize; a thumbnail without a `source` yields no image, since `source.replace` throws |
| `Places.CanBuild` | js/app.js:112-134 | building a `MarkerPlace` does not throw iff the page has a first coordinate and its thumbnail, when present, has a `source` |
| `Places.PlaceFrom` | js/app.js:68-79 | the try/catch outcome: an answered lookup whose first page can be built yields exactly that page; a yielded page is always that first page, with coordinates and a usable thumbnail; a failed or unanswered request yields none |
| `Places.FetchError` | js/app.js:47 | the timeout message is `Was not able to fetch "`, then exactly the place name, then `"` |
| `Places.FetchErrorInjective` | js/app.js:47 | two places get the same timeout message `Was not able to fetch "<name>"` only if they have the same name |
| `Places.MapErrorIsNotFetchError` | js/app.js:233 | `Cannot load Google Map.` differs from every place's timeout message |
| `Places.AddedPagesOfOne` | js/app.js:68-75 | one lookup adds the answer's first page exactly when an item can be built from it, and nothing otherwise |
| `Places.DiagnosticsOfOne` | js/app.js:44-88 | a single lookup appends its place's timeout message exactly when `PlaceFrom` yields no page, and nothing otherwise |
| `Places.ExtendByOne` | js/app.js:44 | handling entry `i` after the first `i` entries extends the added pages and the messages to those of the first `i + 1` entries |
| `Places.EachLookupAccountedOnce` | js/app.js:44-88 | over all lookups, items added plus messages appended equals the number of lookups: each yields exactly one of the two |
| `Places.FailuresAreReported` | js/app.js:44-48 | every place whose lookup produced no item has its timeout message among the appended messages |
| `Places.ReportsAreFailures` | js/app.js:44-48 | every appended message is the timeout message of a place whose lookup produced no item |
| `Places.DiagnosticsNameFailures` | js/app.js:44-48 | the appended messages are exactly the timeout messages of the places whose lookup produced no item, in both directions |
| `Places.FilterViewExact` | js/app.js:198-202 | filtering keeps length, order and titles, and an item is visible iff its lower-cased title contains the lower-cased keyword |
| `Places.FilterViewIdempotent` | js/app.js:198-202 | filtering twice with the same keyword gives the same view as filtering once |
| `Places.FilterViewEmptyKeyword` | js/app.js:159-166 | the empty keyword makes every item visible whatever its previous visibility |
| `Places.MarkerPlace.constructor` | js/app.js:105-137 | a place built from a page with coordinates, and no thumbnail or one with a `source`, is `Valid`: it keeps the page's title and first coordinate and the resized or default image; it starts visible |
| `Places.MarkerPlace.Filter` | js/app.js:159-166 | the item becomes visible iff its lower-cased title contains the lower-cased keyword |
| `Places.PlacesList.constructor` | js/app.js:170-188 | a new list has no items, no messages, an empty keyword and selection, and is neither collapsed nor loading |
| `Places.PlacesList.StartedLoading` | js/app.js:190-192 | `isLoading` becomes true |
| `Places.PlacesList.FinishedLoading` | js/app.js:194-196 | one more delayed clearing of `isLoading` is scheduled |
| `Places.PlacesList.LoadingGraceElapsed` | js/app.js:195 | a scheduled clearing fires: `isLoading` becomes false |
| `Places.PlacesList.FilterList` | js/app.js:198-202 | every item's visibility is rewritten in place to the filter test of its own title; the view is `FilterView` of the old view |
| `Places.PlacesList.SetKeyword` | js/app.js:208-210 | a changed keyword refilters the list; setting the same keyword leaves the view unchanged |
| `Places.PlacesList.ToggleList` | js/app.js:204-206 | `isCollapsed` is negated, so two toggles restore it |
| `Places.PlacesList.Select` | js/app.js:212-215 | records the selection, toggles `isCollapsed` once, and shows `items[i]` of the full list exactly when the first selected index `i` is in range |
| `Places.PlacesList.ReportFetchFailure` | js/app.js:46-48 | appends exactly `Was not able to fetch "<name>"`, earlier messages untouched |
| `Places.PlacesList.ReportMapFailure` | js/app.js:230-235 | appends exactly `Cannot load Google Map.` and schedules the end of loading |
| `Places.PlacesList.ProcessLookup` | js/app.js:44-96 | the `forEach` callback for entry `index`: the old items are kept and the item pages grow by the page the lookup yields, if any, as one fresh, `Valid`, visible item at the end; the messages grow by the place's timeout message exactly when no page is yielded; a completed request on the last entry schedules the end of loading |
| `Places.PlacesList.ForEachPlace` | js/app.js:44-97 | `forEach` over a registry: the old items are kept, the item pages grow by the pages of the successful lookups in order, every new item is fresh, `Valid` and visible, the messages grow by the timeout messages of the failed places, and loading ends once if the last entry's request completes |
| `Places.PlacesList.InitializeMarkers` | js/app.js:41-98 | `ForEachPlace` over the ten-entry registry: after all lookups the old items are kept, the item pages are the old ones followed by the pages of the successful lookups in order, every new item is fresh, `Valid` and visible, and the messages are the old ones followed by the timeout messages of the failed places |
| `Places.DocumentReady` | js/app.js:221-236 | start-up yields an empty list, keyword and selection with loading on, plus exactly the map failure message and one scheduled clearing when the map cannot be created |

## Left out

- Google Maps (the map, markers, `setMap`, the info window and its listeners) is a foreign library with no visible semantics here. A marker is reduced to the place's `position`.
- `displayInfoWindow` fills an HTML template read from the page's DOM. `Select` only says which item would be shown.
- The JSONP request and its query parameters are network I/O. A lookup is its abstract outcome, a `Lookup` value: an answer with its pages in key order, a failed request, or no completion.
- Timing is not modelled: the 2000 ms race between answer and timeout, and the 2000 ms grace delay. Lookups are handled one at a time in registry order, whereas items really arrive in completion order. An answer that arrives after its timeout has already fired (so both an item and a message appear) is part of that race and is not modelled.
- Knockout bindings, `applyBindings` and the visibility subscription that shows or hides a marker are UI wiring and are left out.
- `toLowerCase` is modelled for ASCII letters only. Titles such as "Opéra de Monte-Carlo" contain non-ASCII letters whose case mapping is not modelled.
- `initialize_map` registering `initialize_markers` on the first `bounds_changed` event is left out. Calling `InitializeMarkers` stands for that event; clearing the listener so it runs once is not modelled.
- Places.MarkerPlace.constructor: requires `CanBuild`: a page with coordinates and no thumbnail or a thumbnail with a `source`. The `TypeError` thrown otherwise is the branch in `ProcessLookup` that adds no item.
- A coordinate entry is assumed to be an object with `lat` and `lon`. A `null` first coordinate, which would also throw, is not modelled.
