# Bike marketplace buy page: filter and sort engine

This project models the logic of the marketplace's "buy bikes" page
(`src/pages/BuyBikes.jsx`):

- **Image resolution**: the fetch callback maps each listing's image field
  to a displayable URL (lines 39-46).
- **Filter effect**: a copy of the loaded list is narrowed once per filter
  dimension that has selected tokens (price, brand, category, year, mileage,
  fuel, color, in that key order). Within a dimension the tokens are
  OR-combined; across dimensions the narrowing is AND-combined. The copy is
  then sorted in place by the selected sort key (lines 53-92).
- **Checkbox handler**: `handleFilterChange` appends a token to one
  dimension's list or removes every occurrence of it (lines 94-101).

Modules, one per concern of the page:

- `catalog.dfy` (`Catalog`): the listing record `Bike`, the enumerated
  `Dimension` (replacing the filter object's string keys), `SortKey` and the
  decoding of the sort selector's value.
- `images.dfy` (`Images`): `ResolveImage` and the map over the response.
- `filtering.dfy` (`Filtering`): the per-token predicate `Matches`, one
  `filter` call (`Keep`), the narrowing over the first n dimensions
  (`Narrowed`), what each keeps (`KeepCounts`, `NarrowedCounts`) and the
  band lemmas.
- `selection.dfy` (`Selection`): the filter object as a class whose
  `Change` method is the checkbox handler.
- `sorting.dfy` (`Sorting`): the four comparators, an in-place sort of an
  array under a comparator, and uniqueness of sorted permutations.
- `engine.dfy` (`Engine`): the effect itself (`ApplyFilters`, whose loop
  over the dimensions is `NarrowAll`), the
  predicate `IsView` that says what it may return, and end-to-end lemmas.

The effect is specified by `IsView(all, filters, sort, view)`. The view holds
exactly the bikes that every dimension admits, each as often as it was loaded
(`ViewIsSelection`). It is sorted by the key, or, when the key is not one of
the four, left in the loaded order (`UnsortedViewKeepsLoadedOrder`, from
`FilteredIsOnePass`). A view is determined by these properties when no
two different bikes tie under the key (`SortedPermutationsEqual`).

Behaviour of the code that the model keeps:

- Year bands stop at 2024. A bike from 2025 or later is admitted by no year
  token, so selecting any year band hides it (`YearBandsStopAt2024`).
- A token a range dimension does not recognise admits nothing.
- Categorical tokens compare case-sensitively with the field.
- A filter key that is absent imposes no constraint, as `Object.keys` never
  visits it. The page's own filter object always has all seven keys
  (`FilterSelection.Valid`).
- The image placeholder is `https://placehold.co/600x400/003366/ffffff?text=No+Image`.
  Relative images are served from `API_URL + "/media/"`. `API_URL` is a
  parameter; `Images.DefaultApiUrl` records its fallback `http://localhost:8000`.

The page does not pick a sort algorithm. It calls the runtime's
`Array.prototype.sort`, and the model does not state stability. A missing
field gets no special handling: it goes straight into a JavaScript
comparison (see "## Left out").

## Model

| member | source | states |
|---|---|---|
| Catalog.SortKeyOf | src/pages/BuyBikes.jsx:86-89 | each of the four selector values, and only that value, selects its sort key; any other value selects no sort |
| Catalog.DimensionsListsEveryDimension | src/pages/BuyBikes.jsx:10-18 | the key order the effect visits contains every filter dimension |
| Images.ResolveImage | src/pages/BuyBikes.jsx:41-45 | a non-empty image starting with "http" is kept; any other non-empty image is the API URL plus "/media/" followed by the image, recoverable as the URL's suffix; an empty or missing image becomes the placeholder; the URL is never empty |
| Images.ResolvedImageIsAbsolute | src/pages/BuyBikes.jsx:39-46 | when the API URL is an http URL every resolved URL starts with "http", so resolving twice equals resolving once |
| Images.DefaultHostResolutionIsIdempotent | src/pages/BuyBikes.jsx:5-45 | the fallback host `http://localhost:8000` is an http URL, so with it resolving a resolved image changes nothing |
| Images.ResolveAll | src/pages/BuyBikes.jsx:39-46 | the mapped list has the same length, each record's image is resolved and every other field is copied unchanged |
| Filtering.KeepCounts | src/pages/BuyBikes.jsx:58-82 | one filter call keeps a bike exactly as often as it occurs in its input when some selected token of the dimension admits it, and drops it otherwise |
| Filtering.NarrowedCounts | src/pages/BuyBikes.jsx:54-84 | after visiting the first n dimensions, a bike occurs as often as it was loaded when each of those dimensions passes it, and not at all otherwise |
| Filtering.PassesAllIsSelects | src/pages/BuyBikes.jsx:56-57 | passing the seven visited dimensions is the same as passing every dimension (AND across dimensions) |
| Filtering.FilteredCounts | src/pages/BuyBikes.jsx:54-84 | filtering only removes: the result holds a loaded bike exactly as often as it was loaded iff every non-empty dimension has a token admitting it, and never holds anything else |
| Filtering.NarrowedIsOnePass | src/pages/BuyBikes.jsx:54-84 | narrowing by the first n dimensions in key order equals one order-keeping pass over the loaded list that keeps the bikes those dimensions pass |
| Filtering.FilteredIsOnePass | src/pages/BuyBikes.jsx:54-84 | the sequential narrowing equals a single AND-filter over the loaded list: the selected bikes, in their loaded order |
| Filtering.EmptySelectionKeepsAll | src/pages/BuyBikes.jsx:56-57 | with every token list empty the filtered list is the loaded list, in order |
| Filtering.NoMatchEmptiesResult | src/pages/BuyBikes.jsx:57-82 | a non-empty token list that admits no loaded bike empties the result, whatever other dimensions select |
| Filtering.UnknownCategoricalTokenEmptiesResult | src/pages/BuyBikes.jsx:77-79 | when every token selected in the brand, category, fuel or color dimension equals no loaded bike's field (case-sensitive), the result is empty |
| Filtering.PriceAndMileageBandsPartition | src/pages/BuyBikes.jsx:60-71 | every price lies in exactly one of "<50000", "50000-100000", ">100000", and every mileage in exactly one of "<5000", "5000-20000", ">20000" |
| Filtering.YearBandsStopAt2024 | src/pages/BuyBikes.jsx:72-76 | a year up to 2024 lies in exactly one of "<2015", "2015-2019", "2020-2024"; a later year lies in none |
| Filtering.RangeTokensOutsideBandsMatchNothing | src/pages/BuyBikes.jsx:60-80 | a price, mileage or year token that is not one of its three bands admits no bike, and no token admits a year after 2024 |
| Selection.Without | src/pages/BuyBikes.jsx:98 | unchecking removes every occurrence of the token and keeps every other token as often as before |
| Selection.WithoutAbsentIsIdentity | src/pages/BuyBikes.jsx:98 | removing a token that is not selected leaves the list unchanged |
| Selection.WithoutAppended | src/pages/BuyBikes.jsx:97-98 | removing a token after appending it equals removing it from the original list |
| Selection.UncheckUndoesCheck | src/pages/BuyBikes.jsx:94-100 | appending a token that is not in the list and then removing it restores the token list |
| Selection.CheckAdmits | src/pages/BuyBikes.jsx:94-97 | after a token is checked every bike it admits passes that dimension, and a dimension that already had tokens loses no bike it passed |
| Selection.UncheckRemovesToken | src/pages/BuyBikes.jsx:94-98 | after a token is unchecked it admits nothing there: while another token remains selected in that dimension, a bike passes it only through such a token; once none remains, the dimension admits every bike |
| Selection.FilterSelection.constructor | src/pages/BuyBikes.jsx:10-18 | the initial filter object has all seven dimensions, each with an empty list |
| Selection.FilterSelection.Change | src/pages/BuyBikes.jsx:94-101 | checked appends the token to the dimension's list; unchecked leaves it without that token; every other dimension's list is unchanged |
| Sorting.SortedByMeans | src/pages/BuyBikes.jsx:86-89 | sorted under newest means year non-increasing, under price_low_high price non-decreasing, under price_high_low price non-increasing, under mileage_low_high mileage non-decreasing |
| Sorting.SortInPlace | src/pages/BuyBikes.jsx:86-89 | the array afterwards is sorted by the comparator and is a permutation of what it held |
| Sorting.SortedPermutationsEqual | src/pages/BuyBikes.jsx:86-89 | two sortings of the same bikes are equal when no two different bikes tie under the key |
| Sorting.PriceOrdersAreReverses | src/pages/BuyBikes.jsx:87-88 | for distinct prices the high-to-low order is the low-to-high order reversed |
| Engine.NarrowAll | src/pages/BuyBikes.jsx:54-84 | the loop over the filter object's keys leaves exactly the list obtained by narrowing with every non-empty dimension in key order |
| Engine.ApplyFilters | src/pages/BuyBikes.jsx:53-92 | the effect returns a permutation of the filtered list, sorted by the recognised key, or the filtered list itself when the key is not recognised |
| Engine.ViewIsSelection | src/pages/BuyBikes.jsx:54-84 | a bike is in the view iff it was loaded and every dimension admits it, and it occurs as often as it was loaded |
| Engine.UnsortedViewKeepsLoadedOrder | src/pages/BuyBikes.jsx:53-91 | under a sort value none of the four tests recognise, the view is the selected bikes in their loaded order |
| Engine.EmptySelectionShowsAll | src/pages/BuyBikes.jsx:54-89 | with nothing selected the view is a permutation of the loaded list, and the loaded list itself under an unrecognised key |
| Engine.UnknownTokenEmptiesView | src/pages/BuyBikes.jsx:77-79 | when every token selected in a categorical dimension equals no loaded bike's field, the view is empty |
| Engine.PriceViewsAreReverses | src/pages/BuyBikes.jsx:87-88 | with distinct prices the price_high_low view is the price_low_high view reversed |
| Engine.CheapBandExample | src/pages/BuyBikes.jsx:60-62 | of a 40000 and a 120000 listing, the "<50000" band sorted newest first shows only the first |
| Engine.HighToLowExample | src/pages/BuyBikes.jsx:88 | with nothing selected, price_high_low shows the 120000 listing before the 40000 one |

## Left out

- The HTTP request for the catalogue, its error logging and the environment lookup of `API_URL`: network and configuration I/O. `API_URL` is a parameter of `ResolveImage`.
- The React state and effect plumbing (`useState`, `useEffect`, `setFilteredBikes`, `setAllBikes`) and the UI-only state `openSections`, `toggleSection` and `showFilters`: framework and presentation.
- All rendering, the hard-coded option lists of the controls, the window width check and the price formatting: presentation.
- JavaScript coercions for missing, null or non-string fields (`null < 50000`, `String(undefined)`) and non-integer or NaN prices: fields are modelled as present integers and strings.
- The image field's missing, null and empty cases are one case, the empty string, as all three are falsy.
- Sorting.SortInPlace: does not state stability. Stability comes from the runtime's `Array.prototype.sort`, not from the page. The runtime's sort algorithm is modelled by an insertion sort, so only its contract carries over.
- The checkboxes are uncontrolled (no `checked` property) and unmount when their section collapses. After the section reopens, a box can show clear while its token is still in the list. Checking and then unchecking that box then drops the token entirely. The model's `checked` flag is the event's value; it does not track what a box displays.
- Selection.FilterSelection.Change: the checked branch pushes into the array that the previous state object shares with the new one (a shallow copy). The model appends to a new list value, so that aliasing of the previous state is not captured.
