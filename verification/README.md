# Restaurant map widget: ratings and selection

A Dafny model of the in-memory logic of a browser widget that lists nearby
restaurants on a map. Users can add restaurants and reviews there, and the
widget keeps an average rating for each restaurant. The model covers:

- the restaurant record and its constructor (`Restaurant.js`);
- the incremental average rating `getAverageNumber` (`utils.js`);
- in `index.js`: adding a restaurant by hand, the rating-range filter, loading
  reviews after the place-details fetch, and the two ways a review is added
  (from the restaurant panel and from the restaurant list);
- in `displayFunctions.js`: the star-glyph conversion `getStars` and the
  on-screen selection `getRestaurantsOnScreen`.

Representation choices:

- Every rating is a whole number of tenths of a star (3.9 stars is `39`). The
  widget only stores one-decimal ratings, so `toFixed(1)` on one-decimal
  values is modelled as round-half-up of a quotient of naturals, an exact
  half taken upward, and `Math.round(rating * 2)` can
  never meet a tie.
- `user_ratings_total` is `Option<nat>`. The constructor never sets it, so a
  fresh record has `None`. `None` also stands for NaN: `undefined + 1` is NaN,
  which is again falsy.
- Coordinates are an abstract type that supports only equality. A marker is a
  `Position`. The map-bounds test is a predicate parameter.
- `Math.random` becomes an input `draw` in `0..99`.
- The place-details fetch becomes a `DetailsResponse` value: not ok, or ok
  with or without a `result` whose `reviews` and `user_ratings_total` may each
  be absent.
- The ambient flags that say which restaurant receives a review are replaced
  by an explicit target id.
- Records are immutable values: an operation returns the updated record or
  collection.

Modules: `Options` (optional values), `Restaurants` (`Restaurant.js`),
`Averages` (`utils.js`), `Decimal` (the numeral for a drawn id), `Store`
(`index.js`), `Display` (`displayFunctions.js`).

Behaviours of the code that the model keeps, though they are easy to miss:

- Adding a restaurant by hand does not reject a duplicate id
  (`Store.ManualIdsMayCollide`).
- The on-screen selection loops over markers first. Its output is therefore
  grouped by marker, and a restaurant under several visible markers appears
  several times.
- A first review is taken exactly when the stored count is 0
  (`Averages.FirstReviewIsExact`). An empty review list is not the test.
- The list path does not always count each review once. When the loaded count
  is missing, it resets the count to 0 (`Store.AppendReviewFromList`).

## Model

| member | source | states |
|---|---|---|
| Restaurants.NewRestaurant | Restaurant.js:2-11 | id, coordinates, name, address, rating and reviews are copied unchanged; `manuallyAdded` is true exactly when the input gives true; the record has no review count |
| Averages.RoundHalfUp | utils.js:22 | the result is the whole number of tenths within half a tenth of the exact quotient, an exact half rounded up |
| Averages.RoundHalfUpUnique | utils.js:22 | only one whole number lies within that half-tenth window, so the rounding is fully determined |
| Averages.WeightedAverage | utils.js:18-22 | the folded-in average differs from the exact `(rating * count + new) / (count + 1)` by at most half a tenth |
| Averages.GetAverageNumber | utils.js:6-23 | no reviews gives 0 and an untouched record; otherwise the result is the weighted average of the stored rating over the normalised count and the last review's rating, and the only change to the record is a missing count written back as 0 |
| Averages.FirstReviewIsExact | utils.js:12-22 | with a missing or zero count the new average is exactly the last review's rating |
| Averages.AverageStaysInRange | utils.js:18-22 | a stored rating and a last review within 0..5 stars give an average within 0..5 stars |
| Averages.OnlyLastReviewCounts | utils.js:18-20 | two records that agree on rating, count and last review get the same average, whatever their earlier reviews |
| Decimal.DecimalString | index.js:53 | the numeral is non-empty, digits only, without a leading zero, and one or two characters for a number below 100 |
| Decimal.DecimalRoundTrip | index.js:53 | reading the numeral back gives the number |
| Decimal.DecimalStringInjective | index.js:53 | two numbers get the same numeral exactly when they are equal |
| Store.AddNewRestaurant | index.js:48-71 | exactly one record is appended and earlier entries are unchanged; it is hand-made, rated 0, has no reviews and no count, sits at the given coordinates, and its id is the decimal string of the draw (one or two digits, no leading zero) |
| Store.ManualIdsMayCollide | index.js:53-70 | adding twice with the same draw gives two records with the same id; no uniqueness check |
| Store.KeepInRange | index.js:102-104 | each restaurant occurs in the result as often as in the input when its rating is within the bounds and not at all otherwise, in input order |
| Store.FilterRestaurants | index.js:89-109 | an empty bound defaults to 1 or 5 stars; an inverted range gives nothing, sets the error message and leaves the filter flag; otherwise the in-range restaurants in order, the message cleared and the flag set |
| Store.DefaultBoundsExcludeUnrated | index.js:91-96 | under the default bounds an unrated (0) restaurant is never listed |
| Store.FilterMembership | index.js:102-104 | with valid bounds a restaurant is listed exactly when it is in the collection and rated within the bounds |
| Store.FilterExample | index.js:97-104 | bounds 2..4 over ratings 1, 3, 4.5, 2 keep the 3 and the 2 in order; bounds 4..2 keep nothing and report the error |
| Store.SetRestaurantReviews | index.js:205-227 | a record with reviews is unchanged; an answer carrying reviews supplies reviews and count; any other answer sets no reviews and count 0; nothing but reviews and count changes |
| Store.SetRestaurantReviewsIdempotent | index.js:205-227 | loading twice with the same answer equals loading once |
| Store.AppendReviewFromPanel | index.js:127-139 | the review is appended, the rating becomes the weighted average over the old normalised count, the count becomes that count plus one, and nothing else changes |
| Store.AppendReviewFromList | index.js:170-184 | after loading, the review is appended; with a count T the rating is the weighted average over T + 1 and the count is T + 1; with no count the rating is the review's and the count is 0 |
| Store.AppendReviewFromListCorrected | index.js:174-184 | with averaging before counting, the rating is the weighted average over the loaded count and the count grows by one; for every input it equals the panel step applied after the load |
| Store.ListPathOverweightsOldRating | index.js:180-184 | 3.0 over one review plus a 5 gives 4.0 from the panel, 3.7 from the list, and 4.0 from the corrected list path |
| Store.PanelCountsEachReviewOnce | index.js:133-138 | a panel review moves the normalised count and the review list by exactly one each, so their difference is unchanged |
| Store.FreshRecordFirstReview | index.js:133-138 | a newly constructed record given its first review from the panel takes that rating with count 1 |
| Store.AddRatingToClickedRestaurant | index.js:127-140 | every record with the target id gets the panel update, every other record is unchanged, the length is kept |
| Store.AddRatingToRestaurantFromList | index.js:170-195 | every record with the target id gets the list update, every other record is unchanged, the length is kept |
| Display.HalfStars | displayFunctions.js:124 | the rating in half stars is strictly within a quarter star of the rating, so it is the nearest half and never a tie |
| Display.StarRowShape | displayFunctions.js:125-140 | a row has the given numbers of filled, half and empty glyphs, in the order filled, half, empty |
| Display.StarCounts | displayFunctions.js:128-138 | after the two loops: filled = floor of the halved value, a half star exactly when it has a .5 part, empty ones up to five, five glyphs in all for a rating up to 5 |
| Display.GetStars | displayFunctions.js:118-142 | a rating of 0 gives nothing; otherwise floor(h) filled, one half exactly when h has a .5 part, the rest empty, ordered, five in all for 0 < rating <= 5 |
| Display.AtPositionCount | displayFunctions.js:286-290 | the restaurants at a position are those of the collection whose coordinates equal it, with their multiplicity |
| Display.OnScreenCount | displayFunctions.js:278-292 | a restaurant is selected once per visible marker at its position, per copy in the collection |
| Display.VisibleMatchesPositive | displayFunctions.js:281-288 | a restaurant has a visible marker at its position exactly when some marker both is visible and has its coordinates |
| Display.OnScreenMeaning | displayFunctions.js:276-293 | selected exactly when in the collection and exactly under some visible marker, with that multiplicity |
| Display.GetRestaurantsOnScreen | displayFunctions.js:275-294 | starting from nothing, the result is the reference selection (marker order, then collection order) and has the membership and multiplicity above |

## Left out

- Google Maps, Places and Street View: markers, info windows, `nearbySearch` and `StreetViewPanorama` are foreign library calls. `createMarker`, `removeMarkers`, `buildRestaurantMarkers`, `retrieveStreetView`, `addInfoWindow`, `addMarkerListener` and `initMap` are not modelled.
- The HTTP fetch inside `setRestaurantReviews` is a network call. Its answer is an input value.
- Geolocation and its 5-second timeout (`getCurrentLocation`) are asynchronous I/O.
- DOM rendering and event wiring are user interface: `displayRestaurants`, `displayClickedRestaurantInfo`, `showRestaurantsListLoader`, `hideDiv`, `resetForm` and the form listeners. Reading form fields becomes parameters. `getStars` returns glyphs instead of the joined HTML string.
- The TypeError that the panel path raises after its loop when no record matches is left out. It leaves the collection unchanged and stops only the redraw.
- The ambient `clickedButtonId` and `clickedFromClickedRestaurant` flags are left out. The target id is a parameter.
- Floating-point arithmetic is left out, and so are JavaScript's string-to-number coercion of form values and string comparison when both bounds are strings. Ratings and filter bounds are whole tenths.
- Store.FilterRestaurants: bounds are whole tenths, so the string comparison of two non-empty form fields (`"10" < "9"`) is not modelled.
- Averages.GetAverageNumber: the tie-breaking of `toFixed` on binary floating-point values is not modelled. Ties round up, and the result is within half a tenth of the exact quotient.
- A rating that the places service leaves undefined is not modelled, because every record carries a rating here. In JavaScript that rating turns the average into NaN.
- Display.GetRestaurantsOnScreen: coordinate equality is exact equality of abstract values. The NaN and signed-zero cases of JavaScript `===` are not modelled.
- Store.SetRestaurantReviews: a fetch that rejects, or a body that cannot be read as JSON, is not modelled. Neither `await` at index.js:211-214 is inside a try, so `setRestaurantReviews` rejects and leaves the record as it was. `DetailsResponse` only covers answers that arrive: not ok, or ok with or without the fields. The load is also modelled as uninterrupted. A marker-click load (index.js:265) that resolves after a review was added still writes reviews and count at index.js:217-218, so that review is lost; the model does not capture this.
- Store.AddRatingToRestaurantFromList: every matching record is loaded with one shared `response`, but the code fetches once per matching record (index.js:170-174), and those answers may differ. A rejected fetch is also not modelled: the code then throws at index.js:174, before the push at index.js:180. That review is lost, and later matching records are left unprocessed. The call is also modelled as one uninterrupted step. In the code, the loop variable `restaurant` (index.js:170) is an undeclared global, which the loops at index.js:127 and displayFunctions.js:254 also assign. While the fetch at index.js:174 is pending, another handler can reassign it: a second list submission (index.js:501 does not await), a panel review, or `buildRestaurantMarkers` (index.js:411, 473). The push, increment and average at index.js:180-184 then fall on that other record, so "every other record is unchanged" need not hold for the program.
- The `visibleRestaurants` global is returned as a fresh sequence instead of being reset and filled in place.

## Findings

| source | as written | input that shows it | evidently intended | confidence | as-written member | corrected member |
|---|---|---|---|---|---|---|
| index.js:180-184 | the list path increments `user_ratings_total` before calling `getAverageNumber`, so the old average is weighted by T + 1 reviews and the sum divided by T + 2 | average 3.0 over 1 review, new review 5: the list path stores 3.7 where the panel path stores 4.0 | average with the old count, then increment, as the panel path (index.js:133-138) and the worked example at utils.js:16-22 do | high; not executed | Store.AppendReviewFromList, Store.ListPathOverweightsOldRating | Store.AppendReviewFromListCorrected |

`Store.AddRatingToRestaurantFromList` keeps the as-written list path, so the
collection-level model still shows what the widget actually does.
