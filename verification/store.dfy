/**
 The in-memory restaurant collection of index.js: adding a restaurant by hand,
 the rating-range filter, loading reviews, and the two ways a review is added.
 */
module Store {
  import opened Options
  import opened Restaurants
  import opened Averages
  import Decimal

  // ---------------------------------------------------------------------------
  // Adding a restaurant by hand
  // ---------------------------------------------------------------------------

  /**
   addNewRestaurant: appends a hand-made record at the clicked position. `draw`
   stands for `Math.floor(Math.random() * 100)`; the id is its decimal numeral
   and is not checked against the ids already present.
   */
  function AddNewRestaurant(restaurants: seq<Restaurant>, lat: Coord, lng: Coord,
                            name: string, address: string, draw: nat): (rs: seq<Restaurant>)
    requires draw < 100
    ensures |rs| == |restaurants| + 1
    ensures rs[..|restaurants|] == restaurants
    ensures rs[|restaurants|].manuallyAdded
    ensures rs[|restaurants|].rating == 0 && rs[|restaurants|].reviews == []
    ensures rs[|restaurants|].userRatingsTotal.None?
    ensures rs[|restaurants|].latitude == lat && rs[|restaurants|].longitude == lng
    ensures rs[|restaurants|].name == name && rs[|restaurants|].address == address
    ensures 1 <= |rs[|restaurants|].id| <= 2
    ensures forall i :: 0 <= i < |rs[|restaurants|].id| ==> Decimal.IsDigit(rs[|restaurants|].id[i])
    ensures rs[|restaurants|].id == Decimal.DecimalString(draw)
    ensures Decimal.DecimalValue(rs[|restaurants|].id) == draw
  {
    Decimal.DecimalRoundTrip(draw);
    var data := RestaurantData(Decimal.DecimalString(draw), Some(true), lat, lng, name, address, 0, []);
    restaurants + [NewRestaurant(data)]
  }

  /** Nothing stops a hand-made id from repeating one already in the collection. */
  lemma ManualIdsMayCollide(restaurants: seq<Restaurant>, lat: Coord, lng: Coord,
                            name: string, address: string, draw: nat)
    requires draw < 100
    ensures var once := AddNewRestaurant(restaurants, lat, lng, name, address, draw);
            var twice := AddNewRestaurant(once, lat, lng, name, address, draw);
            twice[|restaurants|].id == twice[|restaurants| + 1].id
  {
    var once := AddNewRestaurant(restaurants, lat, lng, name, address, draw);
    var twice := AddNewRestaurant(once, lat, lng, name, address, draw);
    Decimal.DecimalStringInjective(Decimal.DecimalValue(twice[|restaurants|].id), draw);
    assert twice[|restaurants|] == once[|restaurants|];
  }

  // ---------------------------------------------------------------------------
  // Rating-range filter
  // ---------------------------------------------------------------------------

  /** The message shown when the bounds are the wrong way round. */
  const InvalidRangeMessage: string :=
    "Requête invalide. La note maximale doit être supérieure à la note minimale."

  /** What the filter writes outside its result: the error paragraph and the `filter` flag. */
  datatype FilterView = FilterView(errorMessage: string, filtered: bool)

  datatype FilterOutcome = FilterOutcome(restaurants: seq<Restaurant>, view: FilterView)

  predicate InRange(r: Restaurant, lo: int, hi: int)
  {
    lo <= r.rating <= hi
  }

  /** a is b with some elements left out, the rest in their original order. */
  ghost predicate IsSubsequence<T>(a: seq<T>, b: seq<T>)
    decreases |b|
  {
    |a| == 0
    || (|b| > 0 && ((a[0] == b[0] && IsSubsequence(a[1..], b[1..])) || IsSubsequence(a, b[1..])))
  }

  /** The restaurants rated within lo..hi, each as often as in rs, in their order in rs. */
  function KeepInRange(rs: seq<Restaurant>, lo: int, hi: int): (kept: seq<Restaurant>)
    ensures forall x :: multiset(kept)[x] == if InRange(x, lo, hi) then multiset(rs)[x] else 0
    ensures IsSubsequence(kept, rs)
  {
    if |rs| == 0 then []
    else
      assert rs == [rs[0]] + rs[1..];
      var rest := KeepInRange(rs[1..], lo, hi);
      if InRange(rs[0], lo, hi) then
        assert ([rs[0]] + rest)[1..] == rest;
        [rs[0]] + rest
      else
        rest
  }

  /** The lower bound in tenths when the field is left empty (1 star). */
  const DefaultMin: int := 10
  /** The upper bound in tenths when the field is left empty (5 stars). */
  const DefaultMax: int := 50

  /**
   filterRestaurants: bounds in tenths, `None` for an empty form field. An inverted
   range reports an error and yields nothing; otherwise the in-range restaurants.
   */
  function FilterRestaurants(minValue: Option<int>, maxValue: Option<int>,
                             restaurants: seq<Restaurant>, view: FilterView): (out: FilterOutcome)
    ensures var lo := if minValue.Some? then minValue.value else DefaultMin;
            var hi := if maxValue.Some? then maxValue.value else DefaultMax;
            && (lo > hi ==> out.restaurants == []
                            && out.view == FilterView(InvalidRangeMessage, view.filtered))
            && (lo <= hi ==> out.view == FilterView("", true)
                             && IsSubsequence(out.restaurants, restaurants)
                             && forall x :: multiset(out.restaurants)[x] ==
                                  if InRange(x, lo, hi) then multiset(restaurants)[x] else 0)
  {
    var cleared := view.(errorMessage := "");
    var lo := match minValue case None => DefaultMin case Some(v) => v;
    var hi := match maxValue case None => DefaultMax case Some(v) => v;
    if lo > hi then
      FilterOutcome([], cleared.(errorMessage := InvalidRangeMessage))
    else
      FilterOutcome(KeepInRange(restaurants, lo, hi), cleared.(filtered := true))
  }

  /** With both fields empty, a restaurant nobody has rated (rating 0) is never listed. */
  lemma DefaultBoundsExcludeUnrated(restaurants: seq<Restaurant>, view: FilterView, r: Restaurant)
    requires r.rating == 0
    ensures r !in FilterRestaurants(None, None, restaurants, view).restaurants
  {
    var out := FilterRestaurants(None, None, restaurants, view).restaurants;
    assert multiset(out)[r] == 0;
  }

  /** Bounds 2 and 4 over ratings 1, 3, 4.5 and 2 keep the 3 and the 2, in that order; 4 and 2 keep nothing. */
  lemma FilterExample(lat: Coord, lng: Coord, view: FilterView)
    ensures var rs := seq(4, i requires 0 <= i < 4 =>
                        Restaurant("r", false, lat, lng, "", "", [10, 30, 45, 20][i], [], None));
            && FilterRestaurants(Some(20), Some(40), rs, view).restaurants == [rs[1], rs[3]]
            && FilterRestaurants(Some(40), Some(20), rs, view).restaurants == []
            && FilterRestaurants(Some(40), Some(20), rs, view).view.errorMessage == InvalidRangeMessage
  {
    var rs := seq(4, i requires 0 <= i < 4 =>
                Restaurant("r", false, lat, lng, "", "", [10, 30, 45, 20][i], [], None));
    assert rs[3..][1..] == [];
    assert KeepInRange(rs[3..], 20, 40) == [rs[3]];
    assert rs[2..][1..] == rs[3..];
    assert KeepInRange(rs[2..], 20, 40) == [rs[3]];
    assert rs[1..][1..] == rs[2..];
    assert KeepInRange(rs[1..], 20, 40) == [rs[1], rs[3]];
  }

  /** Membership form of the filter: listed exactly when present and within the bounds. */
  lemma FilterMembership(lo: int, hi: int, restaurants: seq<Restaurant>, view: FilterView, r: Restaurant)
    requires lo <= hi
    ensures r in FilterRestaurants(Some(lo), Some(hi), restaurants, view).restaurants
            <==> r in restaurants && lo <= r.rating <= hi
  {
    var out := FilterRestaurants(Some(lo), Some(hi), restaurants, view).restaurants;
    assert r in out <==> multiset(out)[r] > 0;
    assert r in restaurants <==> multiset(restaurants)[r] > 0;
  }

  // ---------------------------------------------------------------------------
  // Loading reviews (setRestaurantReviews after its fetch)
  // ---------------------------------------------------------------------------

  /** The `result` object of a place-details answer; either field may be absent. */
  datatype PlaceDetails = PlaceDetails(reviews: Option<seq<Review>>, userRatingsTotal: Option<nat>)

  /** The fetch as the code sees it: a non-ok answer, or an ok answer with or without `result`. */
  datatype DetailsResponse = NotOk | Ok(result: Option<PlaceDetails>)

  predicate HasReviews(response: DetailsResponse)
  {
    response.Ok? && response.result.Some? && response.result.value.reviews.Some?
  }

  /**
   setRestaurantReviews: a record that already has reviews is left alone; otherwise
   reviews and count come from the answer, or are reset to none and zero.
   */
  function SetRestaurantReviews(r: Restaurant, response: DetailsResponse): (r': Restaurant)
    ensures |r.reviews| > 0 ==> r' == r
    ensures |r.reviews| == 0 && HasReviews(response) ==>
      r'.reviews == response.result.value.reviews.value
      && r'.userRatingsTotal == response.result.value.userRatingsTotal
    ensures |r.reviews| == 0 && !HasReviews(response) ==>
      r'.reviews == [] && r'.userRatingsTotal == Some(0)
    ensures r'.(reviews := r.reviews, userRatingsTotal := r.userRatingsTotal) == r
  {
    if |r.reviews| > 0 then r
    else match response
      case Ok(Some(PlaceDetails(Some(reviews), total))) =>
        r.(reviews := reviews, userRatingsTotal := total)
      case _ =>
        r.(reviews := [], userRatingsTotal := Some(0))
  }

  /** Loading twice with the same answer is the same as loading once. */
  lemma SetRestaurantReviewsIdempotent(r: Restaurant, response: DetailsResponse)
    ensures SetRestaurantReviews(SetRestaurantReviews(r, response), response)
            == SetRestaurantReviews(r, response)
  {
  }

  // ---------------------------------------------------------------------------
  // Adding a review
  // ---------------------------------------------------------------------------

  /** `count += 1` on a count that may be missing: undefined + 1 is NaN, again no count. */
  function Increment(c: Option<nat>): (c': Option<nat>)
    ensures c'.Some? <==> c.Some?
    ensures c.Some? ==> c'.value == c.value + 1
  {
    match c
    case None => None
    case Some(n) => Some(n + 1)
  }

  /**
   The review step of addRatingToClickedRestaurant (opened from the restaurant
   panel): append, average with the old count, then count the review.
   */
  function AppendReviewFromPanel(r: Restaurant, review: Review): (r': Restaurant)
    ensures r'.reviews == r.reviews + [review]
    ensures r'.rating == WeightedAverage(r.rating, NormalizedCount(r.userRatingsTotal), review.rating)
    ensures r'.userRatingsTotal == Some(NormalizedCount(r.userRatingsTotal) + 1)
    ensures r'.(reviews := r.reviews, rating := r.rating, userRatingsTotal := r.userRatingsTotal) == r
  {
    var pushed := r.(reviews := r.reviews + [review]);
    var averaged := GetAverageNumber(pushed);
    var rated := averaged.record.(rating := averaged.average);
    rated.(userRatingsTotal := Increment(rated.userRatingsTotal))
  }

  /**
   The review step of addRatingToRestaurantFromList, as written: load reviews,
   append, count the review, and only then average, so the old average is
   weighted by one review more than it stands for.
   */
  function AppendReviewFromList(r: Restaurant, review: Review, response: DetailsResponse): (r': Restaurant)
    ensures var loaded := SetRestaurantReviews(r, response);
      && r'.reviews == loaded.reviews + [review]
      && (loaded.userRatingsTotal.Some? ==>
            var t := loaded.userRatingsTotal.value;
            r'.rating == WeightedAverage(r.rating, t + 1, review.rating)
            && r'.userRatingsTotal == Some(t + 1))
      && (loaded.userRatingsTotal.None? ==>
            r'.rating == review.rating && r'.userRatingsTotal == Some(0))
    ensures r'.(reviews := r.reviews, rating := r.rating, userRatingsTotal := r.userRatingsTotal) == r
  {
    var loaded := SetRestaurantReviews(r, response);
    var pushed := loaded.(reviews := loaded.reviews + [review]);
    var counted := pushed.(userRatingsTotal := Increment(pushed.userRatingsTotal));
    var averaged := GetAverageNumber(counted);
    if counted.userRatingsTotal.None? then
      FirstReviewIsExact(counted);
      averaged.record.(rating := averaged.average)
    else
      averaged.record.(rating := averaged.average)
  }

  /**
   The list path with the averaging and the counting in the panel's order: the
   new rating is the weighted average over the reviews counted before this one.
   */
  function AppendReviewFromListCorrected(r: Restaurant, review: Review, response: DetailsResponse): (r': Restaurant)
    ensures var t := NormalizedCount(SetRestaurantReviews(r, response).userRatingsTotal);
      && r'.reviews == SetRestaurantReviews(r, response).reviews + [review]
      && r'.rating == WeightedAverage(r.rating, t, review.rating)
      && r'.userRatingsTotal == Some(t + 1)
    ensures r'.(reviews := r.reviews, rating := r.rating, userRatingsTotal := r.userRatingsTotal) == r
    ensures r' == AppendReviewFromPanel(SetRestaurantReviews(r, response), review)
  {
    var loaded := SetRestaurantReviews(r, response);
    var pushed := loaded.(reviews := loaded.reviews + [review]);
    var averaged := GetAverageNumber(pushed);
    var rated := averaged.record.(rating := averaged.average);
    rated.(userRatingsTotal := Increment(rated.userRatingsTotal))
  }

  /**
   The two paths disagree: an average of 3.0 over one review, plus a 5, becomes
   4.0 from the panel but 3.7 from the list; the corrected list path gives 4.0.
   */
  lemma ListPathOverweightsOldRating(lat: Coord, lng: Coord)
    ensures var r := Restaurant("p", false, lat, lng, "", "", 30, [Review(30, "")], Some(1));
            && AppendReviewFromPanel(r, Review(50, "")).rating == 40
            && AppendReviewFromList(r, Review(50, ""), NotOk).rating == 37
            && AppendReviewFromListCorrected(r, Review(50, ""), NotOk).rating == 40
  {
    var r := Restaurant("p", false, lat, lng, "", "", 30, [Review(30, "")], Some(1));
    RoundHalfUpUnique(80, 2, 40);
    RoundHalfUpUnique(110, 3, 37);
  }

  /**
   A review added from the panel moves the count and the review list by exactly
   one each, so the count stays as far ahead of (or behind) the list as before.
   */
  lemma PanelCountsEachReviewOnce(r: Restaurant, review: Review)
    ensures var r' := AppendReviewFromPanel(r, review);
            && NormalizedCount(r'.userRatingsTotal) == NormalizedCount(r.userRatingsTotal) + 1
            && |r'.reviews| == |r.reviews| + 1
            && NormalizedCount(r'.userRatingsTotal) - |r'.reviews|
               == NormalizedCount(r.userRatingsTotal) - |r.reviews|
  {
  }

  /** A newly constructed record that gets its first review from the panel takes that rating. */
  lemma FreshRecordFirstReview(data: RestaurantData, review: Review)
    ensures var r' := AppendReviewFromPanel(NewRestaurant(data), review);
            r'.rating == review.rating && r'.userRatingsTotal == Some(1)
  {
    RoundHalfUpUnique(review.rating, 1, review.rating);
  }

  /** addRatingToClickedRestaurant on the whole collection: every record with the target id gets the review. */
  function AddRatingToClickedRestaurant(restaurants: seq<Restaurant>, targetId: string, review: Review): (rs: seq<Restaurant>)
    ensures |rs| == |restaurants|
    ensures forall i :: 0 <= i < |rs| && restaurants[i].id != targetId ==> rs[i] == restaurants[i]
    ensures forall i :: 0 <= i < |rs| && restaurants[i].id == targetId ==>
      rs[i] == AppendReviewFromPanel(restaurants[i], review)
  {
    if |restaurants| == 0 then []
    else
      var first := if restaurants[0].id == targetId
                   then AppendReviewFromPanel(restaurants[0], review) else restaurants[0];
      [first] + AddRatingToClickedRestaurant(restaurants[1..], targetId, review)
  }

  /**
   addRatingToRestaurantFromList on the whole collection, `targetId` being the id of
   the list button last clicked; each matching record is loaded with `response`.
   */
  function AddRatingToRestaurantFromList(restaurants: seq<Restaurant>, targetId: string, review: Review,
                                         response: DetailsResponse): (rs: seq<Restaurant>)
    ensures |rs| == |restaurants|
    ensures forall i :: 0 <= i < |rs| && restaurants[i].id != targetId ==> rs[i] == restaurants[i]
    ensures forall i :: 0 <= i < |rs| && restaurants[i].id == targetId ==>
      rs[i] == AppendReviewFromList(restaurants[i], review, response)
  {
    if |restaurants| == 0 then []
    else
      var first := if restaurants[0].id == targetId
                   then AppendReviewFromList(restaurants[0], review, response) else restaurants[0];
      [first] + AddRatingToRestaurantFromList(restaurants[1..], targetId, review, response)
  }
}
