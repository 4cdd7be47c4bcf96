/** The two pieces of displayFunctions.js that compute rather than draw. */
module Display {
  import opened Restaurants

  // ---------------------------------------------------------------------------
  // Star glyphs
  // ---------------------------------------------------------------------------

  /** One star icon: filled, half-filled or empty. */
  datatype Glyph = Full | Half | Empty

  /** The order the glyphs are emitted in. */
  function Rank(g: Glyph): nat
  {
    match g
    case Full => 0
    case Half => 1
    case Empty => 2
  }

  /** Filled, then half, then empty glyphs: never a glyph of lower rank after one of higher rank. */
  ghost predicate Ordered(s: seq<Glyph>)
  {
    forall i, j :: 0 <= i < j < |s| ==> Rank(s[i]) <= Rank(s[j])
  }

  /**
   `Math.round(rating * 2)` for a rating of t tenths: the rating in half stars,
   rounded to the nearest. A one-decimal rating is never exactly between two halves.
   */
  function HalfStars(t: Tenths): (k: nat)
    ensures 10 * k - 5 < 2 * t < 10 * k + 5
  {
    (2 * t + 5) / 10
  }

  function Repeat(g: Glyph, n: nat): (s: seq<Glyph>)
    ensures |s| == n
  {
    if n == 0 then [] else Repeat(g, n - 1) + [g]
  }

  lemma {:induction false} RepeatAt(g: Glyph, n: nat, i: nat)
    requires i < n
    ensures Repeat(g, n)[i] == g
  {
    if i < n - 1 {
      RepeatAt(g, n - 1, i);
    }
  }

  lemma {:induction false} RepeatCount(g: Glyph, n: nat, h: Glyph)
    ensures multiset(Repeat(g, n))[h] == if h == g then n else 0
  {
    if n > 0 {
      RepeatCount(g, n - 1, h);
      assert Repeat(g, n) == Repeat(g, n - 1) + [g];
    }
  }

  /** The row of glyphs: `full` filled, an optional half, then `empty` empty ones. */
  function StarRow(full: nat, half: bool, empty: nat): seq<Glyph>
  {
    Repeat(Full, full) + (if half then [Half] else []) + Repeat(Empty, empty)
  }

  lemma StarRowShape(full: nat, half: bool, empty: nat)
    ensures var s := StarRow(full, half, empty);
            && |s| == full + (if half then 1 else 0) + empty
            && multiset(s)[Full] == full
            && multiset(s)[Half] == (if half then 1 else 0)
            && multiset(s)[Empty] == empty
            && Ordered(s)
  {
    var s := StarRow(full, half, empty);
    var h := if half then 1 else 0;
    RepeatCount(Full, full, Full);
    RepeatCount(Full, full, Half);
    RepeatCount(Full, full, Empty);
    RepeatCount(Empty, empty, Full);
    RepeatCount(Empty, empty, Half);
    RepeatCount(Empty, empty, Empty);
    forall i | 0 <= i < |s|
      ensures Rank(s[i]) == (if i < full then 0 else if i < full + h then 1 else 2)
    {
      if i < full {
        RepeatAt(Full, full, i);
      } else if i >= full + h {
        RepeatAt(Empty, empty, i - full - h);
      }
    }
  }

  /**
   getStars: nothing for a rating of exactly 0; otherwise the rating rounded to the
   nearest half star, drawn as filled stars, at most one half star, then empty
   stars up to five.
   */
  method GetStars(rating: Tenths) returns (stars: seq<Glyph>)
    ensures rating == 0 ==> stars == []
    ensures rating > 0 ==> multiset(stars)[Full] == HalfStars(rating) / 2
    ensures rating > 0 ==> multiset(stars)[Half] == HalfStars(rating) % 2
    ensures rating > 0 ==>
      (multiset(stars)[Empty] == if HalfStars(rating) <= 10 then (10 - HalfStars(rating)) / 2 else 0)
    ensures Ordered(stars)
    ensures 0 < rating <= 50 ==> |stars| == 5
  {
    if rating == 0 {
      return [];
    }
    var k := HalfStars(rating);
    stars := [];
    // the source counts i down one star at a time; here i counts half stars
    var i: int := k;
    var full: nat := 0;
    while i >= 2
      invariant 0 <= i && i == k - 2 * full
      invariant stars == Repeat(Full, full)
    {
      stars := stars + [Full];
      full := full + 1;
      i := i - 2;
    }
    var half := i == 1;
    if half {
      stars := stars + [Half];
    }
    var j: int := 10 - k;
    var empty: nat := 0;
    while j >= 2
      invariant j == 10 - k - 2 * empty
      invariant empty > 0 ==> j >= 0
      invariant stars == StarRow(full, half, empty)
    {
      assert StarRow(full, half, empty + 1) == StarRow(full, half, empty) + [Empty];
      stars := stars + [Empty];
      empty := empty + 1;
      j := j - 2;
    }
    StarCounts(rating, full, i, empty, j);
    StarRowShape(full, half, empty);
  }

  /** The counts the two loops of GetStars leave behind are the ones its contract names. */
  lemma StarCounts(rating: Tenths, full: nat, i: int, empty: nat, j: int)
    requires rating > 0
    requires HalfStars(rating) == 2 * full + i && 0 <= i < 2
    requires j == 10 - HalfStars(rating) - 2 * empty && j < 2 && (empty > 0 ==> j >= 0)
    ensures full == HalfStars(rating) / 2
    ensures i == HalfStars(rating) % 2
    ensures empty == if HalfStars(rating) <= 10 then (10 - HalfStars(rating)) / 2 else 0
    ensures rating <= 50 ==> full + i + empty == 5
  {
    var k := HalfStars(rating);
    Halve(k, full, i);
    if k <= 10 {
      Halve(10 - k, empty, j);
    }
  }

  lemma Halve(n: int, q: int, r: int)
    requires n == 2 * q + r && 0 <= r < 2
    ensures q == n / 2 && r == n % 2
  {
  }

  // ---------------------------------------------------------------------------
  // Restaurants on screen
  // ---------------------------------------------------------------------------

  /** A marker's position on the map. */
  datatype Position = Position(lat: Coord, lng: Coord)

  /** The restaurant sits exactly where the marker is. */
  predicate At(r: Restaurant, p: Position)
  {
    r.latitude == p.lat && r.longitude == p.lng
  }

  /** The restaurants at position p, in collection order. */
  function AtPosition(restaurants: seq<Restaurant>, p: Position): seq<Restaurant>
  {
    if |restaurants| == 0 then []
    else
      var last := restaurants[|restaurants| - 1];
      AtPosition(restaurants[..|restaurants| - 1], p) + (if At(last, p) then [last] else [])
  }

  /** Reference selection: for each visible marker in turn, the restaurants at its position. */
  function OnScreen(markers: seq<Position>, visible: Position -> bool, restaurants: seq<Restaurant>): seq<Restaurant>
  {
    if |markers| == 0 then []
    else
      var last := markers[|markers| - 1];
      OnScreen(markers[..|markers| - 1], visible, restaurants)
        + (if visible(last) then AtPosition(restaurants, last) else [])
  }

  /** How many visible markers sit exactly at restaurant r. */
  function VisibleMatches(markers: seq<Position>, visible: Position -> bool, r: Restaurant): nat
  {
    if |markers| == 0 then 0
    else
      var last := markers[|markers| - 1];
      VisibleMatches(markers[..|markers| - 1], visible, r) + (if visible(last) && At(r, last) then 1 else 0)
  }

  lemma {:induction false} AtPositionCount(restaurants: seq<Restaurant>, p: Position, r: Restaurant)
    ensures multiset(AtPosition(restaurants, p))[r] == if At(r, p) then multiset(restaurants)[r] else 0
  {
    if |restaurants| > 0 {
      var init := restaurants[..|restaurants| - 1];
      AtPositionCount(init, p, r);
      assert restaurants == init + [restaurants[|restaurants| - 1]];
    }
  }

  /** A restaurant appears once per visible marker at its position, per copy in the collection. */
  lemma {:induction false} OnScreenCount(markers: seq<Position>, visible: Position -> bool,
                                        restaurants: seq<Restaurant>, r: Restaurant)
    ensures multiset(OnScreen(markers, visible, restaurants))[r]
            == VisibleMatches(markers, visible, r) * multiset(restaurants)[r]
  {
    if |markers| > 0 {
      var init := markers[..|markers| - 1];
      var last := markers[|markers| - 1];
      var c := multiset(restaurants)[r];
      var v := VisibleMatches(init, visible, r);
      var extra := if visible(last) then AtPosition(restaurants, last) else [];
      OnScreenCount(init, visible, restaurants, r);
      AtPositionCount(restaurants, last, r);
      assert multiset(OnScreen(markers, visible, restaurants))[r]
          == v * c + multiset(extra)[r];
      if visible(last) && At(r, last) {
        assert multiset(extra)[r] == c;
        assert VisibleMatches(markers, visible, r) == v + 1;
        MulSucc(v, c);
      } else {
        assert multiset(extra)[r] == 0;
        assert VisibleMatches(markers, visible, r) == v;
      }
    }
  }

  lemma MulSucc(v: nat, c: nat)
    ensures (v + 1) * c == v * c + c
  {
  }

  lemma {:induction false} VisibleMatchesPositive(markers: seq<Position>, visible: Position -> bool, r: Restaurant)
    ensures VisibleMatches(markers, visible, r) > 0
            <==> exists m :: 0 <= m < |markers| && visible(markers[m]) && At(r, markers[m])
  {
    if |markers| > 0 {
      var init := markers[..|markers| - 1];
      VisibleMatchesPositive(init, visible, r);
      if VisibleMatches(init, visible, r) > 0 {
        var m :| 0 <= m < |init| && visible(init[m]) && At(r, init[m]);
        assert markers[m] == init[m];
      }
      if exists m :: 0 <= m < |markers| && visible(markers[m]) && At(r, markers[m]) {
        var m :| 0 <= m < |markers| && visible(markers[m]) && At(r, markers[m]);
        if m < |init| {
          assert init[m] == markers[m];
        }
      }
    }
  }

  /**
   getRestaurantsOnScreen: starting from an empty list, for each marker the map
   shows, every restaurant whose coordinates equal the marker's position.
   `visible` stands for the map bounds' `contains` test.
   */
  method GetRestaurantsOnScreen(markers: seq<Position>, visible: Position -> bool,
                                restaurants: seq<Restaurant>) returns (onScreen: seq<Restaurant>)
    ensures onScreen == OnScreen(markers, visible, restaurants)
    ensures forall r :: r in onScreen <==>
      r in restaurants && exists m :: 0 <= m < |markers| && visible(markers[m]) && At(r, markers[m])
    ensures forall r :: multiset(onScreen)[r] == VisibleMatches(markers, visible, r) * multiset(restaurants)[r]
  {
    onScreen := [];
    var m := 0;
    while m < |markers|
      invariant 0 <= m <= |markers|
      invariant onScreen == OnScreen(markers[..m], visible, restaurants)
    {
      var marker := markers[m];
      assert markers[..m + 1][..m] == markers[..m];
      if visible(marker) {
        var before := onScreen;
        var k := 0;
        while k < |restaurants|
          invariant 0 <= k <= |restaurants|
          invariant onScreen == before + AtPosition(restaurants[..k], marker)
        {
          assert restaurants[..k + 1][..k] == restaurants[..k];
          if restaurants[k].latitude == marker.lat && restaurants[k].longitude == marker.lng {
            onScreen := onScreen + [restaurants[k]];
          }
          k := k + 1;
        }
        assert restaurants[..k] == restaurants;
      }
      m := m + 1;
    }
    assert markers[..m] == markers;
    OnScreenMeaning(markers, visible, restaurants);
  }

  /** What the reference selection contains: membership and multiplicity. */
  lemma OnScreenMeaning(markers: seq<Position>, visible: Position -> bool, restaurants: seq<Restaurant>)
    ensures forall r :: r in OnScreen(markers, visible, restaurants) <==>
      r in restaurants && exists m :: 0 <= m < |markers| && visible(markers[m]) && At(r, markers[m])
    ensures forall r ::
      multiset(OnScreen(markers, visible, restaurants))[r] == VisibleMatches(markers, visible, r) * multiset(restaurants)[r]
  {
    var onScreen := OnScreen(markers, visible, restaurants);
    forall r
      ensures multiset(onScreen)[r] == VisibleMatches(markers, visible, r) * multiset(restaurants)[r]
      ensures r in onScreen <==>
        r in restaurants && exists i :: 0 <= i < |markers| && visible(markers[i]) && At(r, markers[i])
    {
      OnScreenCount(markers, visible, restaurants, r);
      VisibleMatchesPositive(markers, visible, r);
      assert r in onScreen <==> multiset(onScreen)[r] > 0;
      assert r in restaurants <==> multiset(restaurants)[r] > 0;
    }
  }
}
