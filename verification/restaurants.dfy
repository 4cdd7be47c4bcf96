/**
 The restaurant record (Restaurant.js) and the values it is built from.

 Ratings are integer numbers of tenths: the widget only ever stores ratings with
 one decimal, so 3.9 stars is the value 39 here.
 */
module Restaurants {
  import opened Options

  /** A latitude or longitude as reported by the map; the model only compares two of them for equality. */
  type Coord(==, !new)

  /** A rating in tenths of a star. */
  type Tenths = nat

  datatype Review = Review(rating: Tenths, text: string)

  /**
   A restaurant record. `userRatingsTotal` is `user_ratings_total`, a property the
   constructor never sets: `None` stands for a missing (or NaN) count.
   */
  datatype Restaurant = Restaurant(
    id: string,
    manuallyAdded: bool,
    latitude: Coord,
    longitude: Coord,
    name: string,
    address: string,
    rating: Tenths,
    reviews: seq<Review>,
    userRatingsTotal: Option<nat>)

  /** The plain object handed to the constructor; `manuallyAdded` may be omitted. */
  datatype RestaurantData = RestaurantData(
    id: string,
    manuallyAdded: Option<bool>,
    latitude: Coord,
    longitude: Coord,
    name: string,
    address: string,
    rating: Tenths,
    reviews: seq<Review>)

  /** `new Restaurant(data)`. */
  function NewRestaurant(data: RestaurantData): (r: Restaurant)
    ensures r.id == data.id && r.name == data.name && r.address == data.address
    ensures r.latitude == data.latitude && r.longitude == data.longitude
    ensures r.rating == data.rating && r.reviews == data.reviews
    ensures r.manuallyAdded <==> data.manuallyAdded == Some(true)
    ensures r.userRatingsTotal.None?
  {
    Restaurant(
      data.id,
      data.manuallyAdded.Some? && data.manuallyAdded.value,
      data.latitude,
      data.longitude,
      data.name,
      data.address,
      data.rating,
      data.reviews,
      None)
  }
}
