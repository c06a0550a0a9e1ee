/** The trip card: the favourite toggle, the edit link and the image source resolution. */
module TripCard {
  import opened Wrappers
  import opened JsText
  import opened Favorites

  const FallbackImage: string :=
    "https://" + "images.unsplash.com/photo-1500530855697-b586d89ba3ee" + "?auto=format&fit=crop&w=1200&q=60"
  const ApiOrigin: string := "http://localhost:5000"
  const EditPrefix: string := "/edit-story/"

  /** The reducer action a button dispatches. */
  datatype Action = Add(payload: Favorite) | Remove(id: string)

  /** Runs an action through the favourites reducer. */
  function Dispatch(s: FavoritesState, a: Action, now: int): Step {
    match a
    case Add(payload) => AddFavorite(s, payload, now)
    case Remove(id) => RemoveFavorite(s, id, now)
  }

  /** `favorites.some(item => item.id === trip.id)`. */
  predicate IsFavorite(favorites: seq<Favorite>, trip: Favorite) {
    HasId(favorites, trip.id)
  }

  /** `handleFavoriteClick`: remove a saved trip by id, otherwise add the trip itself. */
  function FavoriteClick(favorites: seq<Favorite>, trip: Favorite): (a: Action)
    ensures a.Remove? <==> IsFavorite(favorites, trip)
    ensures a.Remove? ==> a.id == trip.id
    ensures a.Add? ==> a.payload == trip
  {
    if IsFavorite(favorites, trip) then Remove(trip.id) else Add(trip)
  }

  /** One click flips whether the trip is saved, and a second click restores the list. */
  lemma ClickTwiceRestores(s: FavoritesState, trip: Favorite, t1: int, t2: int)
    ensures var first := Dispatch(s, FavoriteClick(s.items, trip), t1).state;
            IsFavorite(first.items, trip) != IsFavorite(s.items, trip)
    ensures !IsFavorite(s.items, trip) ==>
              var first := Dispatch(s, FavoriteClick(s.items, trip), t1).state;
              Dispatch(first, FavoriteClick(first.items, trip), t2).state.items == s.items
  {
    if !IsFavorite(s.items, trip) {
      var first := AddFavorite(s, trip, t1).state;
      assert first.items[|s.items|] == trip;
      AddThenRemove(s, trip, t1, t2);
    }
  }

  /** `imgSrc`: the fallback for an absent or empty URL, an `http…` URL as it is, anything
      else (a server upload path) prefixed with the API origin. */
  function ImageSource(imageUrl: Option<string>): (src: string)
    ensures Falsy(imageUrl) ==> src == FallbackImage
    ensures !Falsy(imageUrl) && StartsWith(imageUrl.value, "http") ==> src == imageUrl.value
    ensures !Falsy(imageUrl) && !StartsWith(imageUrl.value, "http") ==> src == ApiOrigin + imageUrl.value
    ensures StartsWith(src, "http")
  {
    if Falsy(imageUrl) then
      assert FallbackImage[..4] == "https://"[..4];
      FallbackImage
    else if StartsWith(imageUrl.value, "http") then imageUrl.value
    else
      assert (ApiOrigin + imageUrl.value)[..4] == ApiOrigin[..4];
      ApiOrigin + imageUrl.value
  }

  /** A stored story's upload path resolves to that file on the API server, and a seeded
      destination's absolute image address is used as it is. */
  lemma ImageSourceOfStoredUrls(filename: string, absolute: string)
    requires StartsWith(absolute, "https://")
    ensures ImageSource(Some("/uploads/" + filename)) == ApiOrigin + "/uploads/" + filename
    ensures ImageSource(Some(absolute)) == absolute
  {
    assert ("/uploads/" + filename)[0] == '/';
    assert absolute[..4] == "https://"[..4];
  }

  /** `handleEdit`'s target. */
  function EditPath(trip: Favorite): (path: string)
    ensures StartsWith(path, EditPrefix)
  {
    EditPrefix + trip.id
  }

  /** The `:id` parameter of the `/edit-story/:id` route: one non-empty path segment. */
  function EditRouteParam(path: string): (id: Option<string>)
    ensures id.Some? ==> path == EditPrefix + id.value && id.value != [] && '/' !in id.value
  {
    if StartsWith(path, EditPrefix) && |path| > |EditPrefix| && '/' !in path[|EditPrefix|..] then
      assert path == path[..|EditPrefix|] + path[|EditPrefix|..];
      Some(path[|EditPrefix|..])
    else None
  }

  /** The edit route receives exactly the card's id, for any id that is one path segment. */
  lemma EditRouteRoundTrip(trip: Favorite)
    requires trip.id != [] && '/' !in trip.id
    ensures EditRouteParam(EditPath(trip)) == Some(trip.id)
  {
    assert (EditPrefix + trip.id)[..|EditPrefix|] == EditPrefix;
    assert (EditPrefix + trip.id)[|EditPrefix|..] == trip.id;
  }
}
