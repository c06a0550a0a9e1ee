/** The explore page: the fetched destination list and its save buttons. */
module ApiPage {
  import opened Wrappers
  import opened Favorites
  import opened TripCard
  import DestinationRoutes
  import NewestFirst

  type Destination = DestinationRoutes.Destination

  /** What `useFetch` left in `data`: a JSON array of destinations, or anything else (null
      before the first response, an object, an error body). */
  datatype FetchedData = DestinationArray(items: seq<Destination>) | NotAnArray

  /** `Array.isArray(data) ? data : []`. */
  function Destinations(data: FetchedData): (ds: seq<Destination>)
    ensures data.DestinationArray? ==> ds == data.items
    ensures data.NotAnArray? ==> ds == []
  {
    match data
    case DestinationArray(items) => items
    case NotAnArray => []
  }

  /** What the explore page lists after `GET /api/destinations`: every stored destination
      (the seeds, when the store was empty) once, newest first; a reply that is not an array
      lists nothing. */
  lemma ExploreListsServerReply(store: seq<Destination>, ids: seq<string>, times: seq<int>)
    requires |ids| == |DestinationRoutes.Seeds| && |times| == |DestinationRoutes.Seeds|
    ensures var shown := Destinations(DestinationArray(DestinationRoutes.ListDestinations(store, ids, times).reply));
            && multiset(shown) == multiset(DestinationRoutes.SeedIfEmpty(store, ids, times))
            && NewestFirst.SortedNewestFirst(shown, DestinationRoutes.CreatedAt)
            && (store == [] ==> |shown| == 12)
    ensures Destinations(NotAnArray) == []
  {
  }

  /** `isFav(id)`. */
  predicate IsFav(favorites: seq<Favorite>, id: string) {
    HasId(favorites, id)
  }

  /** The favourite saved for a destination: its `_id` becomes `id`, the card's four text
      fields are copied, `region` and timestamps are dropped, and there is no author. */
  function ToFavorite(dest: Destination): (f: Favorite)
    ensures f.id == dest.id && f.title == dest.title && f.location == dest.location
    ensures f.description == dest.description && f.imageUrl == dest.imageUrl
    ensures f.authorName.None?
  {
    Favorite(dest.id, dest.title, dest.location, dest.description, dest.imageUrl, None)
  }

  /** `toggleFav(dest)`: the action dispatched. */
  function ToggleFav(favorites: seq<Favorite>, dest: Destination): (a: Action)
    ensures a.Remove? <==> IsFav(favorites, dest.id)
    ensures a.Remove? ==> a.id == dest.id
    ensures a.Add? ==> a.payload == ToFavorite(dest)
  {
    if IsFav(favorites, dest.id) then Remove(dest.id) else Add(ToFavorite(dest))
  }

  /** Toggling flips the saved state, and toggling twice from unsaved gives back the list. */
  lemma ToggleTwiceRestores(s: FavoritesState, dest: Destination, t1: int, t2: int)
    ensures var first := Dispatch(s, ToggleFav(s.items, dest), t1).state;
            IsFav(first.items, dest.id) != IsFav(s.items, dest.id)
    ensures !IsFav(s.items, dest.id) ==>
              var first := Dispatch(s, ToggleFav(s.items, dest), t1).state;
              Dispatch(first, ToggleFav(first.items, dest), t2).state.items == s.items
  {
    if !IsFav(s.items, dest.id) {
      var first := AddFavorite(s, ToFavorite(dest), t1).state;
      assert first.items[|s.items|] == ToFavorite(dest);
      AddThenRemove(s, ToFavorite(dest), t1, t2);
    } else {
      assert !HasId(Without(s.items, dest.id), dest.id);
    }
  }

  /** A destination saved here and shown on a trip card is recognised as saved there. */
  lemma SavedDestinationIsFavoriteCard(s: FavoritesState, dest: Destination, now: int)
    requires !IsFav(s.items, dest.id)
    ensures var after := Dispatch(s, ToggleFav(s.items, dest), now).state;
            IsFavorite(after.items, ToFavorite(dest))
  {
    var after := AddFavorite(s, ToFavorite(dest), now).state;
    assert after.items[|s.items|] == ToFavorite(dest);
  }
}
