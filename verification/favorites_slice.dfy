/** The client's favourites slice: an ordered list of saved items, unique by id, persisted
    to local storage by every action that changes it. */
module Favorites {
  import opened Wrappers

  /** A saved item. Trip cards save their whole `trip` object, which carries `authorName`
      when it was built from a story; the explore pages save a projection without it. */
  datatype Favorite = Favorite(id: string, title: string, location: string, description: string,
                               imageUrl: string, authorName: Option<string>)

  /** The slice state. `lastUpdated` is `null` until the first action. */
  datatype FavoritesState = FavoritesState(items: seq<Favorite>, lastUpdated: Option<int>)

  /** One reducer step: the new state, and the list handed to `saveToStorage` if the
      action persisted. */
  datatype Step = Step(state: FavoritesState, saved: Option<seq<Favorite>>)

  /** Some item has the id (`items.find(x => x.id === id)` / `items.some(...)`). */
  predicate HasId(items: seq<Favorite>, id: string) {
    exists i :: 0 <= i < |items| && items[i].id == id
  }

  /** The slice's invariant: no two items share an id. */
  predicate UniqueIds(items: seq<Favorite>) {
    forall i, j :: 0 <= i < j < |items| ==> items[i].id != items[j].id
  }

  /** `addFavorite`: append the payload when its id is new, and persist; leave the list
      alone, without persisting, when it is already there. The timestamp is set either way. */
  function AddFavorite(s: FavoritesState, payload: Favorite, now: int): (r: Step)
    ensures r.state.lastUpdated == Some(now)
    ensures !HasId(s.items, payload.id) ==>
              r.state.items == s.items + [payload] && r.saved == Some(r.state.items)
    ensures HasId(s.items, payload.id) ==> r.state.items == s.items && r.saved.None?
    ensures UniqueIds(s.items) ==> UniqueIds(r.state.items)
  {
    if HasId(s.items, payload.id) then Step(s.(lastUpdated := Some(now)), None)
    else
      var items := s.items + [payload];
      assert forall i :: 0 <= i < |s.items| ==> items[i] == s.items[i];
      Step(FavoritesState(items, Some(now)), Some(items))
  }

  /** `items.filter(x => x.id !== id)`. */
  function Without(items: seq<Favorite>, id: string): (r: seq<Favorite>)
    ensures |r| <= |items|
    ensures forall f :: f in r <==> f in items && f.id != id
    ensures !HasId(r, id)
  {
    if items == [] then []
    else if items[0].id == id then Without(items[1..], id)
    else [items[0]] + Without(items[1..], id)
  }

  /** Filtering decides item by item and keeps the survivors in their order: filtering a
      concatenation concatenates the filtered parts. */
  lemma {:induction false} WithoutDistributes(a: seq<Favorite>, b: seq<Favorite>, id: string)
    ensures Without(a + b, id) == Without(a, id) + Without(b, id)
  {
    if a == [] {
      assert a + b == b;
    } else {
      assert (a + b)[1..] == a[1..] + b;
      WithoutDistributes(a[1..], b, id);
    }
  }

  /** Filtering out an absent id changes nothing. */
  lemma {:induction false} WithoutAbsent(items: seq<Favorite>, id: string)
    ensures !HasId(items, id) ==> Without(items, id) == items
  {
    if items != [] && !HasId(items, id) {
      assert !HasId(items[1..], id) by {
        forall i | 0 <= i < |items[1..]| ensures items[1..][i].id != id {
          assert items[1..][i] == items[i + 1];
        }
      }
      WithoutAbsent(items[1..], id);
      assert items == [items[0]] + items[1..];
    }
  }

  /** Filtering keeps ids unique. */
  lemma {:induction false} WithoutUnique(items: seq<Favorite>, id: string)
    ensures UniqueIds(items) ==> UniqueIds(Without(items, id))
  {
    if items != [] && UniqueIds(items) {
      assert UniqueIds(items[1..]);
      WithoutUnique(items[1..], id);
      var rest := Without(items[1..], id);
      if items[0].id != id {
        forall f | f in rest ensures f.id != items[0].id {
          assert f in items[1..];
          var k :| 0 <= k < |items[1..]| && items[1..][k] == f;
          assert items[k + 1] == f;
        }
        var r := [items[0]] + rest;
        forall i, j | 0 <= i < j < |r| ensures r[i].id != r[j].id {
          if i == 0 { assert r[j] in rest; }
          else { assert r[i] == rest[i - 1] && r[j] == rest[j - 1]; }
        }
      }
    }
  }

  /** `removeFavorite`: drop every item with the id, keep the others in order, persist. */
  function RemoveFavorite(s: FavoritesState, id: string, now: int): (r: Step)
    ensures r.state.lastUpdated == Some(now)
    ensures r.state.items == Without(s.items, id)
    ensures r.saved == Some(r.state.items)
    ensures !HasId(s.items, id) ==> r.state.items == s.items
    ensures UniqueIds(s.items) ==> UniqueIds(r.state.items)
  {
    WithoutAbsent(s.items, id);
    WithoutUnique(s.items, id);
    Step(FavoritesState(Without(s.items, id), Some(now)), Some(Without(s.items, id)))
  }

  /** `clearFavorites`: the empty list, persisted. */
  function ClearFavorites(s: FavoritesState, now: int): (r: Step)
    ensures r.state == FavoritesState([], Some(now))
    ensures r.saved == Some([])
  {
    Step(FavoritesState([], Some(now)), Some([]))
  }

  /** Adding an item whose id is new and then removing that id gives back the list as it
      was, with every action persisting what it produced. */
  lemma AddThenRemove(s: FavoritesState, payload: Favorite, t1: int, t2: int)
    requires !HasId(s.items, payload.id)
    ensures var added := AddFavorite(s, payload, t1);
            var removed := RemoveFavorite(added.state, payload.id, t2);
            && removed.state.items == s.items
            && removed.saved == Some(s.items)
  {
    WithoutAbsent(s.items, payload.id);
    WithoutAppend(s.items, payload);
  }

  /** Filtering the appended item out of a list that lacked its id. */
  lemma {:induction false} WithoutAppend(items: seq<Favorite>, payload: Favorite)
    ensures Without(items + [payload], payload.id) == Without(items, payload.id)
  {
    if items == [] {
      assert [payload][1..] == [];
    } else {
      assert (items + [payload])[1..] == items[1..] + [payload];
      WithoutAppend(items[1..], payload);
    }
  }

  /** `loadFromStorage`: the saved list, or `[]` when nothing (or an empty string) is saved
      or when parsing fails. `parse` stands for `JSON.parse`. */
  function LoadFromStorage(saved: Option<string>, parse: string -> Option<seq<Favorite>>): (r: seq<Favorite>)
    ensures Falsy(saved) ==> r == []
    ensures !Falsy(saved) && parse(saved.value).None? ==> r == []
    ensures !Falsy(saved) && parse(saved.value).Some? ==> r == parse(saved.value).value
  {
    if Falsy(saved) then []
    else match parse(saved.value)
      case None => []
      case Some(items) => items
  }

  /** The state the store starts with. */
  function InitialState(saved: Option<string>, parse: string -> Option<seq<Favorite>>): FavoritesState {
    FavoritesState(LoadFromStorage(saved, parse), None)
  }

  /** `JSON.parse` inverts `JSON.stringify` on favourite lists, whose text is never empty. */
  ghost predicate JsonRoundTrips(stringify: seq<Favorite> -> string, parse: string -> Option<seq<Favorite>>) {
    forall items :: parse(stringify(items)) == Some(items) && stringify(items) != []
  }

  /** After clearing, the next start of the app loads no favourites at all. */
  lemma ClearSurvivesReload(s: FavoritesState, now: int, stringify: seq<Favorite> -> string,
                            parse: string -> Option<seq<Favorite>>)
    requires JsonRoundTrips(stringify, parse)
    ensures var loaded := InitialState(Some(stringify(ClearFavorites(s, now).saved.value)), parse).items;
            loaded == [] && forall id :: !HasId(loaded, id)
  {
    ReloadRestoresSaved(ClearFavorites(s, now), stringify, parse);
  }

  /** Whatever an action persisted is what the next start of the app loads. */
  lemma ReloadRestoresSaved(step: Step, stringify: seq<Favorite> -> string,
                            parse: string -> Option<seq<Favorite>>)
    requires JsonRoundTrips(stringify, parse)
    requires step.saved.Some?
    ensures InitialState(Some(stringify(step.saved.value)), parse).items == step.saved.value
  {
    assert parse(stringify(step.saved.value)) == Some(step.saved.value);
  }
}
