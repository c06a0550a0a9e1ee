/** The `/api/destinations` routes: a read-mostly catalogue that fills itself with a fixed
    list of twelve destinations the first time it is read while empty. */
module DestinationRoutes {
  import opened NewestFirst

  /** A stored destination; every text field is required and trimmed by the schema. */
  datatype Destination = Destination(id: string, title: string, location: string, description: string,
                                     imageUrl: string, region: string, createdAt: int)

  /** One entry of the seed list. */
  datatype SeedEntry = SeedEntry(title: string, location: string, description: string,
                                 imageUrl: string, region: string)

  /** The seed list, in insertion order. */
  const Seeds: seq<SeedEntry> := [
      SeedEntry("Santorini", "Greece",
                "Famous for its stunning sunsets, white-washed buildings, and crystal-clear waters of the Aegean Sea.",
                "https://images.unsplash.com/photo-1613395877344-13d4a8e0d49e?auto=format&fit=crop&w=1200&q=80",
                "Europe"),
      SeedEntry("Bali", "Indonesia",
                "A tropical paradise known for its lush rice terraces, ancient temples, and vibrant culture.",
                "https://images.unsplash.com/photo-1537996194471-e657df975ab4?auto=format&fit=crop&w=1200&q=80",
                "Asia"),
      SeedEntry("Machu Picchu", "Peru",
                "The iconic Incan citadel set high in the Andes Mountains, a UNESCO World Heritage site.",
                "https://images.unsplash.com/photo-1587595431973-160d0d94add1?auto=format&fit=crop&w=1200&q=80",
                "South America"),
      SeedEntry("Maldives", "Maldives",
                "Crystal clear waters, overwater bungalows, and some of the world's best diving spots.",
                "https://images.unsplash.com/photo-1514282401047-d79a71a590e8?auto=format&fit=crop&w=1200&q=80",
                "Asia"),
      SeedEntry("Paris", "France",
                "The City of Light, home to the Eiffel Tower, world-class museums, and romantic streets.",
                "https://images.unsplash.com/photo-1502602898657-3e91760cbb34?auto=format&fit=crop&w=1200&q=80",
                "Europe"),
      SeedEntry("Tokyo", "Japan",
                "A fascinating blend of ancient temples and ultra-modern technology in one vibrant city.",
                "https://images.unsplash.com/photo-1540959733332-eab4deabeeaf?auto=format&fit=crop&w=1200&q=80",
                "Asia"),
      SeedEntry("New York City", "USA",
                "The city that never sleeps - iconic skyline, Broadway shows, and endless attractions.",
                "https://images.unsplash.com/photo-1496442226666-8d4d0e62e6e9?auto=format&fit=crop&w=1200&q=80",
                "North America"),
      SeedEntry("Dubai", "UAE",
                "A modern marvel with stunning architecture, luxury shopping, and desert adventures.",
                "https://images.unsplash.com/photo-1512453979798-5ea266f8880c?auto=format&fit=crop&w=1200&q=80",
                "Middle East"),
      SeedEntry("Safari in Serengeti", "Tanzania",
                "Witness the great migration and see Africa's incredible wildlife in their natural habitat.",
                "https://images.unsplash.com/photo-1516426122078-c23e76319801?auto=format&fit=crop&w=1200&q=80",
                "Africa"),
      SeedEntry("Great Barrier Reef", "Australia",
                "The world's largest coral reef system, a paradise for divers and marine life enthusiasts.",
                "https://images.unsplash.com/photo-1559128010-7c1ad6e1b6a5?auto=format&fit=crop&w=1200&q=80",
                "Oceania"),
      SeedEntry("Iceland", "Iceland",
                "Land of fire and ice - Northern Lights, geysers, waterfalls, and volcanic landscapes.",
                "https://images.unsplash.com/photo-1504829857797-ddff29c27927?auto=format&fit=crop&w=1200&q=80",
                "Europe"),
      SeedEntry("Marrakech", "Morocco",
                "Vibrant souks, beautiful riads, and the magic of North African culture.",
                "https://images.unsplash.com/photo-1597212618440-806262de4f6b?auto=format&fit=crop&w=1200&q=80",
                "Africa")
    ]

  /** How many records a preview returns. */
  const PreviewLimit: nat := 3

  predicate ValidSeed(e: SeedEntry) {
    && e.title != [] && e.location != [] && e.description != [] && e.imageUrl != [] && e.region != []
  }

  /** The seed list has twelve entries, each with every required field non-empty. */
  lemma SeedsComplete()
    ensures |Seeds| == 12
    ensures forall i :: 0 <= i < |Seeds| ==> ValidSeed(Seeds[i])
  {
  }

  /** `insertMany(seedDestinations)`: the seed list stored in order, each entry with the
      fresh id the database generates and the `createdAt` its own clock reading gave it. */
  function SeedRecords(ids: seq<string>, times: seq<int>): (r: seq<Destination>)
    requires |ids| == |Seeds| && |times| == |Seeds|
    ensures |r| == |Seeds|
    ensures forall i :: 0 <= i < |r| ==>
              var e := Seeds[i];
              r[i] == Destination(ids[i], e.title, e.location, e.description, e.imageUrl, e.region, times[i])
  {
    seq(|Seeds|, i requires 0 <= i < |Seeds| =>
      Destination(ids[i], Seeds[i].title, Seeds[i].location, Seeds[i].description,
                  Seeds[i].imageUrl, Seeds[i].region, times[i]))
  }

  /** The store a read leaves behind: the seed records if it was empty, else unchanged. */
  function SeedIfEmpty(store: seq<Destination>, ids: seq<string>, times: seq<int>): (r: seq<Destination>)
    requires |ids| == |Seeds| && |times| == |Seeds|
    ensures store == [] ==> r == SeedRecords(ids, times)
    ensures store != [] ==> r == store
    ensures r != []
  {
    if store == [] then SeedRecords(ids, times) else store
  }

  function CreatedAt(d: Destination): int {
    d.createdAt
  }

  /** A read: what it answers and the store it leaves. */
  datatype Read = Read(reply: seq<Destination>, store: seq<Destination>)

  /** `GET /api/destinations`: seed when empty, then every record newest first. */
  function ListDestinations(store: seq<Destination>, ids: seq<string>, times: seq<int>): (r: Read)
    requires |ids| == |Seeds| && |times| == |Seeds|
    ensures r.store == SeedIfEmpty(store, ids, times)
    ensures multiset(r.reply) == multiset(r.store)
    ensures SortedNewestFirst(r.reply, CreatedAt)
    ensures store == [] ==> |r.reply| == 12
  {
    var s := SeedIfEmpty(store, ids, times);
    Read(SortNewestFirst(s, CreatedAt), s)
  }

  /** `GET /api/destinations/preview`: seed when empty, then the first three records in
      storage order (no sort). */
  function PreviewDestinations(store: seq<Destination>, ids: seq<string>, times: seq<int>): (r: Read)
    requires |ids| == |Seeds| && |times| == |Seeds|
    ensures r.store == SeedIfEmpty(store, ids, times)
    ensures |r.reply| == if |r.store| < PreviewLimit then |r.store| else PreviewLimit
    ensures r.reply == r.store[..|r.reply|]
    ensures store == [] ==> |r.reply| == 3
  {
    var s := SeedIfEmpty(store, ids, times);
    Read(if |s| < PreviewLimit then s else s[..PreviewLimit], s)
  }

  /** Two reads one after the other from an empty store: the first seeds, the second
      inserts nothing, and both answer with the same twelve records. */
  lemma NoDoubleSeeding(ids1: seq<string>, times1: seq<int>, ids2: seq<string>, times2: seq<int>)
    requires |ids1| == |Seeds| && |ids2| == |Seeds| && |times1| == |Seeds| && |times2| == |Seeds|
    ensures var first := ListDestinations([], ids1, times1);
            var second := ListDestinations(first.store, ids2, times2);
            && second.store == first.store
            && second.reply == first.reply
            && |second.reply| == 12
  {
  }

  /** A store that is not empty is never reseeded, by either route. */
  lemma NonEmptyStoreUntouched(store: seq<Destination>, ids: seq<string>, times: seq<int>)
    requires |ids| == |Seeds| && |times| == |Seeds|
    requires store != []
    ensures ListDestinations(store, ids, times).store == store
    ensures PreviewDestinations(store, ids, times).store == store
  {
  }
}
