/** The story collection: the schema's field rules and ownership. */
module StoryModel {
  import opened Wrappers
  import opened JsText
  import opened UserModel

  /** The string form of a story's database id: `ObjectId.toString()`, 24 lower-case
      hexadecimal digits. */
  type StoryId = string

  predicate IsHexDigit(c: char) {
    '0' <= c <= '9' || 'a' <= c <= 'f' || 'A' <= c <= 'F'
  }

  /** A route parameter the driver can cast to an `ObjectId`: 24 hexadecimal digits in
      either case. `findById` on any other text rejects with a cast error. */
  predicate IsObjectIdText(id: string) {
    |id| == 24 && forall i :: 0 <= i < |id| ==> IsHexDigit(id[i])
  }

  /** The id of a stored story: what `ObjectId.toString()` prints, castable text already in
      its lower-case form. */
  predicate IsStoredId(id: StoryId) {
    IsObjectIdText(id) && ToLower(id) == id
  }

  /** A stored story. `author` is absent for a legacy story created before stories were
      linked to users; `createdAt`/`updatedAt` are the schema's timestamps. */
  datatype Story = Story(id: StoryId, title: string, location: string, description: string,
                         imageUrl: string, author: Option<UserId>, createdAt: int, updatedAt: int)

  const MinTitleLength: nat := 3
  const MinDescriptionLength: nat := 10

  /** A required string field after its `trim` setter: non-empty and trimmed. */
  predicate RequiredTrimmed(s: string) {
    s != [] && Trimmed(s)
  }

  /** The schema: title, location, description and image URL required and trimmed, title at
      least 3 and description at least 10 UTF-16 code units; `author` optional. */
  predicate ValidStory(s: Story) {
    && RequiredTrimmed(s.title) && Utf16Length(s.title) >= MinTitleLength
    && RequiredTrimmed(s.location)
    && RequiredTrimmed(s.description) && Utf16Length(s.description) >= MinDescriptionLength
    && RequiredTrimmed(s.imageUrl)
  }

  /** The collection invariant: valid stories with distinct ids. */
  predicate WellFormedStories(stories: seq<Story>) {
    && (forall i :: 0 <= i < |stories| ==> ValidStory(stories[i]) && IsStoredId(stories[i].id))
    && (forall i, j :: 0 <= i < j < |stories| ==> stories[i].id != stories[j].id)
  }

  /** The ownership rule of PUT and DELETE: a story with an author may be changed only by
      that author; a story without one by any authenticated caller. */
  predicate MayModify(s: Story, caller: User) {
    s.author.None? || s.author.value == caller.id
  }

  /** `Story.findById`. */
  function FindStory(stories: seq<Story>, id: StoryId): (r: Option<nat>)
    ensures r.Some? ==> r.value < |stories| && stories[r.value].id == id
    ensures r.None? <==> forall i :: 0 <= i < |stories| ==> stories[i].id != id
    ensures r.Some? ==> forall i :: 0 <= i < r.value ==> stories[i].id != id
  {
    if stories == [] then None
    else if stories[0].id == id then Some(0)
    else
      match FindStory(stories[1..], id)
      case None => None
      case Some(k) => Some(k + 1)
  }
}
