/** The `/api/stories` routes: list, create, update and delete, each after its
    authentication gate has run (`optionalAuth` for the list, `requireAuth` for the rest). */
module StoryRoutes {
  import opened Wrappers
  import opened JsText
  import opened UserModel
  import opened StoryModel
  import opened NewestFirst
  import Uploads

  const TitleTooShort: string := "Title must be at least 3 characters"
  const LocationRequired: string := "Location is required"
  const DescriptionTooShort: string := "Description must be at least 10 characters"
  const PhotoRequired: string := "Trip photo is required"
  const StoryNotFound: string := "Story not found"
  const NotYourEdit: string := "You can only edit your own stories"
  const NotYourDelete: string := "You can only delete your own stories"
  const UpdateFailed: string := "Failed to update story"
  const DeleteFailed: string := "Failed to delete story"

  /** The text fields of a multipart story request; absent fields are `None`. */
  datatype StoryBody = StoryBody(title: Option<string>, location: Option<string>, description: Option<string>)

  /** The file the upload middleware stored for the request, known by the name it got. */
  datatype StoredFile = StoredFile(filename: string)

  /** What a handler answers and the collection it leaves behind. */
  datatype Handled<+T> = Handled(reply: Result<T>, stories: seq<Story>)

  /** The public URL of a stored upload. */
  function UploadUrl(filename: string): string {
    "/uploads/" + filename
  }

  /** The schema's `trim` setters, applied to every string field a document is saved with. */
  function ApplySetters(s: Story): Story {
    s.(title := Trim(s.title), location := Trim(s.location),
       description := Trim(s.description), imageUrl := Trim(s.imageUrl))
  }

  // ---------------------------------------------------------------- GET /

  function CreatedAt(s: Story): int {
    s.createdAt
  }

  /** A listed story with the transient ownership flag. */
  datatype StoryView = StoryView(story: Story, isOwner: bool)

  /** `isOwner`: a viewer is attached, the story has an author, and they are the same user.
      (The source's `&&` chain yields `undefined` or `null` rather than `false` when a
      viewer or author is missing; all are falsy and are `false` here.) */
  function IsOwner(s: Story, viewer: Option<User>): bool {
    viewer.Some? && s.author.Some? && s.author.value == viewer.value.id
  }

  function ViewedStories(views: seq<StoryView>): (r: seq<Story>)
    ensures |r| == |views|
    ensures forall i :: 0 <= i < |views| ==> r[i] == views[i].story
  {
    seq(|views|, i requires 0 <= i < |views| => views[i].story)
  }

  /** `GET /api/stories`: every stored story, newest first, each flagged with whether the
      viewer `optionalAuth` attached owns it. */
  function ListStories(stories: seq<Story>, viewer: Option<User>): (r: seq<StoryView>)
    ensures multiset(ViewedStories(r)) == multiset(stories)
    ensures SortedNewestFirst(ViewedStories(r), CreatedAt)
    ensures forall i :: 0 <= i < |r| ==>
              (r[i].isOwner <==> viewer.Some? && r[i].story.author == Some(viewer.value.id))
  {
    var sorted := SortNewestFirst(stories, CreatedAt);
    var r := seq(|sorted|, i requires 0 <= i < |sorted| => StoryView(sorted[i], IsOwner(sorted[i], viewer)));
    assert ViewedStories(r) == sorted;
    r
  }

  /** Without a viewer no story is flagged as owned. */
  lemma AnonymousOwnsNothing(stories: seq<Story>)
    ensures forall v :: v in ListStories(stories, None) ==> !v.isOwner
  {
  }

  // ---------------------------------------------------------------- POST /

  /** The create handler's checks, in order: title, location, description, then the file.
      The message of the first that fails. */
  function CreateError(body: StoryBody, file: Option<StoredFile>): (e: Option<string>)
    ensures e.None? <==>
              && body.title.Some? && Utf16Length(Trim(body.title.value)) >= MinTitleLength
              && body.location.Some? && Trim(body.location.value) != []
              && body.description.Some? && Utf16Length(Trim(body.description.value)) >= MinDescriptionLength
              && file.Some?
    ensures e == Some(TitleTooShort) <==> Falsy(body.title) || Utf16Length(Trim(body.title.value)) < 3
    ensures e == Some(LocationRequired) <==>
              && !(Falsy(body.title) || Utf16Length(Trim(body.title.value)) < 3)
              && (Falsy(body.location) || Trim(body.location.value) == [])
    ensures e == Some(DescriptionTooShort) <==>
              && !(Falsy(body.title) || Utf16Length(Trim(body.title.value)) < 3)
              && !(Falsy(body.location) || Trim(body.location.value) == [])
              && (Falsy(body.description) || Utf16Length(Trim(body.description.value)) < 10)
    ensures e == Some(PhotoRequired) <==>
              && !(Falsy(body.title) || Utf16Length(Trim(body.title.value)) < 3)
              && !(Falsy(body.location) || Trim(body.location.value) == [])
              && !(Falsy(body.description) || Utf16Length(Trim(body.description.value)) < 10)
              && file.None?
  {
    if Falsy(body.title) || Utf16Length(Trim(body.title.value)) < MinTitleLength then Some(TitleTooShort)
    else if Falsy(body.location) || Utf16Length(Trim(body.location.value)) == 0 then Some(LocationRequired)
    else if Falsy(body.description) || Utf16Length(Trim(body.description.value)) < MinDescriptionLength then Some(DescriptionTooShort)
    else if file.None? then Some(PhotoRequired)
    else None
  }

  /** `POST /api/stories` for the authenticated `caller`. A failed check is a 400 with its
      message and stores nothing; otherwise the story gets the id the database generates,
      the trimmed text, the URL of the stored upload, the caller as author and `now` as both
      timestamps, and it satisfies the schema. */
  function CreateStory(stories: seq<Story>, caller: User, body: StoryBody, file: Option<StoredFile>,
                       newId: StoryId, now: int): (h: Handled<Story>)
    requires IsStoredId(newId) && FindStory(stories, newId).None?
    ensures h.reply.Fail? <==> CreateError(body, file).Some?
    ensures h.reply.Fail? ==> h.reply == Fail(400, CreateError(body, file).value) && h.stories == stories
    ensures h.reply.Ok? ==>
              var s := h.reply.value;
              && h.stories == stories + [s]
              && s.id == newId && s.author == Some(caller.id)
              && s.title == Trim(body.title.value)
              && s.location == Trim(body.location.value)
              && s.description == Trim(body.description.value)
              && s.imageUrl == Trim(UploadUrl(file.value.filename))
              && s.createdAt == now && s.updatedAt == now
              && ValidStory(s)
  {
    match CreateError(body, file)
    case Some(msg) => Handled(Fail(400, msg), stories)
    case None =>
      var doc := Story(newId, Trim(body.title.value), Trim(body.location.value),
                       Trim(body.description.value), UploadUrl(file.value.filename),
                       Some(caller.id), now, now);
      var s := ApplySetters(doc);
      SetFieldsTrimmed(body.title.value);
      SetFieldsTrimmed(body.location.value);
      SetFieldsTrimmed(body.description.value);
      UploadUrlSurvivesTrim(file.value.filename);
      Utf16LengthZero(Trim(body.title.value));
      Handled(Ok(s), stories + [s])
  }

  /** What the handler trims, the setter leaves as it is. */
  lemma SetFieldsTrimmed(raw: string)
    ensures Trim(Trim(raw)) == Trim(raw)
    ensures Trimmed(Trim(raw))
  {
    TrimIdempotent(raw);
  }

  /** An upload URL starts with `/`, so it is never trimmed to nothing. */
  lemma UploadUrlSurvivesTrim(filename: string)
    ensures RequiredTrimmed(Trim(UploadUrl(filename)))
  {
    var u := UploadUrl(filename);
    assert u[0] == '/' && !IsSpace(u[0]);
    TrimSlice(u);
  }

  /** The `trim` setter applies to `imageUrl` as well, while the generated file name keeps
      the stored extension verbatim: the stored URL differs from the URL of the file written
      to disk exactly when that extension ends in whitespace. */
  lemma StoredUrlMissesFileIff(now: nat, random: nat, originalName: string)
    ensures var name := Uploads.GeneratedFilename(now, random, originalName);
            var ext := Uploads.StoredExtension(originalName);
            Trim(UploadUrl(name)) != UploadUrl(name) <==> IsSpace(ext[|ext| - 1])
  {
    var name := Uploads.GeneratedFilename(now, random, originalName);
    var ext := Uploads.StoredExtension(originalName);
    LastOfSuffix(name, ext);
    UrlTrimmedIff(name);
  }

  /** An upload URL is changed by `trim` exactly when the file name ends in whitespace. */
  lemma UrlTrimmedIff(name: string)
    requires name != []
    ensures Trim(UploadUrl(name)) != UploadUrl(name) <==> IsSpace(name[|name| - 1])
  {
    var u := UploadUrl(name);
    assert u[0] == '/';
    assert u[|u| - 1] == name[|name| - 1];
    TrimFixpoint(u);
  }

  /** A non-empty suffix ends where the whole string ends. */
  lemma LastOfSuffix(s: string, e: string)
    requires 1 <= |e| <= |s| && s[|s| - |e|..] == e
    ensures s[|s| - 1] == e[|e| - 1]
  {
    assert s[|s| - |e|..][|e| - 1] == s[|s| - 1];
  }

  /** So an original name whose extension is not empty and which ends in whitespace, such
      as `"photo.png "`, is stored under a URL that does not name its file. A name ending
      in whitespace without an extension (`"photo "`) gets `.jpg` and is not affected
      (see `Uploads.ExtensionWithTrailingSpace` and `Uploads.NoExtensionWithTrailingSpace`). */
  lemma StoredUrlCanMissFile(now: nat, random: nat, originalName: string)
    requires originalName != [] && IsSpace(originalName[|originalName| - 1])
    requires Uploads.Extname(originalName) != []
    ensures var name := Uploads.GeneratedFilename(now, random, originalName);
            Trim(UploadUrl(name)) != UploadUrl(name)
  {
    var o := originalName;
    Uploads.NoTrailingSlash(o);
    var ext := Uploads.Extname(o);
    LastOfSuffix(o, ext);
    StoredUrlMissesFileIff(now, random, o);
  }

  /** Creating keeps the collection well formed. */
  lemma CreatePreservesWellFormed(stories: seq<Story>, caller: User, body: StoryBody,
                                  file: Option<StoredFile>, newId: StoryId, now: int)
    requires WellFormedStories(stories)
    requires IsStoredId(newId) && FindStory(stories, newId).None?
    ensures WellFormedStories(CreateStory(stories, caller, body, file, newId, now).stories)
  {
    var h := CreateStory(stories, caller, body, file, newId, now);
    if h.reply.Ok? {
      var s' := h.stories;
      assert forall i :: 0 <= i < |stories| ==> s'[i] == stories[i];
    }
  }

  /** The author of a story just created can edit it and delete it through its id: the
      update passes exactly when the update validators accept the new fields, and the delete
      gives back the collection as it was before the create. */
  lemma AuthorCanEditAndDelete(stories: seq<Story>, caller: User, body: StoryBody,
                               file: Option<StoredFile>, newId: StoryId, now: int,
                               edit: StoryBody, editFile: Option<StoredFile>, later: int)
    requires IsStoredId(newId) && FindStory(stories, newId).None?
    requires CreateError(body, file).None?
    ensures var after := CreateStory(stories, caller, body, file, newId, now).stories;
            && FindStory(after, newId) == Some(|stories|)
            && (UpdateStory(after, caller, newId, edit, editFile, later).reply.Ok? <==> !UpdateRejected(edit))
            && DeleteStory(after, caller, newId) == Handled(Ok(DeleteReply(true)), stories)
  {
    var h := CreateStory(stories, caller, body, file, newId, now);
    FoundAtEnd(stories, h.reply.value);
    assert h.stories == stories + [h.reply.value];
  }

  /** A story appended under an id nobody has is found at the end, and removing it there
      gives back the collection it was appended to. */
  lemma FoundAtEnd(stories: seq<Story>, s: Story)
    requires FindStory(stories, s.id).None?
    ensures var after := stories + [s];
            && FindStory(after, s.id) == Some(|stories|)
            && after[..|stories|] + after[|stories| + 1..] == stories
  {
    var after := stories + [s];
    assert after[|stories|] == s;
    assert forall i :: 0 <= i < |stories| ==> after[i] == stories[i];
    assert after[..|stories|] == stories;
    assert after[|stories| + 1..] == [];
  }

  // ---------------------------------------------------------------- PUT /:id

  /** The fields of a PUT that the update validators reject: a field that is set must
      survive its `trim` setter non-empty (`required`) and long enough (`minlength`). */
  predicate UpdateRejected(body: StoryBody) {
    || (body.title.Some? && (Trim(body.title.value) == [] || Utf16Length(Trim(body.title.value)) < MinTitleLength))
    || (body.location.Some? && Trim(body.location.value) == [])
    || (body.description.Some? && (Trim(body.description.value) == [] || Utf16Length(Trim(body.description.value)) < MinDescriptionLength))
  }

  /** `PUT /api/stories/:id` for the authenticated `caller`. An id the driver cannot cast
      to an `ObjectId` makes the look-up throw, and the catch-all answers 400; a castable id
      is looked up in its canonical lower-case form. Then 404 when no story has the id,
      and 403 when the story has an author other than the caller; otherwise the fields that
      are present replace the stored ones (through the `trim` setters and the update
      validators, whose failure is the catch-all 400), the image URL changes only when a new
      file was uploaded, and `updatedAt` becomes `now`. Every failure leaves the collection
      as it was. */
  function UpdateStory(stories: seq<Story>, caller: User, id: string, body: StoryBody,
                       file: Option<StoredFile>, now: int): (h: Handled<Story>)
    ensures h.reply.Fail? ==> h.stories == stories
    ensures !IsObjectIdText(id) ==> h.reply == Fail(400, UpdateFailed)
    ensures IsObjectIdText(id) && FindStory(stories, ToLower(id)).None? ==> h.reply == Fail(404, StoryNotFound)
    ensures IsObjectIdText(id) && FindStory(stories, ToLower(id)).Some? ==>
              var k := FindStory(stories, ToLower(id)).value;
              var prev := stories[k];
              && (!MayModify(prev, caller) ==> h.reply == Fail(403, NotYourEdit))
              && (MayModify(prev, caller) && UpdateRejected(body) ==> h.reply == Fail(400, UpdateFailed))
              && (h.reply.Ok? <==> MayModify(prev, caller) && !UpdateRejected(body))
              && (h.reply.Ok? ==>
                    var s := h.reply.value;
                    && h.stories == stories[k := s]
                    && s.id == prev.id && s.author == prev.author && s.createdAt == prev.createdAt
                    && s.updatedAt == now
                    && s.title == (if body.title.Some? then Trim(body.title.value) else prev.title)
                    && s.location == (if body.location.Some? then Trim(body.location.value) else prev.location)
                    && s.description == (if body.description.Some? then Trim(body.description.value) else prev.description)
                    && s.imageUrl == (if file.Some? then Trim(UploadUrl(file.value.filename)) else prev.imageUrl))
  {
    if !IsObjectIdText(id) then Handled(Fail(400, UpdateFailed), stories)
    else
      match FindStory(stories, ToLower(id))
      case None => Handled(Fail(404, StoryNotFound), stories)
      case Some(k) =>
        var prev := stories[k];
        if !MayModify(prev, caller) then Handled(Fail(403, NotYourEdit), stories)
        else if UpdateRejected(body) then Handled(Fail(400, UpdateFailed), stories)
        else
          var s := Story(prev.id,
                         if body.title.Some? then Trim(body.title.value) else prev.title,
                         if body.location.Some? then Trim(body.location.value) else prev.location,
                         if body.description.Some? then Trim(body.description.value) else prev.description,
                         if file.Some? then Trim(UploadUrl(file.value.filename)) else prev.imageUrl,
                         prev.author, prev.createdAt, now);
          Handled(Ok(s), stories[k := s])
  }

  /** Updating keeps the collection well formed: the update validators accept only what
      the schema accepts. */
  lemma UpdatePreservesWellFormed(stories: seq<Story>, caller: User, id: string, body: StoryBody,
                                  file: Option<StoredFile>, now: int)
    requires WellFormedStories(stories)
    ensures WellFormedStories(UpdateStory(stories, caller, id, body, file, now).stories)
  {
    var h := UpdateStory(stories, caller, id, body, file, now);
    if h.reply.Ok? {
      var k := FindStory(stories, ToLower(id)).value;
      var s := h.reply.value;
      var prev := stories[k];
      assert ValidStory(prev);
      if body.title.Some? { SetFieldsTrimmed(body.title.value); }
      if body.location.Some? { SetFieldsTrimmed(body.location.value); }
      if body.description.Some? { SetFieldsTrimmed(body.description.value); }
      if file.Some? { UploadUrlSurvivesTrim(file.value.filename); }
      assert ValidStory(s);
      assert forall i :: 0 <= i < |stories| ==> h.stories[i].id == stories[i].id;
    }
  }

  // ---------------------------------------------------------------- DELETE /:id

  /** The DELETE success body: `{ ok: true }`. */
  datatype DeleteReply = DeleteReply(ok: bool)

  /** `DELETE /api/stories/:id` for the authenticated `caller`: an id the driver cannot
      cast is the catch-all 400, then the same 404-then-403 checks as PUT, then the story is
      removed and nothing else changes. */
  function DeleteStory(stories: seq<Story>, caller: User, id: string): (h: Handled<DeleteReply>)
    ensures h.reply.Fail? ==> h.stories == stories
    ensures !IsObjectIdText(id) ==> h.reply == Fail(400, DeleteFailed)
    ensures IsObjectIdText(id) && FindStory(stories, ToLower(id)).None? ==> h.reply == Fail(404, StoryNotFound)
    ensures IsObjectIdText(id) && FindStory(stories, ToLower(id)).Some? ==>
              var k := FindStory(stories, ToLower(id)).value;
              && (!MayModify(stories[k], caller) <==> h.reply == Fail(403, NotYourDelete))
              && (MayModify(stories[k], caller) ==>
                    h.reply == Ok(DeleteReply(true)) && h.stories == stories[..k] + stories[k + 1..])
  {
    if !IsObjectIdText(id) then Handled(Fail(400, DeleteFailed), stories)
    else
      match FindStory(stories, ToLower(id))
      case None => Handled(Fail(404, StoryNotFound), stories)
      case Some(k) =>
        if !MayModify(stories[k], caller) then Handled(Fail(403, NotYourDelete), stories)
        else Handled(Ok(DeleteReply(true)), stories[..k] + stories[k + 1..])
  }

  /** In a well-formed collection a successful delete removes exactly the story with that
      id and keeps every other story, in order. */
  lemma DeleteRemovesExactlyOne(stories: seq<Story>, caller: User, id: string)
    requires WellFormedStories(stories)
    requires DeleteStory(stories, caller, id).reply.Ok?
    ensures var after := DeleteStory(stories, caller, id).stories;
            && |after| == |stories| - 1
            && (forall s :: s in after <==> s in stories && s.id != ToLower(id))
            && WellFormedStories(after)
  {
    var k := FindStory(stories, ToLower(id)).value;
    RemoveAt(stories, k);
  }

  /** Removing the story at `k` from a collection with distinct ids removes that id and
      nothing else. */
  lemma RemoveAt(stories: seq<Story>, k: nat)
    requires WellFormedStories(stories)
    requires k < |stories|
    ensures var after := stories[..k] + stories[k + 1..];
            && (forall s :: s in after <==> s in stories && s.id != stories[k].id)
            && WellFormedStories(after)
  {
    var after := stories[..k] + stories[k + 1..];
    assert forall i :: 0 <= i < |after| ==> after[i] == stories[if i < k then i else i + 1];
    forall s | s in stories && s.id != stories[k].id
      ensures s in after
    {
      var i :| 0 <= i < |stories| && stories[i] == s;
      if i < k { assert after[i] == s; } else { assert after[i - 1] == s; }
    }
    RemoveAtKeepsWellFormed(stories, k);
  }

  /** Removing one story keeps the rest valid, with stored-form and distinct ids. */
  lemma RemoveAtKeepsWellFormed(stories: seq<Story>, k: nat)
    requires WellFormedStories(stories)
    requires k < |stories|
    ensures WellFormedStories(stories[..k] + stories[k + 1..])
  {
    var after := stories[..k] + stories[k + 1..];
    assert forall i :: 0 <= i < |after| ==> after[i] == stories[if i < k then i else i + 1];
  }

  /** Ownership, both ways: on a story with an author, PUT and DELETE get past the
      ownership check exactly for that author; on a legacy story without an author they do
      for every authenticated caller. */
  lemma OwnershipGate(stories: seq<Story>, caller: User, id: string, body: StoryBody,
                      file: Option<StoredFile>, now: int)
    requires IsObjectIdText(id) && FindStory(stories, ToLower(id)).Some?
    ensures var s := stories[FindStory(stories, ToLower(id)).value];
            && (s.author.Some? ==>
                  (DeleteStory(stories, caller, id).reply.Ok? <==> s.author.value == caller.id)
                  && ((UpdateStory(stories, caller, id, body, file, now).reply != Fail(403, NotYourEdit))
                      <==> s.author.value == caller.id))
            && (s.author.None? ==>
                  DeleteStory(stories, caller, id).reply.Ok?
                  && UpdateStory(stories, caller, id, body, file, now).reply != Fail(403, NotYourEdit))
  {
  }

  /** The driver reads an id's hexadecimal digits in either case, so an id and its
      lower-case form address the same story with the same outcome. */
  lemma IdCaseIgnored(stories: seq<Story>, caller: User, id: string, body: StoryBody,
                      file: Option<StoredFile>, now: int)
    ensures DeleteStory(stories, caller, ToLower(id)) == DeleteStory(stories, caller, id)
    ensures UpdateStory(stories, caller, ToLower(id), body, file, now)
            == UpdateStory(stories, caller, id, body, file, now)
  {
    assert IsObjectIdText(ToLower(id)) <==> IsObjectIdText(id) by {
      assert forall i :: 0 <= i < |id| ==> (IsHexDigit(ToLower(id)[i]) <==> IsHexDigit(id[i]));
    }
    assert ToLower(ToLower(id)) == ToLower(id);
  }
}
