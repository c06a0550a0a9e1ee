/** The add-story and edit-story forms: their validators, what a submit sends, and how the
    edit form is filled from the story list. */
module StoryForms {
  import opened Wrappers
  import opened JsText
  import opened StoryModel
  import opened Uploads
  import StoryRoutes

  const TitleError: string := "Title must be at least 3 characters."
  const LocationError: string := "Location is required."
  const DescriptionError: string := "Description must be at least 10 characters."
  const PhotoMissing: string := "Trip photo is required."
  const NotAnImage: string := "Please upload an image file."
  const ImageTooLarge: string := "Image must be 2MB or less."
  const StoryMissing: string := "Story not found"
  const LoadFailed: string := "Failed to load story"

  /** A chosen file: its declared `type` and its `size` in bytes. */
  datatype ImageFile = ImageFile(mimeType: string, size: nat)

  /** The controlled inputs of either form. */
  datatype StoryForm = StoryForm(title: string, location: string, description: string, image: Option<ImageFile>)

  /** The `errors` object; an absent key is `None`. */
  datatype FormErrors = FormErrors(title: Option<string>, location: Option<string>,
                                   description: Option<string>, image: Option<string>)

  /** `Object.keys(errors).length === 0`. */
  predicate NoErrors(e: FormErrors) {
    e.title.None? && e.location.None? && e.description.None? && e.image.None?
  }

  /** The three text rules both forms share, on the trimmed values. */
  predicate TextValid(form: StoryForm) {
    && Utf16Length(Trim(form.title)) >= MinTitleLength
    && Trim(form.location) != []
    && Utf16Length(Trim(form.description)) >= MinDescriptionLength
  }

  /** The image rules: an image type, and at most 2 MiB. */
  predicate ImageValid(f: ImageFile) {
    StartsWith(f.mimeType, "image/") && f.size <= MaxFileSize
  }

  /** The text part of `validateForm`, with no image entry. */
  function TextErrors(form: StoryForm): (e: FormErrors)
    ensures e.title.Some? <==> Utf16Length(Trim(form.title)) < MinTitleLength
    ensures e.location.Some? <==> Trim(form.location) == []
    ensures e.description.Some? <==> Utf16Length(Trim(form.description)) < MinDescriptionLength
    ensures e.title.Some? ==> e.title.value == TitleError
    ensures e.location.Some? ==> e.location.value == LocationError
    ensures e.description.Some? ==> e.description.value == DescriptionError
    ensures e.image.None?
    ensures NoErrors(e) <==> TextValid(form)
  {
    Utf16LengthZero(Trim(form.location));
    FormErrors(
      if Utf16Length(Trim(form.title)) < MinTitleLength then Some(TitleError) else None,
      if Utf16Length(Trim(form.location)) == 0 then Some(LocationError) else None,
      if Utf16Length(Trim(form.description)) < MinDescriptionLength then Some(DescriptionError) else None,
      None)
  }

  /** The image entry for a chosen file: the type message is written first and the size
      message, when it applies, overwrites it. */
  function ImageError(f: ImageFile): (e: Option<string>)
    ensures e.None? <==> ImageValid(f)
    ensures f.size > MaxFileSize ==> e == Some(ImageTooLarge)
    ensures f.size <= MaxFileSize && !StartsWith(f.mimeType, "image/") ==> e == Some(NotAnImage)
  {
    var afterType := if !StartsWith(f.mimeType, "image/") then Some(NotAnImage) else None;
    if f.size > MaxFileSize then Some(ImageTooLarge) else afterType
  }

  /** A file of exactly 2 MiB passes, one byte more does not, and a file failing both rules
      shows only the size message. */
  lemma ImageSizeBoundary(mimeType: string)
    requires StartsWith(mimeType, "image/")
    ensures ImageError(ImageFile(mimeType, 2 * 1024 * 1024)).None?
    ensures ImageError(ImageFile(mimeType, 2 * 1024 * 1024 + 1)) == Some(ImageTooLarge)
    ensures ImageError(ImageFile("text/plain", 2 * 1024 * 1024 + 1)) == Some(ImageTooLarge)
  {
  }

  /** The add form's `validateForm`: the text rules, and a required image. */
  function CreateErrors(form: StoryForm): (e: FormErrors)
    ensures e.(image := None) == TextErrors(form)
    ensures form.image.None? ==> e.image == Some(PhotoMissing)
    ensures form.image.Some? ==> e.image == ImageError(form.image.value)
    ensures NoErrors(e) <==> TextValid(form) && form.image.Some? && ImageValid(form.image.value)
  {
    TextErrors(form).(image := if form.image.None? then Some(PhotoMissing) else ImageError(form.image.value))
  }

  /** The edit form's `validateForm`: the same text rules; the image is optional and only a
      chosen one is checked. */
  function EditErrors(form: StoryForm): (e: FormErrors)
    ensures e.(image := None) == TextErrors(form)
    ensures form.image.None? ==> e.image.None?
    ensures form.image.Some? ==> e.image == ImageError(form.image.value)
    ensures NoErrors(e) <==> TextValid(form) && (form.image.None? || ImageValid(form.image.value))
  {
    TextErrors(form).(image := if form.image.None? then None else ImageError(form.image.value))
  }

  /** Both forms judge the text fields alike and judge a chosen image alike. */
  lemma FormsAgree(form: StoryForm)
    ensures CreateErrors(form).(image := None) == EditErrors(form).(image := None)
    ensures form.image.Some? ==> CreateErrors(form) == EditErrors(form)
  {
  }

  /** The multipart body a submit sends. */
  datatype StoryPayload = StoryPayload(title: string, location: string, description: string, image: Option<ImageFile>)

  /** A submit either shows the errors or sends a request. */
  datatype Submit = ShowErrors(errors: FormErrors) | Send(payload: StoryPayload)

  /** The trimmed payload of a form. */
  function Payload(form: StoryForm): (p: StoryPayload)
    ensures Trimmed(p.title) && Trimmed(p.location) && Trimmed(p.description)
  {
    StoryPayload(Trim(form.title), Trim(form.location), Trim(form.description), form.image)
  }

  /** The add form's `handleSubmit`: nothing is sent while there are errors; otherwise the
      trimmed text and the chosen image. */
  function SubmitCreate(form: StoryForm): (r: Submit)
    ensures r.Send? <==> NoErrors(CreateErrors(form))
    ensures r.ShowErrors? ==> r.errors == CreateErrors(form)
    ensures r.Send? ==> r.payload == Payload(form) && r.payload.image.Some?
  {
    var e := CreateErrors(form);
    if NoErrors(e) then Send(Payload(form)) else ShowErrors(e)
  }

  /** The edit form's `handleSubmit`: the image is sent only when one was chosen. */
  function SubmitEdit(form: StoryForm): (r: Submit)
    ensures r.Send? <==> NoErrors(EditErrors(form))
    ensures r.ShowErrors? ==> r.errors == EditErrors(form)
    ensures r.Send? ==> r.payload == Payload(form)
  {
    var e := EditErrors(form);
    if NoErrors(e) then Send(Payload(form)) else ShowErrors(e)
  }

  /** The add form after a successful submit. */
  function ClearedForm(): (form: StoryForm)
    ensures form.title == [] && form.location == [] && form.description == [] && form.image.None?
  {
    StoryForm("", "", "", None)
  }

  /** The cleared form cannot be submitted again as it is: every field reports an error. */
  lemma ClearedFormIsBlocked()
    ensures var e := CreateErrors(ClearedForm());
            e == FormErrors(Some(TitleError), Some(LocationError), Some(DescriptionError), Some(PhotoMissing))
  {
    TrimFixpoint([]);
  }

  /** The `Content-Type` a browser gives a file part: the file's type, or the generic
      binary type when the file has none; the upload filter sees this value. */
  function PartMimeType(f: ImageFile): string {
    if f.mimeType == [] then "application/octet-stream" else f.mimeType
  }

  /** The request body the server's handler reads from a payload. */
  function BodyOf(p: StoryPayload): StoryRoutes.StoryBody {
    StoryRoutes.StoryBody(Some(p.title), Some(p.location), Some(p.description))
  }

  /** The server judges a file part as the forms judge the file. */
  lemma UploadAgreesWithForm(f: ImageFile)
    ensures AcceptsMimeType(Some(PartMimeType(f))) && WithinSizeLimit(f.size) <==> ImageValid(f)
  {
    if f.mimeType == [] {
      assert "application/octet-stream"[0] != "image/"[0];
    }
  }

  /** The text checks of the server's create handler, applied to the trimmed payload, agree
      with the form's. */
  lemma TextAgreesWithServer(form: StoryForm, file: StoryRoutes.StoredFile)
    ensures StoryRoutes.CreateError(BodyOf(Payload(form)), Some(file)).None? <==> TextValid(form)
    ensures !StoryRoutes.UpdateRejected(BodyOf(Payload(form))) <==> TextValid(form)
  {
    TrimIdempotent(form.title);
    TrimIdempotent(form.location);
    TrimIdempotent(form.description);
    Utf16LengthZero(Trim(form.title));
    Utf16LengthZero(Trim(form.description));
  }

  /** The add form sends a story exactly when it has a photo and the server's upload
      filter, size limit and create checks all accept that request. */
  lemma CreateAgreesWithServer(form: StoryForm, file: StoryRoutes.StoredFile)
    ensures SubmitCreate(form).Send? <==>
              && form.image.Some?
              && AcceptsMimeType(Some(PartMimeType(form.image.value)))
              && WithinSizeLimit(form.image.value.size)
              && StoryRoutes.CreateError(BodyOf(Payload(form)), Some(file)).None?
  {
    if form.image.Some? {
      UploadAgreesWithForm(form.image.value);
    }
    TextAgreesWithServer(form, file);
  }

  /** The edit form sends an update exactly when the server's checks accept that request. */
  lemma EditAgreesWithServer(form: StoryForm)
    ensures SubmitEdit(form).Send? <==>
              && (form.image.Some? ==>
                    AcceptsMimeType(Some(PartMimeType(form.image.value))) && WithinSizeLimit(form.image.value.size))
              && !StoryRoutes.UpdateRejected(BodyOf(Payload(form)))
  {
    if form.image.Some? {
      UploadAgreesWithForm(form.image.value);
    }
    TextAgreesWithServer(form, StoryRoutes.StoredFile(""));
  }

  /** The edit page's start: the form filled from the story with the route's id, found in
      the fetched list, or a message. */
  datatype EditLoad = Loaded(form: StoryForm, currentImageUrl: string) | LoadError(message: string)

  /** The edit page's `fetchStory`; `None` stands for a failed request or unreadable body. */
  function LoadForEdit(fetched: Option<seq<Story>>, id: StoryId): (r: EditLoad)
    ensures fetched.None? ==> r == LoadError(LoadFailed)
    ensures fetched.Some? ==>
              (r.Loaded? <==> exists i :: 0 <= i < |fetched.value| && fetched.value[i].id == id)
    ensures fetched.Some? && r.LoadError? ==> r.message == StoryMissing
    ensures r.Loaded? ==>
              var k := FindStory(fetched.value, id).value;
              && r.form == StoryForm(fetched.value[k].title, fetched.value[k].location, fetched.value[k].description, None)
              && r.currentImageUrl == fetched.value[k].imageUrl
  {
    match fetched
    case None => LoadError(LoadFailed)
    case Some(stories) =>
      match FindStory(stories, id)
      case None => LoadError(StoryMissing)
      case Some(k) =>
        Loaded(StoryForm(stories[k].title, stories[k].location, stories[k].description, None), stories[k].imageUrl)
  }

  /** Opening the edit page on a stored story and saving without changes sends the story's
      own text back, untouched by trimming, and no image. */
  lemma UnchangedEditIsSent(stories: seq<Story>, id: StoryId)
    requires WellFormedStories(stories)
    requires LoadForEdit(Some(stories), id).Loaded?
    ensures var k := FindStory(stories, id).value;
            SubmitEdit(LoadForEdit(Some(stories), id).form)
            == Send(StoryPayload(stories[k].title, stories[k].location, stories[k].description, None))
  {
    var k := FindStory(stories, id).value;
    var s := stories[k];
    assert ValidStory(s);
    TrimFixpoint(s.title);
    TrimFixpoint(s.location);
    TrimFixpoint(s.description);
  }
}
