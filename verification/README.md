# Rehla travel stories — a Dafny model

Rehla is a small web application for sharing travel stories. An Express/Mongoose server
keeps users, stories and a catalogue of destinations, and a React client lets visitors
register, sign in, post and edit illustrated stories, browse destinations and keep a list
of favourites. The project models the rules inside that code: validators, access gates,
state transitions and the way client and server fit together.

- Database collections are sequences of immutable records, kept in insertion order.
- The JSON Web Token library and bcrypt are function-typed parameters. Token verification
  answers `Valid(payload) | Invalid | Expired`.
- Clocks, random numbers and fresh database ids are parameters.
- Every handler returns its reply together with the collection it leaves behind.

Modules, one per source component:

| file | module | models |
|---|---|---|
| `wrappers.dfy` | `Wrappers` | `Option`, `Result`, JavaScript falsiness of an optional string |
| `js_text.dfy` | `JsText` | `trim` and `\s` whitespace, `.length` in UTF-16 code units, `toLowerCase` (ASCII), `startsWith`, `split` |
| `email_pattern.dfy` | `EmailPattern` | the address pattern `^\S+@\S+\.\S+$` |
| `user_model.dfy` | `UserModel` | the user schema, its setters, look-ups, the save hook, `comparePassword` |
| `tokens.dfy` | `Tokens` | `generateToken` and `Authorization: Bearer` parsing |
| `auth_middleware.dfy` | `AuthMiddleware` | `requireAuth`, `optionalAuth` |
| `auth_routes.dfy` | `AuthRoutes` | register, login, `/me` |
| `story_model.dfy` | `StoryModel` | the story schema and the ownership rule |
| `newest_first.dfy` | `NewestFirst` | `sort({ createdAt: -1 })` |
| `uploads.dfy` | `Uploads` | the upload filter, size limit and generated file name |
| `story_routes.dfy` | `StoryRoutes` | list, create, update and delete stories |
| `destination_routes.dfy` | `DestinationRoutes` | the seeded destination catalogue |
| `favorites_slice.dfy` | `Favorites` | the favourites reducer and its local-storage copy |
| `trip_card.dfy` | `TripCard` | favourite toggle, image source, edit link |
| `api_page.dfy` | `ApiPage` | the explore page's list and save button |
| `auth_context.dfy` | `AuthContext` | the client session: check, login, register, logout |
| `story_forms.dfy` | `StoryForms` | the add-story and edit-story forms |
| `register_page.dfy` | `RegisterPage` | the registration form |
| `app_theme.dfy` | `AppTheme` | the light/dark theme |

Lemmas that relate the client to the server:

- `RegisterPage.FormAgreesWithServer`: the registration form shows exactly the message the
  register route would answer for the same input. When the route would accept, the form
  either sends the request or reports a mismatched confirmation, which it checks last.
- `StoryForms.CreateAgreesWithServer` and `StoryForms.EditAgreesWithServer`: the story
  forms send a request exactly when the upload filter, the size limit and the route's
  checks accept it (for the add form, only with a photo).
- `StoryRoutes.AuthorCanEditAndDelete`: a story's id is an `ObjectId`'s lower-case text,
  so the author of a story just created can update it and delete it through that id.
- `AuthContext.LoginSurvivesCheck`: a token obtained by logging in passes the session
  check against `/me`.

The update route runs with `runValidators: true`. The model therefore re-applies the
schema's `trim` setters and its required/minlength rules to every field the request
supplies. Any failure is the route's 400 "Failed to update story".

`StoryRoutes.StoredUrlMissesFileIff` records one consequence of modelling the code as
written. The schema trims `imageUrl`, but the generated file name keeps the original
extension character for character. The stored URL differs from the file on disk exactly
when that extension ends in whitespace, as for `"photo.png "`. A name without an
extension, such as `"photo "`, gets `.jpg` and is not affected.

## Model

| member | source | states |
|---|---|---|
| JsText.Trim | server/src/models/Story.js:5-8 | The `trim` setter's result has no leading or trailing JavaScript whitespace and is no longer than its input |
| JsText.TrimSlice | server/src/routes/storiesroutes.js:63-71 | `trim` removes exactly the leading whitespace run and a trailing whitespace run, keeping the middle as a contiguous slice |
| JsText.TrimFixpoint | server/src/models/User.js:5-10 | Trimming leaves a string unchanged exactly when it has no whitespace at either end |
| JsText.TrimIdempotent | client/my-app/src/pages/RegisterPage.jsx:22-41 | Trimming an already trimmed value (the client trims the name, the server trims again) changes nothing |
| JsText.TrimNoSpace | server/src/models/User.js:11-18 | A string with no whitespace anywhere is untouched by `trim` |
| JsText.TrimPadded | server/src/models/User.js:16 | Whitespace added at both ends of a string is exactly what `trim` removes again |
| JsText.Utf16Length | server/src/routes/authRoutes.js:25-33 | `.length` counts UTF-16 code units: at least one and at most two per character |
| JsText.Utf16LengthZero | server/src/routes/storiesroutes.js:66-68 | A length of zero means the string is empty |
| JsText.ToLower | server/src/routes/authRoutes.js:36 | `toLowerCase` keeps the length and maps each character on its own |
| JsText.LowerTrimCommute | server/src/routes/authRoutes.js:43-45 | Lower-casing and trimming commute, so the two orders the code uses agree |
| JsText.Split | server/src/middleware/auth.js:18 | `split(" ")` yields at least one field and no field contains the separator |
| JsText.JoinSplit | server/src/middleware/auth.js:18 | Joining the fields of a split with the separator gives back the original string |
| JsText.SplitJoin | server/src/middleware/auth.js:18 | Splitting a join of separator-free fields gives back those fields |
| EmailPattern.Match | server/src/models/User.js:17 | The scanning matcher accepts exactly the strings with no whitespace, an `@` after at least one character, a later `.` after at least one more, and at least one character after that `.` |
| EmailPattern.MatchesTrimmed | server/src/routes/authRoutes.js:36-45 | A pattern-valid address is unchanged by `trim` |
| EmailPattern.MatchesLower | server/src/routes/authRoutes.js:28-44 | Lower-casing neither creates nor destroys a match |
| UserModel.ValidUserIsStoredForm | server/src/models/User.js:5-18 | A valid stored user is a fixed point of the name and email setters |
| UserModel.FindById | server/src/middleware/auth.js:24-27 | `findById` returns a stored user with that id, and returns nothing exactly when no user has it |
| UserModel.FindByEmail | server/src/routes/authRoutes.js:36 | `findOne({ email })` returns a stored user with that address, and returns nothing exactly when none has it |
| UserModel.FindByIdUnique | server/src/models/User.js:11-18 | With distinct ids, looking up a stored user's id finds that user |
| UserModel.PreSave | server/src/models/User.js:32-35 | The save hook hashes the password only when it was modified, leaving every other field and an unmodified document alone |
| UserModel.ResaveKeepsHash | server/src/models/User.js:32-35 | Saving again without touching the password does not hash the hash |
| Tokens.GenerateToken | server/src/routes/authRoutes.js:9-14 | A token is what the signer returns for payload `{id: userId}` and a lifetime of 604800 seconds |
| Tokens.BearerToken | server/src/middleware/auth.js:14-18 | A token is present exactly when the header starts with `"Bearer "`; it is the second space-separated field, holds no space, and the header is the prefix plus the token, possibly followed by a space and more |
| Tokens.BearerRoundTrip | server/src/middleware/auth.js:14-18 | The header the client builds from a space-free token gives that token back |
| AuthMiddleware.RequireAuth | server/src/middleware/auth.js:10-38 | Every rejection is a 401. A missing or non-bearer header gets "Authentication required"; a token that fails to verify gets "Invalid or expired token"; a verified token whose user no longer exists gets "User not found". `next` runs exactly when the token verifies and its user exists, with that user attached |
| AuthMiddleware.OptionalAuth | server/src/middleware/auth.js:43-58 | Never rejects. A user is attached exactly when `requireAuth` would have admitted one, and it is that same user |
| AuthRoutes.RegisterError | server/src/routes/authRoutes.js:25-33 | Name (trimmed, at least 2), then email pattern, then password (at least 6): each message appears exactly when the earlier checks pass and its own fails; no error exactly when all three hold |
| AuthRoutes.Register | server/src/routes/authRoutes.js:20-59 | Validation failures are 400s with their message. An existing lower-cased address gives "Email already registered". Valid input with a free address always succeeds, and exactly one user is appended, with trimmed name, lower-cased trimmed address and hashed password, and a 201 carries a token and only id, name and email |
| AuthRoutes.RegisterChecksImplySchema | server/src/routes/authRoutes.js:36-46 | For input the route accepted, the duplicate-lookup key equals the stored key, and the schema's own validators accept the new user |
| AuthRoutes.RegisterPreservesWellFormed | server/src/models/User.js:5-24 | Registration keeps the users valid, with distinct ids and distinct addresses |
| AuthRoutes.RegisterTwiceAnyCase | server/src/routes/authRoutes.js:36-39 | Registering an address again in any letter case is the duplicate 400 |
| AuthRoutes.Login | server/src/routes/authRoutes.js:78-111 | A missing field is a 400 before any lookup. Every other failure is the same 401 "Invalid email or password". Success happens exactly when the address, lower-cased and trimmed as the filter's setters do, is stored and the password matches, and the reply is that user's public view |
| AuthRoutes.LoginIgnoresPadding | server/src/routes/authRoutes.js:88 | Spaces around the address give the same login answer as the bare address |
| AuthRoutes.Me | server/src/routes/authRoutes.js:122-151 | A missing or non-bearer header is 401 "No token provided". A token that fails to verify is "Invalid or expired token", and a verified token of a missing user is "User not found". Otherwise `/me` succeeds exactly when `requireAuth` would, returns that user's public view, and fails with the gate's own message |
| AuthRoutes.LoginTokenOpensMe | server/src/routes/authRoutes.js:101-147 | A token issued at login, sent back as a bearer header, makes `/me` return the same user |
| StoryModel.FindStory | server/src/routes/storiesroutes.js:115-118 | `findById` finds the first story with that id, and finds nothing exactly when none has it |
| NewestFirst.SortNewestFirst | server/src/routes/storiesroutes.js:41 | The result is ordered by `createdAt`, newest first, and is a permutation of its input |
| Uploads.UploadLimits | server/src/routes/storiesroutes.js:24-33 | The limit is 2097152 bytes, inclusive. The filter admits a present type starting with `image/`, case-sensitively |
| Uploads.Extname | server/src/routes/storiesroutes.js:18 | `path.extname` is empty, or a proper suffix of the path without its trailing slashes that starts with its only dot and holds no `/` |
| Uploads.ExtnameOfName | server/src/routes/storiesroutes.js:18 | In any directory, a non-empty stem (dots allowed) followed by `.` and a dot-free suffix has that dot and suffix as its extension, unless the name is `..` |
| Uploads.DotFileHasNoExtension | server/src/routes/storiesroutes.js:18 | In any directory, a name whose only dot is its first character has no extension |
| Uploads.ExtensionAfterLastDot | server/src/routes/storiesroutes.js:18 | `my.photo.png` has the extension `.png`: only the last dot counts |
| Uploads.NoDotStoredAsJpg | server/src/routes/storiesroutes.js:18 | A name without a dot has no extension and is stored as `.jpg` |
| Uploads.StoredExtension | server/src/routes/storiesroutes.js:18 | The stored extension is the original's when it has one, otherwise `.jpg` |
| Uploads.ExtnameOfPlainNames | server/src/routes/storiesroutes.js:18 | `photo.png` keeps `.png` |
| Uploads.ExtnameOfBareName | server/src/routes/storiesroutes.js:18 | `photo` has no extension and is stored as `.jpg` |
| Uploads.ExtensionWithTrailingSpace | server/src/routes/storiesroutes.js:18 | The extension of `photo.png ` keeps its trailing space |
| Uploads.NoExtensionWithTrailingSpace | server/src/routes/storiesroutes.js:18 | `photo ` has no extension and is stored as `.jpg` |
| Uploads.ExtnameOfDotNames | server/src/routes/storiesroutes.js:18 | A dot file such as `.png`, and `..`, have no extension |
| Uploads.Decimal | server/src/routes/storiesroutes.js:19 | The decimal form of a number is non-empty, all digits, with no leading zero |
| Uploads.ParseDecimalRoundTrip | server/src/routes/storiesroutes.js:19 | Reading back a number's decimal form gives the number |
| Uploads.GeneratedFilename | server/src/routes/storiesroutes.js:17-20 | The name starts with the timestamp and `-` and ends with the stored extension |
| Uploads.GeneratedFilenameInjective | server/src/routes/storiesroutes.js:17-20 | Equal generated names have equal timestamps, equal random parts and equal extensions |
| StoryRoutes.ListStories | server/src/routes/storiesroutes.js:39-49 | The list holds every story once, newest first. `isOwner` holds exactly when a viewer is attached and is the story's author |
| StoryRoutes.AnonymousOwnsNothing | server/src/routes/storiesroutes.js:46 | Without a viewer no story is marked as owned |
| StoryRoutes.CreateError | server/src/routes/storiesroutes.js:63-75 | Title, location, description, then file: each message appears exactly when the earlier checks pass and its own fails; no error exactly when every field is present and valid after trimming and a file arrived |
| StoryRoutes.CreateStory | server/src/routes/storiesroutes.js:59-87 | A failure is a 400 with the first message and adds nothing. Success appends one valid story with the fresh id (an `ObjectId`'s lower-case text), the trimmed text, the upload URL and the caller as author |
| StoryRoutes.AuthorCanEditAndDelete | server/src/routes/storiesroutes.js:115-166 | The author of a just-created story finds it by its id, can update it exactly when the update validators accept, and deleting it restores the earlier collection |
| StoryRoutes.UploadUrlSurvivesTrim | server/src/models/Story.js:8 | An upload URL survives the `imageUrl` setter as a required, trimmed value |
| StoryRoutes.StoredUrlMissesFileIff | server/src/routes/storiesroutes.js:18-19 | The trimmed stored URL differs from the generated file's URL exactly when the stored extension ends in whitespace |
| StoryRoutes.StoredUrlCanMissFile | server/src/routes/storiesroutes.js:18-19 | For every original name that has an extension and ends in whitespace, the trimmed stored URL differs from the generated file's URL |
| StoryRoutes.CreatePreservesWellFormed | server/src/models/Story.js:5-17 | Creating keeps every story valid, every id in stored `ObjectId` form, and the ids distinct |
| StoryRoutes.UpdateStory | server/src/routes/storiesroutes.js:109-144 | An id that is not 24 hexadecimal digits cannot be cast, so the catch-all answers 400 "Failed to update story". A castable id is looked up in lower case. A missing id is 404, checked before ownership; another author's story is 403; a supplied field failing the schema is 400. Failures change nothing. Success replaces only the supplied fields and the image when a file came, and keeps id, author and `createdAt` |
| StoryRoutes.UpdatePreservesWellFormed | server/src/routes/storiesroutes.js:131-134 | Updating with validators keeps every story valid and the ids distinct |
| StoryRoutes.DeleteStory | server/src/routes/storiesroutes.js:152-168 | An id that cannot be cast is 400 "Failed to delete story". A missing id is 404; another author's story is 403 and nothing changes; otherwise `{ok: true}` and the story is removed in place |
| StoryRoutes.DeleteRemovesExactlyOne | server/src/routes/storiesroutes.js:165-166 | A successful delete removes exactly the story with that id (in lower case) and keeps all others and the invariant |
| StoryRoutes.IdCaseIgnored | server/src/routes/storiesroutes.js:115-154 | An id and its lower-case form give the same answer and the same store, for update and delete |
| StoryRoutes.OwnershipGate | server/src/routes/storiesroutes.js:120-123 | For an authored story, edit and delete are allowed exactly for its author. An ownerless story is open to every authenticated caller |
| DestinationRoutes.SeedsComplete | server/src/routes/destinationsRoutes.js:7-92 | There are 12 seed entries, each with a non-empty title, location, description, image URL and region |
| DestinationRoutes.SeedRecords | server/src/routes/destinationsRoutes.js:104 | `insertMany` stores the seed entries in order, each with its fresh id and its own `createdAt` |
| DestinationRoutes.SeedIfEmpty | server/src/routes/destinationsRoutes.js:103-105 | An empty store receives the seeds; a non-empty one is unchanged; afterwards the store is non-empty |
| DestinationRoutes.ListDestinations | server/src/routes/destinationsRoutes.js:98-108 | Returns the whole (possibly just seeded) store, newest first, as a permutation; 12 records when it started empty |
| DestinationRoutes.PreviewDestinations | server/src/routes/destinationsRoutes.js:119-129 | Returns the first `min(3, size)` records in storage order under the same seeding rule; 3 when it started empty |
| DestinationRoutes.NoDoubleSeeding | server/src/routes/destinationsRoutes.js:100-106 | Two reads in a row from an empty store seed once and return the same 12 records |
| DestinationRoutes.NonEmptyStoreUntouched | server/src/routes/destinationsRoutes.js:119-129 | Neither read inserts into a non-empty store |
| Favorites.AddFavorite | client/my-app/src/redux/favoritesSlice.js:32-39 | A new id is appended at the end and the new list is saved. An existing id leaves the list unchanged and saves nothing. The timestamp is set either way, and ids stay distinct |
| Favorites.Without | client/my-app/src/redux/favoritesSlice.js:41 | The filter keeps exactly the items with another id, and none with that id |
| Favorites.WithoutDistributes | client/my-app/src/redux/favoritesSlice.js:41 | Filtering a concatenation concatenates the filtered parts, so the kept items stay in order |
| Favorites.WithoutAbsent | client/my-app/src/redux/favoritesSlice.js:41 | Filtering out an id nobody has changes nothing |
| Favorites.WithoutUnique | client/my-app/src/redux/favoritesSlice.js:41 | Filtering keeps ids distinct |
| Favorites.RemoveFavorite | client/my-app/src/redux/favoritesSlice.js:40-44 | Drops the id, saves the result, sets the timestamp, changes nothing for an absent id and keeps ids distinct |
| Favorites.ClearFavorites | client/my-app/src/redux/favoritesSlice.js:45-49 | The list becomes empty, the empty list is saved, and the timestamp is set |
| Favorites.AddThenRemove | client/my-app/src/redux/favoritesSlice.js:32-44 | Adding a fresh id and then removing it restores and saves the earlier list |
| Favorites.LoadFromStorage | client/my-app/src/redux/favoritesSlice.js:4-14 | Nothing saved, an empty string, or a failed parse give `[]`; otherwise the parsed list |
| Favorites.ReloadRestoresSaved | client/my-app/src/redux/favoritesSlice.js:17-30 | Whatever an action saved is the list the next start of the app loads |
| Favorites.ClearSurvivesReload | client/my-app/src/redux/favoritesSlice.js:4-49 | After clearing, the next start of the app loads no favourites |
| TripCard.FavoriteClick | client/my-app/src/components/TripCard.jsx:21-26 | A saved trip (by id) is removed by id; any other trip is added as it is |
| TripCard.ClickTwiceRestores | client/my-app/src/components/TripCard.jsx:23-26 | Each click flips whether the trip is saved, and two clicks on an unsaved trip restore the list |
| TripCard.ImageSource | client/my-app/src/components/TripCard.jsx:6-36 | An empty or absent URL gives the fallback image. A URL starting with `http` is used as is. Anything else is prefixed with `http://localhost:5000`. The result always starts with `http` |
| TripCard.ImageSourceOfStoredUrls | client/my-app/src/components/TripCard.jsx:32-36 | A story's `/uploads/…` path resolves on the API server; an absolute seed image is used unchanged |
| TripCard.EditPath | client/my-app/src/components/TripCard.jsx:28-30 | The edit link lies under `/edit-story/` |
| TripCard.EditRouteRoundTrip | client/my-app/src/App.js:31 | The `/edit-story/:id` route hands back exactly the card's id when the id is one path segment |
| ApiPage.Destinations | client/my-app/src/pages/ApiPage.jsx:13 | The list is the fetched array, or empty for anything that is not an array |
| ApiPage.ExploreListsServerReply | client/my-app/src/pages/ApiPage.jsx:11-13 | The explore page lists every stored destination (the seeds for an empty store) once, newest first; a reply that is not an array lists nothing |
| ApiPage.ToFavorite | client/my-app/src/pages/ApiPage.jsx:20-26 | The favourite takes `_id` as its id and the four card fields, and has no author |
| ApiPage.ToggleFav | client/my-app/src/pages/ApiPage.jsx:19-29 | A saved destination is removed by its id; otherwise its projection is added |
| ApiPage.ToggleTwiceRestores | client/my-app/src/pages/ApiPage.jsx:19-29 | Each toggle flips the saved state; two toggles from unsaved restore the list |
| ApiPage.SavedDestinationIsFavoriteCard | client/my-app/src/pages/ApiPage.jsx:19-29 | A destination saved here shows as saved on a trip card |
| AuthContext.Init | client/my-app/src/context/AuthContext.jsx:8-10 | Starts from the stored token, no user, loading |
| AuthContext.CheckAuth | client/my-app/src/context/AuthContext.jsx:13-41 | Loading ends in every case. Without a token nothing else changes. An accepted token loads the user. A rejected one is removed from storage and state. A failed request changes nothing. Storage is only ever cleared |
| AuthContext.SignIn | client/my-app/src/context/AuthContext.jsx:51-60 | On success the token goes to storage and state and the user is set. On failure the server's message, or the fallback, is thrown and nothing changes |
| AuthContext.Login | client/my-app/src/context/AuthContext.jsx:44-61 | Signed in afterwards exactly when the server succeeded or the session already was; a failure keeps the session and falls back to "Login failed" |
| AuthContext.Register | client/my-app/src/context/AuthContext.jsx:64-81 | As login, with the fallback "Registration failed" |
| AuthContext.Logout | client/my-app/src/context/AuthContext.jsx:84-88 | No token in storage or state, not authenticated |
| AuthContext.LoginSurvivesCheck | client/my-app/src/context/AuthContext.jsx:13-59 | After a login the server accepts, the check against `/me` keeps the same user signed in, also after a reload from storage |
| AuthContext.RejectedTokenIsForgotten | client/my-app/src/context/AuthContext.jsx:28-32 | A rejected stored token signs the client out, and the check re-run after that sends nothing |
| AuthContext.FailedLoginKeepsSession | client/my-app/src/context/AuthContext.jsx:53-55 | A login with both fields filled that the server refuses keeps the session and shows "Invalid email or password" |
| StoryForms.TextErrors | client/my-app/src/pages/FormPage.jsx:31-34 | Title (trimmed length under 3), location (trimmed empty) and description (trimmed length under 10) each get their message, independently |
| StoryForms.ImageError | client/my-app/src/pages/FormPage.jsx:39-41 | A chosen file passes exactly when its type starts with `image/` and it is at most 2 MiB; the size message wins over the type message |
| StoryForms.ImageSizeBoundary | client/my-app/src/pages/FormPage.jsx:40-41 | A file of exactly 2 MiB passes; one byte more gets the size message, even for a non-image |
| StoryForms.CreateErrors | client/my-app/src/pages/FormPage.jsx:28-45 | The text rules, plus "Trip photo is required." with no file; the form is clean exactly when the text is valid and a valid image is chosen |
| StoryForms.EditErrors | client/my-app/src/pages/EditStoryPage.jsx:60-73 | The same text rules; no image is fine, and a chosen one is checked as on the add form |
| StoryForms.FormsAgree | client/my-app/src/pages/EditStoryPage.jsx:62-69 | Both forms give the same text errors, and the same image error for a chosen file |
| StoryForms.Payload | client/my-app/src/pages/FormPage.jsx:62-66 | The text fields are sent trimmed |
| StoryForms.SubmitCreate | client/my-app/src/pages/FormPage.jsx:47-66 | A request is sent exactly when there are no errors, with the trimmed text and the image; otherwise the errors are shown |
| StoryForms.SubmitEdit | client/my-app/src/pages/EditStoryPage.jsx:75-96 | A request is sent exactly when there are no errors, with the trimmed text and the image only if one was chosen |
| StoryForms.ClearedForm | client/my-app/src/pages/FormPage.jsx:81-86 | After success every text field is empty and no image is chosen |
| StoryForms.ClearedFormIsBlocked | client/my-app/src/pages/FormPage.jsx:28-45 | The cleared form reports an error on all four fields |
| StoryForms.UploadAgreesWithForm | server/src/routes/storiesroutes.js:24-33 | The server's filter and size limit, applied to the browser's file part, agree with the forms' image rules |
| StoryForms.TextAgreesWithServer | server/src/routes/storiesroutes.js:63-71 | The server's create checks and its update validators accept the trimmed payload exactly when the forms' text rules pass |
| StoryForms.CreateAgreesWithServer | client/my-app/src/pages/FormPage.jsx:28-66 | The add form sends a story exactly when it has a photo and the server's filter, limit and create checks accept it |
| StoryForms.EditAgreesWithServer | client/my-app/src/pages/EditStoryPage.jsx:60-96 | The edit form sends an update exactly when the server's filter, limit and validators accept it |
| StoryForms.LoadForEdit | client/my-app/src/pages/EditStoryPage.jsx:25-47 | A failed fetch shows "Failed to load story". A story with the route's id fills the form from the first match, with no image chosen. Otherwise "Story not found" |
| StoryForms.UnchangedEditIsSent | client/my-app/src/pages/EditStoryPage.jsx:30-36 | Saving a stored story unchanged sends its own text back and no image |
| RegisterPage.HandleSubmit | client/my-app/src/pages/RegisterPage.jsx:17-41 | Name, email, password length, then confirmation: each message appears exactly when the earlier checks pass and its own fails. `register` is called exactly when all four pass, with the trimmed name and the raw email and password |
| RegisterPage.FormAgreesWithServer | client/my-app/src/pages/RegisterPage.jsx:22-41 | The page shows exactly the server's first error when there is one; otherwise it sends the request when the confirmation matches and reports the mismatch when it does not. A request it sends passes the server's checks |
| RegisterPage.AcceptedSubmitSignsIn | client/my-app/src/pages/RegisterPage.jsx:39-41 | An accepted submit for an unused address creates the account and signs in as the trimmed name and lower-cased address |
| AppTheme.ToggleTheme | client/my-app/src/App.js:18-20 | Light becomes dark, everything else becomes light, and the result is always one of the two |
| AppTheme.ThemeClass | client/my-app/src/App.js:24 | The class is `theme-dark` exactly for the dark theme, otherwise `theme-light` |
| AppTheme.ToggleTwice | client/my-app/src/App.js:18-20 | Two toggles restore light or dark |
| AppTheme.DefaultThenToggle | client/my-app/src/App.js:16-24 | A fresh start shows the light class, and one toggle shows the dark class |

## Left out

- JSON Web Token signing and checking, and bcrypt, are function parameters. Signatures, expiry arithmetic and hash strength are not modelled. `Tokens.VerifiesOwnTokens` states the one property the lemmas rely on: an issued token verifies to its own payload, is non-empty and contains no space.
- JsText.ToLower: only ASCII letters are mapped. Full Unicode case mapping is not modelled.
- Request bodies are `Option<string>` per field. JSON values that are not strings (numbers, arrays, objects) are not modelled.
- Every 500 branch is left out: database errors, and exceptions other than those named.
- The upload middleware's error branches inside the create and update handlers (`Only image files`, `LIMIT_FILE_SIZE`) are left out. `upload.single` runs before the handler, so its errors do not reach those blocks. The filter and the limit are modelled as predicates instead (`Uploads.AcceptsMimeType`, `Uploads.WithinSizeLimit`).
- AuthRoutes.Register: the duplicate-key (11000) and `ValidationError` branches are not modelled. `AuthRoutes.RegisterChecksImplySchema` shows the route's checks already imply the schema's, so they are unreachable one request at a time. The fresh database id is a parameter that must not already be in use.
- Concurrent requests are left out, including two first reads of an empty destination catalogue seeding it twice. Only sequential calls are modelled.
- StoryRoutes.ListStories: the order of stories with equal `createdAt` is not specified by the database. The model fixes one admissible order (a stable sort).
- `populate("author", …)` is left out; the listed story carries its author id only.
- StoryRoutes.UpdateStory: an absent form field is `None` and keeps the stored value. How Mongoose casts other values in `findByIdAndUpdate` is not modelled.
- StoryRoutes.UpdateStory and StoryRoutes.DeleteStory: a route id is castable when it is 24 hexadecimal digits. Older BSON releases also accept any 12-character string as raw id bytes; that reading is not modelled.
- DestinationRoutes.PreviewDestinations: `find().limit(3)` has no sort, so the database may return any three records. The model returns the first three in storage order, which is one admissible answer, and promises nothing about which three a real database picks.
- DestinationRoutes.SeedRecords: each record's `createdAt` comes from the clock when the document is built. The clock readings are a parameter, one per seed entry.
- Favorites.LoadFromStorage: `JSON.parse` is a parameter returning a list or nothing. Saved text that parses to a non-list is not modelled, and storage write failures are ignored (the source only logs them).
- AuthContext.CheckAuth: an OK reply whose body does not parse counts as `NetworkError`, since the source catches both in the same block. Network and HTTP plumbing is left out.
- Uploads.GeneratedFilename: `Date.now()` and `Math.round(Math.random() * 1e9)` are natural-number parameters written in decimal. JavaScript's exponent notation for numbers of 10^21 and above is not modelled; neither value reaches that.
- React rendering, navigation, timeouts, object-URL previews and the loading and submitting flags of the forms are left out.
- The following files are not part of this model:
  - `useFetch.js`: fetch plumbing; its result reaches the model as `ApiPage.FetchedData`.
  - `HomePage.jsx`: a confirm dialog and fetches.
  - `Navbar.jsx` and `FavoritesPage.jsx`: display and single dispatches.
  - `LoginPage.jsx`: only a presence check, which the server repeats.
  - `ApiPreview.jsx`: renders through the trip card.
  - `server.js`: wiring.
  - `useLocalStorage.js` (the theme's storage hook): the theme is modelled as its stored value.
- `Destination.js` supplies only the record shape of `DestinationRoutes.Destination`.
- Which gate guards which route is stated in the modules' comments and in how the functions are called, not as routing tables.
