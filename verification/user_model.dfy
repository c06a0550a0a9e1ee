/** The user collection: the schema's field rules, the hash-on-save hook, password
    comparison, and the two look-ups the routes make. */
module UserModel {
  import opened Wrappers
  import opened JsText
  import opened EmailPattern

  /** The string form of a user's database id. */
  type UserId = string

  /** A stored user. `passwordHash` is the one-way hash; reads without `+password` omit it,
      which is why the routes only ever answer with a `PublicUser`. */
  datatype User = User(id: UserId, name: string, email: string, passwordHash: string)

  /** The `{ id, name, email }` object the auth routes send back. */
  datatype PublicUser = PublicUser(id: UserId, name: string, email: string)

  function ToPublic(u: User): PublicUser {
    PublicUser(u.id, u.name, u.email)
  }

  const MinNameLength: nat := 2
  const MinPasswordLength: nat := 6

  /** The setters of the `name` field: `trim`. */
  function StoredName(name: string): string {
    Trim(name)
  }

  /** The setters of the `email` field: `lowercase`, then `trim`. */
  function StoredEmail(email: string): string {
    Trim(ToLower(email))
  }

  /** The schema validators, applied to the values after the setters and to the password
      before it is hashed: every field required (non-empty), name at least 2 and password at
      least 6 UTF-16 code units, and the address matching the e-mail pattern. */
  predicate SchemaAccepts(name: string, email: string, password: string) {
    && name != [] && Utf16Length(name) >= MinNameLength
    && email != [] && Matches(email)
    && password != [] && Utf16Length(password) >= MinPasswordLength
  }

  /** What every stored user satisfies: a trimmed name long enough for the schema, and an
      address matching the pattern that lower-casing does not change (so it is in the form
      the setters store, see `ValidUserIsStoredForm`). */
  predicate ValidUser(u: User) {
    && Trimmed(u.name) && u.name != [] && Utf16Length(u.name) >= MinNameLength
    && ToLower(u.email) == u.email && Matches(u.email)
  }

  /** A valid user's fields are what the setters produce from them. */
  lemma ValidUserIsStoredForm(u: User)
    requires ValidUser(u)
    ensures StoredName(u.name) == u.name
    ensures StoredEmail(u.email) == u.email
  {
    TrimFixpoint(u.name);
    MatchesTrimmed(u.email);
  }

  /** No two users share an id. */
  predicate UniqueIds(users: seq<User>) {
    forall i, j :: 0 <= i < j < |users| ==> users[i].id != users[j].id
  }

  /** No two users share an address: the `unique` index on `email`. */
  predicate UniqueEmails(users: seq<User>) {
    forall i, j :: 0 <= i < j < |users| ==> users[i].email != users[j].email
  }

  /** The collection invariant: every user valid, ids and addresses unique. */
  predicate WellFormedUsers(users: seq<User>) {
    && (forall i :: 0 <= i < |users| ==> ValidUser(users[i]))
    && UniqueIds(users)
    && UniqueEmails(users)
  }

  /** `User.findById`: the user with that id, if any. */
  function FindById(users: seq<User>, id: UserId): (r: Option<User>)
    ensures r.Some? ==> r.value in users && r.value.id == id
    ensures r.None? <==> forall i :: 0 <= i < |users| ==> users[i].id != id
  {
    if users == [] then None
    else if users[0].id == id then Some(users[0])
    else FindById(users[1..], id)
  }

  /** `User.findOne({ email })`: the first user stored under exactly that address. */
  function FindByEmail(users: seq<User>, email: string): (r: Option<User>)
    ensures r.Some? ==> r.value in users && r.value.email == email
    ensures r.None? <==> forall i :: 0 <= i < |users| ==> users[i].email != email
  {
    if users == [] then None
    else if users[0].email == email then Some(users[0])
    else FindByEmail(users[1..], email)
  }

  /** With unique ids, `FindById` finds the one user carrying the id. */
  lemma {:induction false} FindByIdUnique(users: seq<User>, k: nat)
    requires UniqueIds(users)
    requires k < |users|
    ensures FindById(users, users[k].id) == Some(users[k])
  {
    if k > 0 {
      assert users[0].id != users[k].id;
      assert UniqueIds(users[1..]);
      FindByIdUnique(users[1..], k - 1);
    }
  }

  /** The user document as the pre-save hook sees it: `password` holds plaintext until the
      hook replaces it by its hash. */
  datatype UserDoc = UserDoc(id: UserId, name: string, email: string, password: string)

  /** The pre-save hook: re-hash only when the password was modified (always, for a new
      document). `hash` stands for bcrypt with cost 12. */
  function PreSave(doc: UserDoc, passwordModified: bool, hash: string -> string): (r: UserDoc)
    ensures r.id == doc.id && r.name == doc.name && r.email == doc.email
    ensures !passwordModified ==> r == doc
    ensures passwordModified ==> r.password == hash(doc.password)
  {
    if passwordModified then doc.(password := hash(doc.password)) else doc
  }

  /** Saving a stored user again without touching the password keeps the hash as it is:
      a hash is never hashed a second time. */
  lemma ResaveKeepsHash(doc: UserDoc, hash: string -> string)
    ensures PreSave(PreSave(doc, true, hash), false, hash).password == hash(doc.password)
  {
  }

  /** `comparePassword`: bcrypt's comparison of a candidate against the stored hash, an
      oracle here. */
  function ComparePassword(compare: (string, string) -> bool, u: User, candidate: string): bool {
    compare(candidate, u.passwordHash)
  }
}
