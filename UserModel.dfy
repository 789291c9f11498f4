/** The User schema: its setters (trim, lowercase), its validators
    (required, minlength), its two unique indexes and the `toJSON`
    projection that hides the password. */
module UserModel {
  import opened Common
  import opened Text

  const USERNAME_MIN_LENGTH: nat := 3
  const PASSWORD_MIN_LENGTH: nat := 6

  /** The fields handed to `new User(...)` or to an update's `$set`; an
      absent field is `None`. */
  datatype UserFields = UserFields(username: Option<string>, email: Option<string>, password: Option<string>)

  /** A stored user document. */
  datatype User = User(id: Id, username: string, email: string, password: string, createdAt: Time, updatedAt: Time)

  /** What `toJSON` (and a query with `select("-password")`) leaves of a user. */
  datatype UserJson = UserJson(id: Id, username: string, email: string, createdAt: Time, updatedAt: Time)

  /** The setters of each path. */
  function NormalUsername(raw: string): string { Trim(raw) }
  function NormalEmail(raw: string): string { ToLower(Trim(raw)) }

  /** The validators of each path, applied to the value after its setters:
      `required` refuses "", `minlength` counts the UTF-16 code units of
      the trimmed value, as JavaScript's `length` does. */
  predicate UsernameAccepted(raw: string) { Utf16Length(NormalUsername(raw)) >= USERNAME_MIN_LENGTH }
  predicate EmailAccepted(raw: string) { NormalEmail(raw) != "" }
  predicate PasswordAccepted(raw: string) { Utf16Length(raw) >= PASSWORD_MIN_LENGTH }

  /** The validators of the paths that are present, as an update with
      `runValidators` runs them. */
  predicate GivenFieldsAccepted(f: UserFields) {
    && (f.username.Some? ==> UsernameAccepted(f.username.value))
    && (f.email.Some? ==> EmailAccepted(f.email.value))
    && (f.password.Some? ==> PasswordAccepted(f.password.value))
  }

  /** Validation of a new document: every path is required. */
  predicate Accepted(f: UserFields) {
    f.username.Some? && f.email.Some? && f.password.Some? && GivenFieldsAccepted(f)
  }

  /** What every stored user satisfies: its values are fixed points of the
      setters and meet the validators. */
  predicate WellFormed(u: User) {
    && NormalUsername(u.username) == u.username && Utf16Length(u.username) >= USERNAME_MIN_LENGTH
    && NormalEmail(u.email) == u.email && u.email != ""
    && Utf16Length(u.password) >= PASSWORD_MIN_LENGTH
  }

  lemma NormalEmailIdempotent(raw: string)
    ensures NormalEmail(NormalEmail(raw)) == NormalEmail(raw)
  {
    LowerTrimIdempotent(raw);
  }

  /** The document `new User(f)` builds at time `now`, with `timestamps`:
      the supplied values through their setters, the given identifier and
      both timestamps at `now`. */
  function Build(f: UserFields, id: Id, now: Time): (u: User)
    requires Accepted(f)
    ensures WellFormed(u)
    ensures u.id == id && u.createdAt == now && u.updatedAt == now
    ensures u.username == NormalUsername(f.username.value)
    ensures u.email == NormalEmail(f.email.value)
    ensures u.password == f.password.value
  {
    NormalEmailIdempotent(f.email.value);
    User(id, NormalUsername(f.username.value), NormalEmail(f.email.value), f.password.value, now, now)
  }

  /** `$set` of the present fields, through their setters, with `updatedAt`
      refreshed: a well-formed user stays well-formed and every field that
      is not supplied keeps its value. */
  function ApplyUpdate(u: User, f: UserFields, now: Time): (r: User)
    requires WellFormed(u) && GivenFieldsAccepted(f)
    ensures WellFormed(r)
    ensures r.id == u.id && r.createdAt == u.createdAt && r.updatedAt == now
    ensures f.username.None? ==> r.username == u.username
    ensures f.email.None? ==> r.email == u.email
    ensures f.password.None? ==> r.password == u.password
    ensures f.username.Some? ==> r.username == NormalUsername(f.username.value)
    ensures f.email.Some? ==> r.email == NormalEmail(f.email.value)
    ensures f.password.Some? ==> r.password == f.password.value
  {
    NormalEmailIdempotent(if f.email.Some? then f.email.value else u.email);
    u.(username := if f.username.Some? then NormalUsername(f.username.value) else u.username,
       email := if f.email.Some? then NormalEmail(f.email.value) else u.email,
       password := if f.password.Some? then f.password.value else u.password,
       updatedAt := now)
  }

  /** The users collection, by `_id`. */
  type Table = map<Id, User>

  /** Every stored document is filed under its own well-formed identifier. */
  predicate Stored(t: Table) {
    forall k :: k in t ==> ValidId(k) && t[k].id == k && WellFormed(t[k])
  }

  /** The two unique indexes: usernames distinct, emails distinct. */
  predicate UniqueIndex(t: Table) {
    forall a, b :: a in t && b in t && a != b ==>
      t[a].username != t[b].username && t[a].email != t[b].email
  }

  predicate Invariant(t: Table) { Stored(t) && UniqueIndex(t) }

  /** Another stored document already holds this username or this e-mail. */
  predicate Held(t: Table, id: Id, username: string, email: string) {
    exists k :: k in t && k != id && (t[k].username == username || t[k].email == email)
  }

  /** The unique indexes accept writing `u` under `u.id`: no other
      document holds its username or its e-mail. */
  predicate IndexAdmits(t: Table, u: User) {
    !Held(t, u.id, u.username, u.email)
  }

  /** `user.save()` of a new document: validation first, then the unique
      indexes. The save succeeds exactly when the fields are accepted and
      no other document holds the normalised username or e-mail; a saved
      document is well-formed, clashes with nothing and holds the supplied
      values through their setters. */
  function Save(t: Table, id: Id, f: UserFields, now: Time): (r: SaveResult<User>)
    ensures r.Saved? <==> Accepted(f) && !Held(t, id, NormalUsername(f.username.value), NormalEmail(f.email.value))
    ensures r.Saved? ==> && r.doc.id == id && WellFormed(r.doc) && IndexAdmits(t, r.doc)
                         && r.doc.username == NormalUsername(f.username.value)
                         && r.doc.email == NormalEmail(f.email.value)
                         && r.doc.password == f.password.value
                         && r.doc.createdAt == now && r.doc.updatedAt == now
    ensures r.Rejected? ==> (r.fault == ValidationError <==> !Accepted(f))
    ensures r.Rejected? ==> r.fault == ValidationError || r.fault == DuplicateKey(DUPLICATE_KEY_CODE)
  {
    if !Accepted(f) then Rejected(ValidationError)
    else
      var u := Build(f, id, now);
      if IndexAdmits(t, u) then Saved(u) else Rejected(DuplicateKey(DUPLICATE_KEY_CODE))
  }

  /** Removing a document keeps the collection invariant. */
  lemma RemoveKeepsInvariant(t: Table, id: Id)
    requires Invariant(t)
    ensures Invariant(t - {id})
  {
    var t' := t - {id};
    forall k | k in t' ensures t'[k] == t[k] { }
  }

  /** Writing a document the indexes admit keeps the collection invariant. */
  lemma WriteKeepsInvariant(t: Table, u: User)
    requires Invariant(t) && ValidId(u.id) && WellFormed(u) && IndexAdmits(t, u)
    ensures Invariant(t[u.id := u])
  {
    WriteKeepsStored(t, u);
    WriteKeepsUnique(t, u);
  }

  lemma WriteKeepsStored(t: Table, u: User)
    requires Stored(t) && ValidId(u.id) && WellFormed(u)
    ensures Stored(t[u.id := u])
  {
    var t' := t[u.id := u];
    forall k | k in t' ensures ValidId(k) && t'[k].id == k && WellFormed(t'[k]) {
      if k != u.id { assert t'[k] == t[k]; }
    }
  }

  lemma WriteKeepsUnique(t: Table, u: User)
    requires UniqueIndex(t) && IndexAdmits(t, u)
    ensures UniqueIndex(t[u.id := u])
  {
  }

  /** A user without a username, an email or a password is refused by
      validation, whatever the collection holds. */
  lemma MissingFieldRejected(t: Table, id: Id, f: UserFields, now: Time)
    requires f.username.None? || f.email.None? || f.password.None?
    ensures Save(t, id, f, now) == Rejected(ValidationError)
  {
  }

  /** A save whose normalised username or email is already held by another
      stored document fails with the duplicate-key code. */
  lemma SaveOfTakenRejected(t: Table, id: Id, f: UserFields, now: Time, k: Id)
    requires Accepted(f) && k in t && k != id
    requires t[k].username == NormalUsername(f.username.value)
          || t[k].email == NormalEmail(f.email.value)
    ensures Save(t, id, f, now) == Rejected(DuplicateKey(DUPLICATE_KEY_CODE))
  {
    assert !IndexAdmits(t, Build(f, id, now));
  }

  /** After one save, a second one whose username or email normalises to
      the same value fails with the duplicate-key code. */
  lemma SecondSaveRejected(t: Table, id1: Id, f1: UserFields, now1: Time, u: User,
                           id2: Id, f2: UserFields, now2: Time)
    requires Save(t, id1, f1, now1) == Saved(u) && id1 != id2 && Accepted(f2)
    requires NormalUsername(f2.username.value) == NormalUsername(f1.username.value)
          || NormalEmail(f2.email.value) == NormalEmail(f1.email.value)
    ensures Save(t[id1 := u], id2, f2, now2) == Rejected(DuplicateKey(DUPLICATE_KEY_CODE))
  {
    assert u.username == NormalUsername(f1.username.value) && u.email == NormalEmail(f1.email.value);
    SaveOfTakenRejected(t[id1 := u], id2, f2, now2, id1);
  }

  /** Lengths are JavaScript's: a character outside the Basic Multilingual
      Plane counts twice, so a letter and an emoji make a long enough
      username, and three emoji a long enough password. */
  lemma SupplementaryCharactersCountTwice()
    ensures UsernameAccepted("a\U{1F600}")
    ensures PasswordAccepted("\U{1F600}\U{1F600}\U{1F600}")
  {
    assert IsTrimmed("a\U{1F600}");
  }

  /** `toJSON`: the user without its password. Putting the password back
      gives the user again, so nothing else is lost or altered. */
  function ToJson(u: User): (j: UserJson)
    ensures WithPassword(j, u.password) == u
  {
    UserJson(u.id, u.username, u.email, u.createdAt, u.updatedAt)
  }

  function WithPassword(j: UserJson, password: string): User {
    User(j.id, j.username, j.email, password, j.createdAt, j.updatedAt)
  }
}
