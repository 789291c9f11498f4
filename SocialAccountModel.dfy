/** The SocialAccount schema: the platform enum, the required paths, the
    trimmed username, the `lastFetched` default and the unique compound
    index on (userId, platform, accountId). */
module SocialAccountModel {
  import opened Common
  import opened Text

  /** The values the `platform` enum admits. */
  datatype Platform = Twitter | Instagram | Tiktok

  function PlatformName(p: Platform): string {
    match p
    case Twitter => "twitter"
    case Instagram => "instagram"
    case Tiktok => "tiktok"
  }

  /** The enum validator: exactly the three names are admitted, each as
      the platform it names. */
  function ParsePlatform(s: string): (r: Option<Platform>)
    ensures r.Some? ==> PlatformName(r.value) == s
    ensures r.None? ==> s != "twitter" && s != "instagram" && s != "tiktok"
  {
    if s == "twitter" then Some(Twitter)
    else if s == "instagram" then Some(Instagram)
    else if s == "tiktok" then Some(Tiktok)
    else None
  }

  lemma ParsePlatformName(p: Platform)
    ensures ParsePlatform(PlatformName(p)) == Some(p)
  {
  }

  /** The fields handed to `new SocialAccount(...)` or to an update's
      `$set`; an absent field is `None`. */
  datatype AccountFields = AccountFields(
    platform: Option<string>,
    accountId: Option<string>,
    username: Option<string>,
    userId: Option<Id>,
    lastFetched: Option<Time>)

  /** A stored account document; `lastFetched` is `None` for null. */
  datatype SocialAccount = SocialAccount(
    id: Id,
    platform: Platform,
    accountId: string,
    username: string,
    userId: Id,
    lastFetched: Option<Time>,
    createdAt: Time,
    updatedAt: Time)

  /** The setter of the username path. */
  function NormalUsername(raw: string): string { Trim(raw) }

  /** The validators of each path, after its setter: `enum`, `required`
      (which refuses ""), and the ObjectId cast of the user reference. */
  predicate PlatformAccepted(raw: string) { ParsePlatform(raw).Some? }
  predicate AccountIdAccepted(raw: string) { raw != "" }
  predicate UsernameAccepted(raw: string) { NormalUsername(raw) != "" }
  predicate UserIdAccepted(raw: Id) { ValidId(raw) }

  /** The validators of the paths that are present. */
  predicate GivenFieldsAccepted(f: AccountFields) {
    && (f.platform.Some? ==> PlatformAccepted(f.platform.value))
    && (f.accountId.Some? ==> AccountIdAccepted(f.accountId.value))
    && (f.username.Some? ==> UsernameAccepted(f.username.value))
    && (f.userId.Some? ==> UserIdAccepted(f.userId.value))
  }

  /** Validation of a new document: all but `lastFetched` are required. */
  predicate Accepted(f: AccountFields) {
    && f.platform.Some? && f.accountId.Some? && f.username.Some? && f.userId.Some?
    && GivenFieldsAccepted(f)
  }

  /** What every stored account satisfies. */
  predicate WellFormed(a: SocialAccount) {
    && NormalUsername(a.username) == a.username && a.username != ""
    && a.accountId != ""
    && ValidId(a.userId)
  }

  /** The document `new SocialAccount(f)` builds at time `now`: every
      supplied value through its setter, `lastFetched` null by default,
      and both timestamps at `now`. */
  function Build(f: AccountFields, id: Id, now: Time): (a: SocialAccount)
    requires Accepted(f)
    ensures WellFormed(a)
    ensures a.id == id && a.createdAt == now && a.updatedAt == now
    ensures PlatformName(a.platform) == f.platform.value
    ensures a.accountId == f.accountId.value
    ensures a.username == NormalUsername(f.username.value)
    ensures a.userId == f.userId.value
    ensures a.lastFetched == f.lastFetched
  {
    SocialAccount(id, ParsePlatform(f.platform.value).value, f.accountId.value,
                  NormalUsername(f.username.value), f.userId.value, f.lastFetched, now, now)
  }

  /** `$set` of the present fields, through their setters, with `updatedAt`
      refreshed: a well-formed account stays well-formed and every field
      that is not supplied keeps its value. */
  function ApplyUpdate(a: SocialAccount, f: AccountFields, now: Time): (r: SocialAccount)
    requires WellFormed(a) && GivenFieldsAccepted(f)
    ensures WellFormed(r)
    ensures r.id == a.id && r.createdAt == a.createdAt && r.updatedAt == now
    ensures f.platform.None? ==> r.platform == a.platform
    ensures f.accountId.None? ==> r.accountId == a.accountId
    ensures f.username.None? ==> r.username == a.username
    ensures f.userId.None? ==> r.userId == a.userId
    ensures f.lastFetched.None? ==> r.lastFetched == a.lastFetched
    ensures f.platform.Some? ==> PlatformName(r.platform) == f.platform.value
    ensures f.accountId.Some? ==> r.accountId == f.accountId.value
    ensures f.username.Some? ==> r.username == NormalUsername(f.username.value)
    ensures f.userId.Some? ==> r.userId == f.userId.value
    ensures f.lastFetched.Some? ==> r.lastFetched == f.lastFetched
  {
    a.(platform := if f.platform.Some? then ParsePlatform(f.platform.value).value else a.platform,
       accountId := if f.accountId.Some? then f.accountId.value else a.accountId,
       username := if f.username.Some? then NormalUsername(f.username.value) else a.username,
       userId := if f.userId.Some? then f.userId.value else a.userId,
       lastFetched := if f.lastFetched.Some? then f.lastFetched else a.lastFetched,
       updatedAt := now)
  }

  /** The key of the unique compound index. */
  datatype IndexKey = IndexKey(userId: Id, platform: Platform, accountId: string)

  function Key(a: SocialAccount): IndexKey {
    IndexKey(a.userId, a.platform, a.accountId)
  }

  /** The socialaccounts collection, by `_id`. */
  type Table = map<Id, SocialAccount>

  predicate Stored(t: Table) {
    forall k :: k in t ==> ValidId(k) && t[k].id == k && WellFormed(t[k])
  }

  /** The unique compound index: no two accounts share (userId, platform,
      accountId). */
  predicate UniqueIndex(t: Table) {
    forall a, b :: a in t && b in t && a != b ==> Key(t[a]) != Key(t[b])
  }

  predicate Invariant(t: Table) { Stored(t) && UniqueIndex(t) }

  /** The unique index accepts writing `a` under `a.id`. */
  predicate IndexAdmits(t: Table, a: SocialAccount) {
    forall k :: k in t && k != a.id ==> Key(t[k]) != Key(a)
  }

  /** `account.save()` of a new document: validation first, then the
      unique index. The save succeeds exactly when the fields are accepted
      and the built document clashes with no stored key; a saved document
      is the one `new SocialAccount(f)` builds, well-formed and admitted. */
  function Save(t: Table, id: Id, f: AccountFields, now: Time): (r: SaveResult<SocialAccount>)
    ensures r.Saved? <==> Accepted(f) && IndexAdmits(t, Build(f, id, now))
    ensures r.Saved? ==> r.doc == Build(f, id, now) && WellFormed(r.doc) && IndexAdmits(t, r.doc)
    ensures r.Rejected? ==> (r.fault == ValidationError <==> !Accepted(f))
    ensures r.Rejected? ==> r.fault == ValidationError || r.fault == DuplicateKey(DUPLICATE_KEY_CODE)
  {
    if !Accepted(f) then Rejected(ValidationError)
    else
      var a := Build(f, id, now);
      if IndexAdmits(t, a) then Saved(a) else Rejected(DuplicateKey(DUPLICATE_KEY_CODE))
  }

  lemma WriteKeepsStored(t: Table, a: SocialAccount)
    requires Stored(t) && ValidId(a.id) && WellFormed(a)
    ensures Stored(t[a.id := a])
  {
    var t' := t[a.id := a];
    forall k | k in t' ensures ValidId(k) && t'[k].id == k && WellFormed(t'[k]) {
      if k != a.id { assert t'[k] == t[k]; }
    }
  }

  lemma WriteKeepsUnique(t: Table, a: SocialAccount)
    requires UniqueIndex(t) && IndexAdmits(t, a)
    ensures UniqueIndex(t[a.id := a])
  {
  }

  /** Removing a document keeps the collection invariant. */
  lemma RemoveKeepsInvariant(t: Table, id: Id)
    requires Invariant(t)
    ensures Invariant(t - {id})
  {
    var t' := t - {id};
    forall k | k in t' ensures t'[k] == t[k] { }
  }

  /** Writing a document the index admits keeps the collection invariant. */
  lemma WriteKeepsInvariant(t: Table, a: SocialAccount)
    requires Invariant(t) && ValidId(a.id) && WellFormed(a) && IndexAdmits(t, a)
    ensures Invariant(t[a.id := a])
  {
    WriteKeepsStored(t, a);
    WriteKeepsUnique(t, a);
  }

  /** A platform outside the enum, or a missing accountId, username or
      userId, is refused by validation. */
  lemma InvalidFieldsRejected(t: Table, id: Id, f: AccountFields, now: Time)
    requires || (f.platform.Some? && f.platform.value !in {"twitter", "instagram", "tiktok"})
             || f.platform.None? || f.accountId.None? || f.username.None? || f.userId.None?
    ensures Save(t, id, f, now) == Rejected(ValidationError)
  {
  }

  /** Saving the same (userId, platform, accountId) a second time, under
      another identifier, fails with the duplicate-key code. */
  lemma SecondSaveRejected(t: Table, id1: Id, f: AccountFields, now1: Time, a: SocialAccount,
                           id2: Id, now2: Time)
    requires Save(t, id1, f, now1) == Saved(a) && id1 != id2
    ensures Save(t[id1 := a], id2, f, now2) == Rejected(DuplicateKey(DUPLICATE_KEY_CODE))
  {
    var t' := t[id1 := a];
    var b := Build(f, id2, now2);
    assert id1 in t' && t'[id1] == a && Key(a) == Key(b);
    assert !IndexAdmits(t', b);
  }

  /** Two accounts whose keys differ in any one component can both be
      stored: a save is refused by the index only for an equal key. */
  lemma DistinctKeysCoexist(t: Table, id1: Id, f1: AccountFields, now1: Time, a: SocialAccount,
                            id2: Id, f2: AccountFields, now2: Time)
    requires Save(t, id1, f1, now1) == Saved(a) && id1 != id2
    requires Accepted(f2) && IndexAdmits(t, Build(f2, id2, now2))
    requires || f2.userId.value != f1.userId.value
             || f2.platform.value != f1.platform.value
             || f2.accountId.value != f1.accountId.value
    ensures Save(t[id1 := a], id2, f2, now2).Saved?
  {
    var b := Build(f2, id2, now2);
    assert Key(a) != Key(b);
    var t' := t[id1 := a];
    forall k | k in t' && k != b.id ensures Key(t'[k]) != Key(b) {
      if k != id1 { assert t'[k] == t[k]; }
    }
  }
}
