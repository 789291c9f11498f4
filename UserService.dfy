/** UserService: create, find, update and delete over the users
    collection, with a friendly duplicate pre-check in front of the unique
    indexes and every failure turned into a `ServiceResponse`. */
module UserService {
  import opened Common
  import opened Text
  import opened UserModel
  import opened ServiceTypes

  /** The pre-check of `create`: `findOne` with `$or` of `{username}` and
      `{email}`, read literally as a comparison of the values as supplied.
      (Mongoose may run the trim and lowercase setters on these query
      values; the model does not.) An absent value matches no stored
      user, since every stored user has both. */
  predicate CreateClash(users: Table, f: CreateUserDto) {
    exists k :: k in users && (Some(users[k].username) == f.username || Some(users[k].email) == f.email)
  }

  /** One `$or` clause of the pre-check of `update`: `{path: value}` when
      the value is truthy, and `{}`, which matches every document, when
      it is not. The value is compared as supplied, the same literal
      reading as `CreateClash`. */
  predicate ClauseMatches(supplied: Option<string>, stored: string) {
    Given(supplied) ==> stored == supplied.value
  }

  /** The query of the pre-check of `update`: another document (`_id: {$ne: id}`)
      matching either clause. */
  predicate UpdateClash(users: Table, id: Id, f: UpdateUserDto) {
    exists k :: k in users && k != id &&
      (ClauseMatches(f.username, users[k].username) || ClauseMatches(f.email, users[k].email))
  }

  /** The pre-check of `update` runs when a username or an email is truthy,
      and fails when its query finds a document. */
  predicate UpdatePreCheckFails(users: Table, id: Id, f: UpdateUserDto) {
    (Given(f.username) || Given(f.email)) && UpdateClash(users, id, f)
  }

  /** `findById`: the identifier is checked before the lookup, so a
      malformed one never reads as "not found"; the user comes back
      without its password. */
  function FindById(users: Table, id: Id): (r: ServiceResponse<UserJson>)
    ensures r.Success? <==> ValidId(id) && id in users
    ensures r.Success? ==> WithPassword(r.data, users[id].password) == users[id]
    ensures r.Failure? ==> r.error == if ValidId(id) then USER_NOT_FOUND else INVALID_USER_ID
  {
    if !ValidId(id) then Failure(INVALID_USER_ID)
    else if id !in users then Failure(USER_NOT_FOUND)
    else Success(ToJson(users[id]))
  }

  /** The query `findAll` builds: one clause per supplied filter, all of
      which must hold. Truthy username and email filters match
      case-insensitively anywhere in the value; the creation-date bounds
      are inclusive. With no filters every user matches. */
  predicate UserMatches(filters: Option<UserFilters>, u: User) {
    filters.Some? ==>
      var f := filters.value;
      && (Given(f.username) ==> MatchesIgnoringCase(f.username.value, u.username))
      && (Given(f.email) ==> MatchesIgnoringCase(f.email.value, u.email))
      && (f.createdAfter.Some? ==> u.createdAt >= f.createdAfter.value)
      && (f.createdBefore.Some? ==> u.createdAt <= f.createdBefore.value)
  }

  /** `findAll`: exactly the users that satisfy every supplied clause,
      each without its password. */
  function FindAll(users: Table, filters: Option<UserFilters>): (r: ServiceResponse<set<UserJson>>)
    ensures r.Success?
    ensures forall k :: k in users ==> (ToJson(users[k]) in r.data <==> UserMatches(filters, users[k]))
    ensures forall j :: j in r.data ==> exists k :: k in users && ToJson(users[k]) == j
  {
    Success(set k | k in users && UserMatches(filters, users[k]) :: ToJson(users[k]))
  }

  /** Without filters, or with every filter absent, `findAll` returns
      every user. */
  lemma FindAllUnfiltered(users: Table)
    ensures FindAll(users, None).data == set k | k in users :: ToJson(users[k])
    ensures FindAll(users, Some(UserFilters(None, None, None, None))) == FindAll(users, None)
  {
    var none := Some(UserFilters(None, None, None, None));
    var all := FindAll(users, None).data;
    var some := FindAll(users, none).data;
    forall j | j in all ensures j in some {
      var k :| k in users && ToJson(users[k]) == j;
      assert UserMatches(none, users[k]);
    }
    assert some == all;
  }

  /** A stored username or email, supplied to `update` of another user,
      makes the pre-check fail. */
  lemma TakenValueFailsPreCheck(users: Table, id: Id, f: UpdateUserDto, k: Id)
    requires k in users && k != id
    requires || (Given(f.username) && users[k].username == f.username.value)
             || (Given(f.email) && users[k].email == f.email.value)
    ensures UpdatePreCheckFails(users, id, f)
  {
    assert ClauseMatches(f.username, users[k].username) || ClauseMatches(f.email, users[k].email);
  }

  /** The pre-check of an `update` that supplies only a username (or only
      an email) fails as soon as any other user exists, because the
      missing field's clause is `{}`. */
  lemma OneFieldUpdateClashesWithAnyone(users: Table, id: Id, f: UpdateUserDto, k: Id)
    requires k in users && k != id
    requires Given(f.username) != Given(f.email)
    ensures UpdatePreCheckFails(users, id, f)
  {
    assert ClauseMatches(f.username, users[k].username) || ClauseMatches(f.email, users[k].email);
  }

  /** Re-supplying a user's own username and email passes the pre-check:
      the user itself is excluded, and the unique indexes keep every other
      user's values different. */
  lemma OwnValuesPassPreCheck(users: Table, id: Id, f: UpdateUserDto)
    requires Invariant(users) && id in users
    requires f.username == Some(users[id].username) && f.email == Some(users[id].email)
    ensures !UpdatePreCheckFails(users, id, f)
  {
    forall k | k in users && k != id
      ensures !ClauseMatches(f.username, users[k].username) && !ClauseMatches(f.email, users[k].email)
    {
      assert users[k].username != users[id].username && users[k].email != users[id].email;
    }
  }

  /** A collection holding one user, "alice", and the fields of a second
      user whose username differs from hers only by a leading space. */
  const ALICE_ID: Id := "000000000000000000000001"
  const ALICE_ONLY: Table := map[ALICE_ID := User(ALICE_ID, "alice", "a@x.com", "secretpw", 0, 0)]
  const SPACED_ALICE: CreateUserDto := UserFields(Some(" alice"), Some("b@x.com"), Some("other12"))

  /** Under the literal reading of the create pre-check, a username that
      differs from a stored one only by white space passes it and is then
      refused by the unique index, on the normalised value. */
  lemma WhitespaceVariantReachesIndex()
    ensures !CreateClash(ALICE_ONLY, SPACED_ALICE)
    ensures Save(ALICE_ONLY, "000000000000000000000002", SPACED_ALICE, 1) == Rejected(DuplicateKey(DUPLICATE_KEY_CODE))
  {
    VariantPassesPreCheck();
    VariantFieldsAccepted();
    SaveOfTakenRejected(ALICE_ONLY, "000000000000000000000002", SPACED_ALICE, 1, ALICE_ID);
  }

  lemma VariantPassesPreCheck()
    ensures !CreateClash(ALICE_ONLY, SPACED_ALICE)
  {
    forall k | k in ALICE_ONLY
      ensures Some(ALICE_ONLY[k].username) != SPACED_ALICE.username
      ensures Some(ALICE_ONLY[k].email) != SPACED_ALICE.email
    {
      assert |ALICE_ONLY[k].username| != |" alice"|;
      assert ALICE_ONLY[k].email[0] != 'b';
    }
  }

  /** The fields of the white-space variant pass validation, and " alice"
      normalises to "alice". */
  lemma VariantFieldsAccepted()
    ensures Accepted(SPACED_ALICE)
    ensures NormalUsername(" alice") == "alice"
  {
    assert " alice"[1..] == "alice";
    assert Trim(" alice") == "alice" by {
      assert TrimStart(" alice") == "alice";
      assert TrimEnd("alice") == "alice";
    }
    assert Trim("b@x.com") == "b@x.com";
    assert ToLower("b@x.com") == "b@x.com";
  }

  /** The service, holding the users collection. */
  class UserService {
    var users: Table

    ghost predicate Valid()
      reads this
    {
      Invariant(users)
    }

    constructor ()
      ensures Valid() && users == map[]
    {
      users := map[];
    }

    /** `create`: the duplicate pre-check on the raw input comes first, so
        a duplicate is reported as one even when it would also fail
        validation; then `save` validates and consults the unique indexes,
        and a failure leaves the collection as it was. `newId` is the
        identifier Mongoose assigns when `new User(...)` builds the
        document. */
    method Create(f: CreateUserDto, newId: Id, now: Time) returns (r: ServiceResponse<User>)
      requires Valid()
      requires ValidId(newId) && newId !in users
      modifies this
      ensures Valid()
      ensures CreateClash(old(users), f) ==> r == Failure(USERNAME_OR_EMAIL_EXISTS)
      ensures !CreateClash(old(users), f) && !Accepted(f) ==> r == Failure(INVALID_USER_DATA)
      ensures (!CreateClash(old(users), f) && Accepted(f)
               && Held(old(users), newId, NormalUsername(f.username.value), NormalEmail(f.email.value))) ==>
        r == Failure(Other(DuplicateKey(DUPLICATE_KEY_CODE)))
      ensures (!CreateClash(old(users), f) && Accepted(f)
               && !Held(old(users), newId, NormalUsername(f.username.value), NormalEmail(f.email.value))) ==>
        && r.Success? && r.data.id == newId
        && r.data.username == NormalUsername(f.username.value)
        && r.data.email == NormalEmail(f.email.value)
        && r.data.password == f.password.value
        && r.data.createdAt == now && r.data.updatedAt == now
      ensures r.Success? ==> users == old(users)[newId := r.data]
      ensures r.Failure? ==> users == old(users)
      ensures r.Success? ==> FindById(users, newId) == Success(ToJson(r.data))
    {
      if CreateClash(users, f) {
        return Failure(USERNAME_OR_EMAIL_EXISTS);
      }
      var saved := Save(users, newId, f, now);
      match saved {
        case Saved(u) =>
          WriteKeepsInvariant(users, u);
          users := users[newId := u];
          r := Success(u);
        case Rejected(fault) =>
          r := Failure(Caught(fault, INVALID_USER_DATA));
      }
    }

    /** `update`: a malformed identifier fails the first query's cast and
        its message passes through; a truthy username or email runs the
        pre-check against every other user; then the update validators run
        on the supplied paths, the target is looked up, and the unique
        indexes see the merged document. Only the supplied fields change,
        only on the target, and only on success. */
    method Update(id: Id, f: UpdateUserDto, now: Time) returns (r: ServiceResponse<UserJson>)
      requires Valid()
      modifies this
      ensures Valid()
      ensures r.Failure? ==> users == old(users)
      ensures !ValidId(id) ==> r == Failure(Other(CastError))
      ensures ValidId(id) && UpdatePreCheckFails(old(users), id, f) ==>
        r == Failure(USERNAME_OR_EMAIL_EXISTS)
      ensures ValidId(id) && !UpdatePreCheckFails(old(users), id, f) && !GivenFieldsAccepted(f) ==>
        r == Failure(INVALID_UPDATE_DATA)
      ensures (ValidId(id) && !UpdatePreCheckFails(old(users), id, f) && GivenFieldsAccepted(f)
               && id !in old(users)) ==> r == Failure(USER_NOT_FOUND)
      ensures (ValidId(id) && !UpdatePreCheckFails(old(users), id, f) && GivenFieldsAccepted(f)
               && id in old(users)) ==>
        var u := ApplyUpdate(old(users)[id], f, now);
        if IndexAdmits(old(users), u) then r == Success(ToJson(u)) && users == old(users)[id := u]
        else r == Failure(Other(DuplicateKey(DUPLICATE_KEY_CODE)))
    {
      if Given(f.email) || Given(f.username) {
        if !ValidId(id) {
          return Failure(Other(CastError));
        }
        if UpdateClash(users, id, f) {
          return Failure(USERNAME_OR_EMAIL_EXISTS);
        }
      }
      if !ValidId(id) {
        return Failure(Other(CastError));
      }
      if !GivenFieldsAccepted(f) {
        return Failure(INVALID_UPDATE_DATA);
      }
      if id !in users {
        return Failure(USER_NOT_FOUND);
      }
      var u := ApplyUpdate(users[id], f, now);
      if !IndexAdmits(users, u) {
        return Failure(Other(DuplicateKey(DUPLICATE_KEY_CODE)));
      }
      WriteKeepsInvariant(users, u);
      users := users[id := u];
      r := Success(ToJson(u));
    }

    /** `delete`: removes exactly the target, after which `findById` on it
        reports "User not found"; every other user is untouched. */
    method Delete(id: Id) returns (r: ServiceResponse<()>)
      requires Valid()
      modifies this
      ensures Valid()
      ensures !ValidId(id) ==> r == Failure(INVALID_USER_ID)
      ensures ValidId(id) && id !in old(users) ==> r == Failure(USER_NOT_FOUND)
      ensures ValidId(id) && id in old(users) ==> r == Success(())
      ensures r.Failure? ==> users == old(users)
      ensures r.Success? ==> users == old(users) - {id}
      ensures r.Success? ==> FindById(users, id) == Failure(USER_NOT_FOUND)
    {
      if !ValidId(id) {
        return Failure(INVALID_USER_ID);
      }
      if id !in users {
        return Failure(USER_NOT_FOUND);
      }
      RemoveKeepsInvariant(users, id);
      users := users - {id};
      r := Success(());
    }
  }
}
