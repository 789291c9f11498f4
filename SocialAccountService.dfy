/** SocialAccountService: create, find, update, refresh and delete over
    the socialaccounts collection, with a duplicate pre-check on create
    only and every failure turned into a `ServiceResponse`. */
module SocialAccountService {
  import opened Common
  import opened Text
  import opened SocialAccountModel
  import opened ServiceTypes

  /** The pre-check of `create`: `findOne` on the (userId, platform,
      accountId) triple as supplied. An absent value matches no stored
      account, since every stored account holds all three. */
  predicate CreateClash(accounts: Table, f: CreateSocialAccountDto) {
    exists k ::
      && k in accounts
      && Some(accounts[k].userId) == f.userId
      && Some(PlatformName(accounts[k].platform)) == f.platform
      && Some(accounts[k].accountId) == f.accountId
  }

  /** A supplied `userId` is cast to an ObjectId, in the pre-check query of
      `create` and in the update body of `update`; a malformed one makes
      the operation fail with a `CastError`. */
  predicate UserIdCastFails(f: CreateSocialAccountDto) {
    f.userId.Some? && !ValidId(f.userId.value)
  }

  /** None of the three key fields goes through a setter, so the raw
      pre-check sees exactly what the unique index sees: an accepted
      account that passes it is never refused as a duplicate. */
  lemma PreCheckCoversIndex(accounts: Table, id: Id, f: CreateSocialAccountDto, now: Time)
    requires Accepted(f) && !CreateClash(accounts, f)
    ensures Save(accounts, id, f, now).Saved?
  {
    var a := Build(f, id, now);
    assert PlatformName(a.platform) == f.platform.value;
    assert IndexAdmits(accounts, a);
  }

  /** Conversely, an accepted account whose triple is already stored
      under another identifier is refused by the index. */
  lemma TakenTripleRefusedByIndex(accounts: Table, id: Id, f: CreateSocialAccountDto, now: Time)
    requires Accepted(f) && CreateClash(accounts, f) && id !in accounts
    ensures Save(accounts, id, f, now) == Rejected(DuplicateKey(DUPLICATE_KEY_CODE))
  {
    var k :| k in accounts && Some(accounts[k].userId) == f.userId
      && Some(PlatformName(accounts[k].platform)) == f.platform
      && Some(accounts[k].accountId) == f.accountId;
    var a := Build(f, id, now);
    ParsePlatformName(accounts[k].platform);
    assert Key(accounts[k]) == Key(a);
    assert !IndexAdmits(accounts, a);
  }

  /** `findById`: a malformed identifier fails the cast and reads as
      "Invalid account ID format", never as "not found". */
  function FindById(accounts: Table, id: Id): (r: ServiceResponse<SocialAccount>)
    ensures r.Success? <==> ValidId(id) && id in accounts
    ensures r.Success? ==> r.data == accounts[id]
    ensures r.Failure? ==> r.error == if ValidId(id) then ACCOUNT_NOT_FOUND else INVALID_ACCOUNT_ID
  {
    if !ValidId(id) then Failure(INVALID_ACCOUNT_ID)
    else if id !in accounts then Failure(ACCOUNT_NOT_FOUND)
    else Success(accounts[id])
  }

  /** `findByUserId`: the identifier is checked before any query; then
      exactly the accounts of that user come back. */
  function FindByUserId(accounts: Table, userId: Id): (r: ServiceResponse<set<SocialAccount>>)
    ensures r.Success? <==> ValidId(userId)
    ensures r.Failure? ==> r.error == INVALID_USER_ID
    ensures r.Success? ==> forall k :: k in accounts ==> (accounts[k] in r.data <==> accounts[k].userId == userId)
    ensures r.Success? ==> forall a :: a in r.data ==> exists k :: k in accounts && accounts[k] == a
  {
    if !ValidId(userId) then Failure(INVALID_USER_ID)
    else Success(set k | k in accounts && accounts[k].userId == userId :: accounts[k])
  }

  /** The query `findAll` builds: one clause per supplied filter, all of
      which must hold. A truthy platform matches exactly, a truthy
      username case-insensitively anywhere in the value, a truthy userId
      exactly; the `lastFetched` bounds are inclusive and never match an
      account that was never fetched. With no filters every account
      matches. */
  predicate AccountMatches(filters: Option<SocialAccountFilters>, a: SocialAccount) {
    filters.Some? ==>
      var f := filters.value;
      && (Given(f.platform) ==> PlatformName(a.platform) == f.platform.value)
      && (Given(f.username) ==> MatchesIgnoringCase(f.username.value, a.username))
      && (Given(f.userId) ==> a.userId == f.userId.value)
      && (f.lastFetchedBefore.Some? ==> a.lastFetched.Some? && a.lastFetched.value <= f.lastFetchedBefore.value)
      && (f.lastFetchedAfter.Some? ==> a.lastFetched.Some? && a.lastFetched.value >= f.lastFetchedAfter.value)
  }

  /** A truthy filter userId that is not a well-formed identifier stops
      `findAll` before it queries. */
  predicate FilterUserIdMalformed(filters: Option<SocialAccountFilters>) {
    filters.Some? && Given(filters.value.userId) && !ValidId(filters.value.userId.value)
  }

  /** `findAll`: exactly the accounts that satisfy every supplied clause. */
  function FindAll(accounts: Table, filters: Option<SocialAccountFilters>): (r: ServiceResponse<set<SocialAccount>>)
    ensures r.Failure? <==> FilterUserIdMalformed(filters)
    ensures r.Failure? ==> r.error == INVALID_USER_ID_IN_FILTERS
    ensures r.Success? ==> forall k :: k in accounts ==> (accounts[k] in r.data <==> AccountMatches(filters, accounts[k]))
    ensures r.Success? ==> forall a :: a in r.data ==> exists k :: k in accounts && accounts[k] == a
  {
    if FilterUserIdMalformed(filters) then Failure(INVALID_USER_ID_IN_FILTERS)
    else Success(set k | k in accounts && AccountMatches(filters, accounts[k]) :: accounts[k])
  }

  /** Without filters `findAll` returns every account. */
  lemma FindAllUnfiltered(accounts: Table)
    ensures FindAll(accounts, None) == Success(accounts.Values)
  {
    var all := FindAll(accounts, None).data;
    forall a | a in accounts.Values ensures a in all {
      var k :| k in accounts && accounts[k] == a;
    }
    assert all == accounts.Values;
  }

  /** `findByUserId` and `findAll` with only a userId filter agree on
      every well-formed identifier. */
  lemma FindByUserIdAgreesWithFindAll(accounts: Table, userId: Id)
    requires ValidId(userId)
    ensures FindByUserId(accounts, userId) == FindAll(accounts, Some(SocialAccountFilters(None, None, Some(userId), None, None)))
  {
    var filters := Some(SocialAccountFilters(None, None, Some(userId), None, None));
    var byUser := FindByUserId(accounts, userId).data;
    var byFilter := FindAll(accounts, filters).data;
    forall a | a in byUser ensures a in byFilter {
      var k :| k in accounts && accounts[k] == a;
      assert AccountMatches(filters, accounts[k]);
    }
    forall a | a in byFilter ensures a in byUser {
      var k :| k in accounts && accounts[k] == a;
      assert AccountMatches(filters, accounts[k]);
    }
    assert byUser == byFilter;
  }

  /** An account that has never been fetched is left out as soon as
      either `lastFetched` bound is supplied. */
  lemma NeverFetchedOutsideAnyBound(accounts: Table, filters: Option<SocialAccountFilters>, k: Id)
    requires k in accounts && accounts[k].lastFetched.None?
    requires filters.Some? && (filters.value.lastFetchedBefore.Some? || filters.value.lastFetchedAfter.Some?)
    requires !FilterUserIdMalformed(filters)
    ensures accounts[k] !in FindAll(accounts, filters).data
  {
    assert !AccountMatches(filters, accounts[k]);
  }

  /** The service, holding the socialaccounts collection. */
  class SocialAccountService {
    var accounts: Table

    ghost predicate Valid()
      reads this
    {
      Invariant(accounts)
    }

    constructor ()
      ensures Valid() && accounts == map[]
    {
      accounts := map[];
    }

    /** `create`: the pre-check's query casts the user reference first,
        then finds a stored triple; a new account is validated on save.
        Because the pre-check is exact, a duplicate is always reported by
        it and never by the index. `newId` is the identifier Mongoose
        assigns when `new SocialAccount(...)` builds the document. */
    method Create(f: CreateSocialAccountDto, newId: Id, now: Time) returns (r: ServiceResponse<SocialAccount>)
      requires Valid()
      requires ValidId(newId) && newId !in accounts
      modifies this
      ensures Valid()
      ensures UserIdCastFails(f) ==> r == Failure(Other(CastError))
      ensures !UserIdCastFails(f) && CreateClash(old(accounts), f) ==> r == Failure(ACCOUNT_EXISTS)
      ensures (!UserIdCastFails(f) && !CreateClash(old(accounts), f) && !Accepted(f)) ==>
        r == Failure(INVALID_ACCOUNT_DATA)
      ensures (!UserIdCastFails(f) && !CreateClash(old(accounts), f) && Accepted(f)) ==>
        && r.Success?
        && r.data.id == newId && r.data.createdAt == now && r.data.updatedAt == now
        && PlatformName(r.data.platform) == f.platform.value
        && r.data.accountId == f.accountId.value
        && r.data.username == NormalUsername(f.username.value)
        && r.data.userId == f.userId.value
        && r.data.lastFetched == f.lastFetched
      ensures r != Failure(Other(DuplicateKey(DUPLICATE_KEY_CODE)))
      ensures r.Success? ==> accounts == old(accounts)[newId := r.data]
      ensures r.Failure? ==> accounts == old(accounts)
    {
      if UserIdCastFails(f) {
        return Failure(Other(CastError));
      }
      if CreateClash(accounts, f) {
        return Failure(ACCOUNT_EXISTS);
      }
      var saved := Save(accounts, newId, f, now);
      match saved {
        case Saved(a) =>
          WriteKeepsInvariant(accounts, a);
          accounts := accounts[newId := a];
          r := Success(a);
        case Rejected(fault) =>
          if Accepted(f) {
            PreCheckCoversIndex(accounts, newId, f, now);
          }
          r := Failure(Caught(fault, INVALID_ACCOUNT_DATA));
      }
    }

    /** `update`: a malformed identifier, then a malformed user reference
        in the update body, fails its cast and the message passes through;
        the update validators then run on the supplied paths, the target is
        looked up, and only the unique index guards the merged triple.
        Only the supplied fields change, only on the target, and only on
        success. */
    method Update(id: Id, f: UpdateSocialAccountDto, now: Time) returns (r: ServiceResponse<SocialAccount>)
      requires Valid()
      modifies this
      ensures Valid()
      ensures r.Failure? ==> accounts == old(accounts)
      ensures !ValidId(id) ==> r == Failure(Other(CastError))
      ensures ValidId(id) && UserIdCastFails(f) ==> r == Failure(Other(CastError))
      ensures (ValidId(id) && !UserIdCastFails(f) && !GivenFieldsAccepted(f)) ==>
        r == Failure(INVALID_UPDATE_DATA)
      ensures (ValidId(id) && GivenFieldsAccepted(f) && id !in old(accounts)) ==>
        r == Failure(ACCOUNT_NOT_FOUND)
      ensures (ValidId(id) && GivenFieldsAccepted(f) && id in old(accounts)) ==>
        var a := ApplyUpdate(old(accounts)[id], f, now);
        if IndexAdmits(old(accounts), a) then r == Success(a) && accounts == old(accounts)[id := a]
        else r == Failure(Other(DuplicateKey(DUPLICATE_KEY_CODE)))
    {
      if !ValidId(id) || UserIdCastFails(f) {
        return Failure(Other(CastError));
      }
      if !GivenFieldsAccepted(f) {
        return Failure(INVALID_UPDATE_DATA);
      }
      if id !in accounts {
        return Failure(ACCOUNT_NOT_FOUND);
      }
      var a := ApplyUpdate(accounts[id], f, now);
      if !IndexAdmits(accounts, a) {
        return Failure(Other(DuplicateKey(DUPLICATE_KEY_CODE)));
      }
      WriteKeepsInvariant(accounts, a);
      accounts := accounts[id := a];
      r := Success(a);
    }

    /** `updateLastFetched`: stamps the target with `now`; no validator
        runs and the index key is untouched, so it cannot clash. Every
        other field of the target (but the `updatedAt` timestamp) and
        every other account stay as they were. */
    method UpdateLastFetched(id: Id, now: Time) returns (r: ServiceResponse<SocialAccount>)
      requires Valid()
      modifies this
      ensures Valid()
      ensures !ValidId(id) ==> r == Failure(INVALID_ACCOUNT_ID)
      ensures ValidId(id) && id !in old(accounts) ==> r == Failure(ACCOUNT_NOT_FOUND)
      ensures ValidId(id) && id in old(accounts) ==>
        r == Success(old(accounts)[id].(lastFetched := Some(now), updatedAt := now))
      ensures r.Failure? ==> accounts == old(accounts)
      ensures r.Success? ==> accounts == old(accounts)[id := r.data] && Key(r.data) == Key(old(accounts)[id])
    {
      if !ValidId(id) {
        return Failure(INVALID_ACCOUNT_ID);
      }
      if id !in accounts {
        return Failure(ACCOUNT_NOT_FOUND);
      }
      var a := accounts[id].(lastFetched := Some(now), updatedAt := now);
      assert Key(a) == Key(accounts[id]);
      WriteKeepsInvariant(accounts, a);
      accounts := accounts[id := a];
      r := Success(a);
    }

    /** `delete`: removes exactly the target, after which `findById` on it
        reports "Social media account not found". */
    method Delete(id: Id) returns (r: ServiceResponse<()>)
      requires Valid()
      modifies this
      ensures Valid()
      ensures !ValidId(id) ==> r == Failure(INVALID_ACCOUNT_ID)
      ensures ValidId(id) && id !in old(accounts) ==> r == Failure(ACCOUNT_NOT_FOUND)
      ensures ValidId(id) && id in old(accounts) ==> r == Success(())
      ensures r.Failure? ==> accounts == old(accounts)
      ensures r.Success? ==> accounts == old(accounts) - {id}
      ensures r.Success? ==> FindById(accounts, id) == Failure(ACCOUNT_NOT_FOUND)
    {
      if !ValidId(id) {
        return Failure(INVALID_ACCOUNT_ID);
      }
      if id !in accounts {
        return Failure(ACCOUNT_NOT_FOUND);
      }
      RemoveKeepsInvariant(accounts, id);
      accounts := accounts - {id};
      r := Success(());
    }
  }
}
