# social-aggregator: the persistence and validation layer, in Dafny

This project models the data layer of social-aggregator. That layer has two
services, for users and for linked social-media accounts. Both sit on three
Mongoose schemas: User, SocialAccount and Content. MongoDB is replaced by
plain Dafny state: a map from object identifier to document.

**Schemas (`UserModel`, `SocialAccountModel`, `ContentModel`).** Each schema
is modelled by:
- its setters (trim; trim then lowercase for e-mail);
- its validators (required, minlength, enum, the ObjectId cast of a reference);
- its defaults (`lastFetched` and `processedContent` are null);
- its indexes.

`Save` is `document.save()`: validation first, then the unique indexes. A
refused save returns either a `ValidationError` or a duplicate-key failure
with code 11000. The collection invariant (`Invariant`) says:
- every stored document is well-formed and filed under its own identifier;
- the unique indexes hold: for User, usernames are distinct and emails are
  distinct; for SocialAccount, the triple (userId, platform, accountId) is
  distinct.

`Text` holds the string functions these need:
- ECMAScript `trim`, with the full white-space set;
- lowercase;
- the substring match that stands for a case-insensitive `$regex`.

**Services (`UserService`, `SocialAccountService`).** Each service is a class
holding its collection as map fields.
- The state-changing operations are methods: `Create`, `Update`,
  `UpdateLastFetched` and `Delete`. Their `ensures` give the response in every
  case, in the order the source checks. They also give the new collection.
  `Valid()` (the collection invariant) is preserved.
- The read-only operations are functions over the map: `FindById`,
  `FindByUserId` and `FindAll`.
- Every result is a `ServiceResponse`: `Success(data)` or `Failure(error)`.
  An error is either one of the service's own messages (`Reported`), or a
  lower-layer failure whose message is passed through (`Other`).

Three behaviours are modelled as the service code reads:
- The user `create` pre-check is read literally. Its query holds the values
  as supplied (src/services/UserService.ts:21-23), and the model compares
  them with the stored values as they are. Under this reading, a white-space
  or case variant of a stored username passes the pre-check. The unique index
  then refuses the normalised value, and the response carries the
  duplicate-key failure. Mongoose may run the trim and lowercase setters on
  equality values in queries. If it does, such a variant is reported as
  "Username or email already exists" instead. The model does not decide
  which.
- In the user `update` pre-check, an absent or empty username or email
  becomes the clause `{}`, which matches every document. An update that
  supplies only one of the two fields therefore fails whenever another user
  exists. A truthy value is compared as supplied, under the same literal
  reading as the `create` pre-check: a white-space or case variant of
  another user's value passes the pre-check, `$set` then normalises it, and
  the unique index refuses it with code 11000. If Mongoose runs the setters
  on query values, the program reports "Username or email already exists"
  instead.
- Account `update` has no pre-check. Only the unique index keeps the triple
  distinct.

**Environment inputs.** Time (`new Date()` and the timestamps) is an integer
parameter `now`. The identifier Mongoose assigns when `new User(...)` or
`new SocialAccount(...)` builds a document is a parameter `newId`, required
to be well-formed and unused.

## Model

| member | source | states |
|---|---|---|
| Common.ValidId | src/services/UserService.ts:64 | defines `Types.ObjectId.isValid` and the ObjectId cast: 24 lower-case hexadecimal digits |
| Common.Given | src/services/UserService.ts:111 | defines JavaScript truthiness of an optional string: present and not empty |
| Text.IsSpace | src/models/User.ts:10 | defines the code points `trim` removes: ECMAScript WhiteSpace and LineTerminator |
| Text.TrimStart | src/models/User.ts:10 | the result is no longer than the input and does not start with white space |
| Text.TrimEnd | src/models/User.ts:10 | the result is no longer than the input and does not end with white space |
| Text.TrimStartDropsSpace | src/models/User.ts:10 | leading trim removes only a prefix made of white space |
| Text.TrimEndDropsSpace | src/models/User.ts:10 | trailing trim removes only a suffix made of white space |
| Text.Trim | src/models/SocialAccount.ts:18 | the result is a slice of the input with only white space cut from each side; it is trimmed and no longer than the input; it is empty exactly when the input is all white space; a trimmed input is returned unchanged |
| Text.TrimKeepsMiddle | src/models/SocialAccount.ts:18 | trimming both ends keeps a contiguous slice and removes only white space on either side of it |
| Text.MiddleOfSuffix | src/models/User.ts:10 | a prefix of a suffix, each cut only of white space, is a slice of the whole with white space around it |
| Text.Utf16Length | src/models/User.ts:11 | JavaScript's `length`: UTF-16 code units, between the number of characters and twice that |
| Text.Utf16LengthOfBmp | src/models/User.ts:23 | without supplementary characters, the JavaScript length is the number of characters |
| Text.MatchesIgnoringCase | src/services/UserService.ts:112 | defines the case-insensitive `$regex` match: the lowercased pattern occurs in the lowercased value |
| Text.TrimBothEnds | src/models/User.ts:17 | trimming both ends gives a trimmed string that is empty exactly for all-white-space input and is the identity on trimmed input |
| Text.ToLower | src/models/User.ts:18 | same length, each character lowercased, no upper-case letter left |
| Text.ContainsAt | src/services/UserService.ts:112 | the substring match holds exactly when the pattern occurs at some position |
| Text.LowerKeepsTrimmed | src/models/User.ts:17-18 | lowercasing a trimmed string leaves it trimmed |
| Text.ToLowerIdempotent | src/models/User.ts:18 | lowercasing twice is lowercasing once |
| Text.LowerTrimIdempotent | src/models/User.ts:17-18 | trim-then-lowercase applied twice equals applying it once |
| UserModel.NormalUsername | src/models/User.ts:10 | defines the username setter: `trim` |
| UserModel.NormalEmail | src/models/User.ts:17-18 | defines the e-mail setters: `trim`, then `lowercase` |
| UserModel.UniqueIndex | src/models/User.ts:9-16 | defines the two unique indexes as a store property: no two documents share a username, and none share an e-mail |
| UserModel.IndexAdmits | src/models/User.ts:9-16 | defines when the unique indexes accept a write: no other document holds its username or its e-mail (`Held` is false) |
| UserModel.Invariant | src/models/User.ts:6-24 | defines the collection invariant: every document well-formed under its own id, and both unique indexes hold |
| UserModel.NormalEmailIdempotent | src/models/User.ts:17-18 | the e-mail setters are idempotent |
| UserModel.UsernameAccepted | src/models/User.ts:6-12 | defines the username validators: required, and at least 3 UTF-16 units after trimming |
| UserModel.EmailAccepted | src/models/User.ts:13-19 | defines the e-mail validator: required (not empty) after trimming and lowercasing |
| UserModel.PasswordAccepted | src/models/User.ts:20-24 | defines the password validators: required, and at least 6 UTF-16 units |
| UserModel.GivenFieldsAccepted | src/services/UserService.ts:179 | defines update validation: each supplied path passes its validators |
| UserModel.Accepted | src/models/User.ts:6-24 | defines document validation: every path is present and passes its validators |
| UserModel.WellFormed | src/models/User.ts:6-24 | defines what a stored user satisfies: values are fixed points of their setters and meet the validators |
| UserModel.Held | src/models/User.ts:9-16 | defines a unique-index clash: another document holds the username or the e-mail |
| UserModel.SupplementaryCharactersCountTwice | src/models/User.ts:11-23 | "a" followed by an emoji is a long enough username, and three emoji are a long enough password |
| UserModel.Build | src/models/User.ts:6-24 | a document built from accepted fields is well-formed; it holds the trimmed username, the trimmed and lowercased e-mail, the password as given, the given id, and both timestamps at `now` |
| UserModel.ApplyUpdate | src/services/UserService.ts:176-179 | `$set` of accepted fields keeps the user well-formed; unsupplied fields are unchanged; supplied ones take their normalised value; `updatedAt` becomes `now` |
| UserModel.Save | src/models/User.ts:6-24 | the save succeeds exactly when the fields are accepted and no other document holds the normalised username or e-mail; a saved user is well-formed, admitted by the indexes and holds the supplied values through their setters; a refusal is a validation error exactly when validation fails, and otherwise duplicate key 11000 |
| UserModel.RemoveKeepsInvariant | src/services/UserService.ts:216 | removing a user keeps the collection invariant |
| UserModel.WriteKeepsInvariant | src/models/User.ts:9-16 | writing a well-formed user that the unique indexes admit keeps usernames distinct and e-mails distinct |
| UserModel.WriteKeepsStored | src/models/User.ts:6-24 | such a write keeps every stored user well-formed and under its own id |
| UserModel.WriteKeepsUnique | src/models/User.ts:9-16 | such a write keeps the unique indexes |
| UserModel.MissingFieldRejected | src/models/User.ts:8-22 | a missing username, e-mail or password is a validation error |
| UserModel.SaveOfTakenRejected | src/models/User.ts:9-16 | a save whose normalised username or e-mail is held by another stored user fails with code 11000 |
| UserModel.SecondSaveRejected | src/models/User.ts:9-16 | after one save, a second save normalising to the same username or e-mail fails with code 11000 |
| UserModel.ToJson | src/models/User.ts:32-36 | the projection drops only the password: putting it back gives the user again |
| UserService.FindById | src/services/UserService.ts:61-98 | succeeds exactly for a well-formed stored id, returning the user without its password; a malformed id gives "Invalid user ID format", never "User not found" |
| UserService.FindAll | src/services/UserService.ts:105-144 | returns exactly the stored users that satisfy every supplied clause, each without its password |
| UserService.FindAllUnfiltered | src/services/UserService.ts:107-132 | with no filters, or with every filter absent, every user is returned |
| UserService.TakenValueFailsPreCheck | src/services/UserService.ts:159-173 | a username or e-mail held by a different user makes the update pre-check fail |
| UserService.OneFieldUpdateClashesWithAnyone | src/services/UserService.ts:162-166 | with only one of username and e-mail supplied, the pre-check fails as soon as any other user exists |
| UserService.OwnValuesPassPreCheck | src/services/UserService.ts:160-161 | re-supplying a user's own username and e-mail passes the pre-check, because the target is excluded |
| UserService.CreateClash | src/services/UserService.ts:21-23 | defines the create pre-check, read literally: some stored user has the supplied username or the supplied e-mail |
| UserService.ClauseMatches | src/services/UserService.ts:163-164 | defines one `$or` clause of the update pre-check: equality for a truthy value, `{}` (matches all) otherwise |
| UserService.UpdateClash | src/services/UserService.ts:160-166 | defines the update pre-check query: a user other than the target matching either clause |
| UserService.UpdatePreCheckFails | src/services/UserService.ts:159-173 | defines when the update pre-check fails: a username or e-mail is truthy and the query finds a user |
| UserService.UserMatches | src/services/UserService.ts:107-129 | defines the `findAll` query: the conjunction of the truthy clauses, with inclusive `createdAt` bounds |
| UserService.WhitespaceVariantReachesIndex | src/services/UserService.ts:21-34 | under the literal reading of the pre-check, " alice" passes it against a stored "alice", and the save is then refused with code 11000 |
| UserService.VariantPassesPreCheck | src/services/UserService.ts:21-23 | " alice" and "b@x.com" match neither stored value of "alice" |
| UserService.VariantFieldsAccepted | src/models/User.ts:6-24 | the variant's fields pass validation, and " alice" normalises to "alice" |
| UserService.UserService.constructor | src/services/UserService.ts:11 | the service starts with an empty, valid collection |
| UserService.UserService.Create | src/services/UserService.ts:18-54 | the pre-check comes first: a clash gives "Username or email already exists" even for invalid data. Then invalid data gives "Invalid user data provided", and a normalised value held by another user passes duplicate key 11000 through. Otherwise the user is created with the supplied values through their setters, the new id and both timestamps at `now`. Only success inserts, and the new user is then found by id |
| UserService.UserService.Update | src/services/UserService.ts:153-207 | a malformed id passes the cast failure through; a failed pre-check gives "Username or email already exists"; then invalid supplied fields, a missing target, a unique-index clash; on success only the target changes, and it changes only in the supplied fields and `updatedAt`; every failure leaves the collection unchanged |
| UserService.UserService.Delete | src/services/UserService.ts:214-242 | a malformed id gives "Invalid user ID format" and a missing one "User not found"; success removes exactly the target, after which `findById` reports it not found |
| SocialAccountModel.ParsePlatform | src/models/SocialAccount.ts:6-10 | exactly "twitter", "instagram" and "tiktok" are admitted, each as the platform it names |
| SocialAccountModel.ParsePlatformName | src/models/SocialAccount.ts:6-10 | every platform's name parses back to it |
| SocialAccountModel.NormalUsername | src/models/SocialAccount.ts:18 | defines the username setter: `trim` |
| SocialAccountModel.PlatformAccepted | src/models/SocialAccount.ts:6-10 | defines the platform validator: `enum` of the three names |
| SocialAccountModel.AccountIdAccepted | src/models/SocialAccount.ts:11-14 | defines the accountId validator: `required` refuses "" |
| SocialAccountModel.UsernameAccepted | src/models/SocialAccount.ts:15-19 | defines the username validator: `required` after trimming |
| SocialAccountModel.UserIdAccepted | src/models/SocialAccount.ts:20-24 | defines the userId validator: the ObjectId cast of the reference |
| SocialAccountModel.GivenFieldsAccepted | src/services/SocialAccountService.ts:214 | defines update validation: each supplied path passes its validators |
| SocialAccountModel.Accepted | src/models/SocialAccount.ts:4-29 | defines document validation: platform, accountId, username and userId are present and pass their validators |
| SocialAccountModel.WellFormed | src/models/SocialAccount.ts:11-24 | defines what a stored account satisfies: trimmed, non-empty username, non-empty accountId, well-formed userId |
| SocialAccountModel.Build | src/models/SocialAccount.ts:4-33 | a document built from accepted fields is well-formed; it holds the given id, the supplied platform, accountId and userId, the trimmed username, `lastFetched` as supplied (null when absent), and both timestamps at `now` |
| SocialAccountModel.ApplyUpdate | src/services/SocialAccountService.ts:211-215 | `$set` of accepted fields keeps the account well-formed; unsupplied fields are unchanged; supplied ones take their (trimmed) value; `updatedAt` becomes `now` |
| SocialAccountModel.Save | src/models/SocialAccount.ts:4-39 | the save succeeds exactly when the fields are accepted and the index admits the built document; a saved account is that document, well-formed and clashing with no stored triple; a refusal is a validation error exactly when validation fails, and otherwise duplicate key 11000 |
| SocialAccountModel.Key | src/models/SocialAccount.ts:36-37 | defines the compound index key: (userId, platform, accountId) |
| SocialAccountModel.UniqueIndex | src/models/SocialAccount.ts:36-39 | defines the unique compound index as a store property: no two documents share a key |
| SocialAccountModel.IndexAdmits | src/models/SocialAccount.ts:36-39 | defines when the index accepts a write: no other document has the same key |
| SocialAccountModel.Invariant | src/models/SocialAccount.ts:4-39 | defines the collection invariant: every document well-formed under its own id, and the compound index holds |
| SocialAccountModel.WriteKeepsStored | src/models/SocialAccount.ts:4-33 | writing a well-formed account keeps every stored account well-formed and under its own id |
| SocialAccountModel.WriteKeepsUnique | src/models/SocialAccount.ts:36-39 | writing an account the index admits keeps the triples distinct |
| SocialAccountModel.RemoveKeepsInvariant | src/services/SocialAccountService.ts:299 | removing an account keeps the collection invariant |
| SocialAccountModel.WriteKeepsInvariant | src/models/SocialAccount.ts:36-39 | writing a well-formed, admitted account keeps the collection invariant |
| SocialAccountModel.InvalidFieldsRejected | src/models/SocialAccount.ts:6-24 | a platform outside the enum, or a missing platform, accountId, username or userId, is a validation error |
| SocialAccountModel.SecondSaveRejected | src/models/SocialAccount.ts:36-39 | saving the same triple again under another id fails with code 11000 |
| SocialAccountModel.DistinctKeysCoexist | src/models/SocialAccount.ts:36-39 | an account that differs from a saved one in userId, platform or accountId can be saved beside it |
| SocialAccountService.CreateClash | src/services/SocialAccountService.ts:23-27 | defines the create pre-check: some stored account has the supplied userId, platform and accountId |
| SocialAccountService.UserIdCastFails | src/services/SocialAccountService.ts:23-27 | defines the cast failure of a supplied, malformed userId |
| SocialAccountService.AccountMatches | src/services/SocialAccountService.ts:147-180 | defines the `findAll` query: the conjunction of the truthy clauses, with inclusive `lastFetched` bounds that a null never meets |
| SocialAccountService.FilterUserIdMalformed | src/services/SocialAccountService.ts:161-167 | defines the filter check: a truthy userId that is not a well-formed identifier |
| SocialAccountService.PreCheckCoversIndex | src/services/SocialAccountService.ts:23-38 | an accepted account that passes the raw pre-check is never refused by the unique index |
| SocialAccountService.TakenTripleRefusedByIndex | src/services/SocialAccountService.ts:23-38 | an accepted account whose triple is stored is refused by the index with code 11000 |
| SocialAccountService.FindById | src/services/SocialAccountService.ts:68-102 | succeeds exactly for a well-formed stored id, returning that account; a malformed id gives "Invalid account ID format", a missing one "Social media account not found" |
| SocialAccountService.FindByUserId | src/services/SocialAccountService.ts:109-136 | a malformed id gives "Invalid user ID format"; otherwise exactly the accounts of that user are returned |
| SocialAccountService.FindAll | src/services/SocialAccountService.ts:143-198 | fails with "Invalid user ID format in filters" exactly for a truthy, malformed filter userId; otherwise returns exactly the accounts that satisfy every supplied clause |
| SocialAccountService.FindAllUnfiltered | src/services/SocialAccountService.ts:147-183 | with no filters every account is returned |
| SocialAccountService.FindByUserIdAgreesWithFindAll | src/services/SocialAccountService.ts:121 | for a well-formed id, `findByUserId` equals `findAll` with only that userId filter |
| SocialAccountService.NeverFetchedOutsideAnyBound | src/services/SocialAccountService.ts:172-180 | an account never fetched is excluded once either `lastFetched` bound is given |
| SocialAccountService.SocialAccountService.constructor | src/services/SocialAccountService.ts:11 | the service starts with an empty, valid collection |
| SocialAccountService.SocialAccountService.Create | src/services/SocialAccountService.ts:18-61 | a malformed userId passes the cast failure through; a stored triple gives "Social media account already exists"; invalid data gives "Invalid social media account data provided"; otherwise the account is inserted with the supplied values; a duplicate-key failure never surfaces; every failure leaves the collection unchanged |
| SocialAccountService.SocialAccountService.Update | src/services/SocialAccountService.ts:206-245 | a malformed id, then a malformed userId in the update body, passes the cast failure through; invalid supplied fields give "Invalid update data provided"; a missing target gives "Social media account not found"; a triple clash passes duplicate key 11000 through; on success only the target changes, and only in the supplied fields and `updatedAt` |
| SocialAccountService.SocialAccountService.UpdateLastFetched | src/services/SocialAccountService.ts:252-290 | a malformed id gives "Invalid account ID format", a missing one "Social media account not found"; success sets `lastFetched` to `now`, keeps every other field but `updatedAt`, keeps the index key and leaves every other account unchanged |
| SocialAccountService.SocialAccountService.Delete | src/services/SocialAccountService.ts:297-328 | a malformed id gives "Invalid account ID format", a missing one "Social media account not found"; success removes exactly the target, after which `findById` reports it not found |
| ServiceTypes.Caught | src/services/UserService.ts:40-53 | defines a catch block: a validation error becomes the given message, any other failure passes through |
| ContentModel.ParseContentType | src/models/Content.ts:6-10 | exactly "text" and "video" are admitted, each as the type it names |
| ContentModel.ParseContentTypeName | src/models/Content.ts:6-10 | every content type's name parses back to it |
| ContentModel.Save | src/models/Content.ts:4-40 | a save succeeds exactly when validation accepts the fields; the only refusal is a validation error |
| ContentModel.Accepted | src/models/Content.ts:4-37 | defines validation: type and platform in their enums, non-empty original content, a well-formed account reference, a posting date |
| ContentModel.Build | src/models/Content.ts:4-37 | builds the document from accepted fields, with `processedContent` null when absent |
| ContentModel.SavedKeepsFields | src/models/Content.ts:4-37 | a saved document carries the supplied type, original content, platform, account reference and posting date; `processedContent` is kept as given, so it is null when absent |
| ContentModel.InvalidFieldsRejected | src/models/Content.ts:6-32 | a type outside the enum, or a missing required path, is a validation error |
| ContentModel.DuplicatesAllowed | src/models/Content.ts:40 | saving the same fields again under another id succeeds, because the index is not unique |

## Left out

- HTTP and bootstrap (`src/app.ts`, `src/server.ts`): I/O only.
- The database connection and the test harness: plumbing only.
- Asynchrony, and the race between a pre-check and the save that follows it. Each operation is modelled as atomic.
- Result order. `find` returns an array; the model returns the set of matching documents.
- Content has no service in the source. Only its schema is modelled, including the fact that its platform is not compared with the referenced account's platform.
- The index on Content: it is not unique, and its sort direction has no observable effect here.
- Regular expressions. A `$regex` filter with option `i` is modelled as a substring match after lowercasing both sides, which is exact only for patterns without metacharacters.
- Text.ToLower: lowercases ASCII letters only, not the full Unicode case mapping.
- Common.ValidId: one predicate stands for both `Types.ObjectId.isValid` and the ObjectId cast. It admits only the canonical 24-digit lower-case hexadecimal form, not the 12-byte form, and not upper-case hex.
- Dates are integers. `new Date()` and `timestamps: true` become the parameter `now`.
- Pass-through error messages. A lower-layer failure is carried as its kind (`Other(fault)`), not as its message text. The fallback messages for a thrown non-`Error` cannot arise in the model.
- An absent (undefined) field in a create pre-check is taken to match no stored document, since every stored document holds the field.
- UserService.CreateClash: compares the query values as supplied, without running the trim and lowercase setters on them, although Mongoose may do so. `UserService.WhitespaceVariantReachesIndex` holds only under this literal reading.
- UserService.ClauseMatches: compares a truthy update value as supplied, under the same literal reading, so a white-space or case variant of another user's value passes the update pre-check and is refused by the unique index with code 11000 rather than reported as "Username or email already exists".
- Create returns the full user document, as the code does. Only `findById`, `findAll` and `update` select away the password. The HTTP serialisation that would apply `toJSON` to the created user is not part of this model.
- `src/types/services.ts` does not define the account DTOs and filters. Their fields are taken from how `SocialAccountService.ts` and its tests use them. Every field is optional, so the model also covers missing data.
- Update validators are modelled as running on every supplied path. A malformed userId in an account update body fails its cast before they run, and that failure passes through.
- Lengths follow JavaScript's `length` (UTF-16 code units), but no unpaired surrogates exist in the model, because Dafny characters are Unicode scalar values.
