/** The Content schema: the type and platform enums, the required paths,
    the `processedContent` default and a compound index that is not
    unique. */
module ContentModel {
  import opened Common
  import opened SocialAccountModel

  /** The values the `type` enum admits. */
  datatype ContentType = Text | Video

  function ContentTypeName(c: ContentType): string {
    match c
    case Text => "text"
    case Video => "video"
  }

  /** The enum validator of `type`: exactly the two names are admitted. */
  function ParseContentType(s: string): (r: Option<ContentType>)
    ensures r.Some? ==> ContentTypeName(r.value) == s
    ensures r.None? ==> s != "text" && s != "video"
  {
    if s == "text" then Some(Text)
    else if s == "video" then Some(Video)
    else None
  }

  lemma ParseContentTypeName(c: ContentType)
    ensures ParseContentType(ContentTypeName(c)) == Some(c)
  {
  }

  /** The fields handed to `new Content(...)`; an absent field is `None`. */
  datatype ContentFields = ContentFields(
    contentType: Option<string>,
    originalContent: Option<string>,
    processedContent: Option<string>,
    socialAccountId: Option<Id>,
    platform: Option<string>,
    postedAt: Option<Time>)

  /** A stored content document; `processedContent` is `None` for null.
      `platform` is a copy of the account's, validated on its own. */
  datatype Content = Content(
    id: Id,
    contentType: ContentType,
    originalContent: string,
    processedContent: Option<string>,
    socialAccountId: Id,
    platform: Platform,
    postedAt: Time,
    createdAt: Time,
    updatedAt: Time)

  /** Validation: `type` and `platform` in their enums, `originalContent`
      present and not "", the account reference an ObjectId, `postedAt`
      present. Nothing relates `platform` to the referenced account. */
  predicate Accepted(f: ContentFields) {
    && f.contentType.Some? && ParseContentType(f.contentType.value).Some?
    && f.originalContent.Some? && f.originalContent.value != ""
    && f.socialAccountId.Some? && ValidId(f.socialAccountId.value)
    && f.platform.Some? && ParsePlatform(f.platform.value).Some?
    && f.postedAt.Some?
  }

  /** The document `new Content(f)` builds at time `now`. */
  function Build(f: ContentFields, id: Id, now: Time): (c: Content)
    requires Accepted(f)
  {
    Content(id, ParseContentType(f.contentType.value).value, f.originalContent.value,
            f.processedContent, f.socialAccountId.value, ParsePlatform(f.platform.value).value,
            f.postedAt.value, now, now)
  }

  /** The contents collection, by `_id`. */
  type Table = map<Id, Content>

  /** `content.save()`: only validation can refuse it. The index on
      (socialAccountId, platform, postedAt) is not unique, so what the
      collection already holds never matters. */
  function Save(t: Table, id: Id, f: ContentFields, now: Time): (r: SaveResult<Content>)
    ensures r.Saved? <==> Accepted(f)
    ensures r.Rejected? ==> r.fault == ValidationError
  {
    if Accepted(f) then Saved(Build(f, id, now)) else Rejected(ValidationError)
  }

  /** A saved document carries the `type`, `originalContent` and `platform`
      it was given; `processedContent` is null when absent and kept as
      given otherwise. */
  lemma SavedKeepsFields(t: Table, id: Id, f: ContentFields, now: Time)
    requires Save(t, id, f, now).Saved?
    ensures var c := Save(t, id, f, now).doc;
      && ContentTypeName(c.contentType) == f.contentType.value
      && c.originalContent == f.originalContent.value
      && PlatformName(c.platform) == f.platform.value
      && c.processedContent == f.processedContent
      && c.socialAccountId == f.socialAccountId.value
      && c.postedAt == f.postedAt.value
  {
  }

  /** A `type` outside the enum, or a missing required path, is refused. */
  lemma InvalidFieldsRejected(t: Table, id: Id, f: ContentFields, now: Time)
    requires || (f.contentType.Some? && f.contentType.value !in {"text", "video"})
             || f.contentType.None? || f.originalContent.None? || f.socialAccountId.None?
             || f.platform.None? || f.postedAt.None?
    ensures Save(t, id, f, now) == Rejected(ValidationError)
  {
  }

  /** Saving the very same fields again under another identifier succeeds:
      duplicate content documents are allowed. */
  lemma DuplicatesAllowed(t: Table, id1: Id, f: ContentFields, now1: Time, c: Content,
                          id2: Id, now2: Time)
    requires Save(t, id1, f, now1) == Saved(c)
    ensures Save(t[id1 := c], id2, f, now2).Saved?
  {
  }
}
