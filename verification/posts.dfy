/** `POST /api/posts` (src/app/api/posts/route.ts): validating and storing a
    new post. The posts table is a sequence of rows to which a successful
    request appends one. */
module Posts {

  import opened Common
  import opened Text
  import opened Js

  /** The two kinds of attached media. */
  datatype MediaType = Image | Video

  function MediaTypeName(m: MediaType): string {
    match m
    case Image => "image"
    case Video => "video"
  }

  /** `MEDIA_ALLOWED`. */
  const AllowedMedia: set<string> := {"image", "video"}

  /** The expiry choices a post can carry. */
  datatype Expiry = NoExpiry | Days7 | Days14 | Days30

  function ExpiryName(e: Expiry): string {
    match e
    case NoExpiry => "none"
    case Days7 => "7"
    case Days14 => "14"
    case Days30 => "30"
  }

  /** `EXP_ALLOWED`. */
  const AllowedExpiries: set<string> := {"7", "14", "30", "none"}

  /** Reads an expiry from its wire name; anything outside `EXP_ALLOWED` is refused. */
  function ParseExpiry(s: string): (r: Option<Expiry>)
    ensures r.Some? <==> s in AllowedExpiries
    ensures r.Some? ==> ExpiryName(r.value) == s
  {
    if s == "none" then Some(NoExpiry)
    else if s == "7" then Some(Days7)
    else if s == "14" then Some(Days14)
    else if s == "30" then Some(Days30)
    else None
  }

  /** Every expiry's wire name reads back as that expiry. */
  lemma ParseExpiryName(e: Expiry)
    ensures ExpiryName(e) in AllowedExpiries
    ensures ParseExpiry(ExpiryName(e)) == Some(e)
  {
  }

  /** The number of days until the post expires (`Number(expiresAt)`), or none
      for `"none"`. The calendar arithmetic on the current date is not modelled. */
  function ExpiryDays(e: Expiry): (d: Option<nat>)
    ensures d.None? <==> e == NoExpiry
    ensures d.Some? ==> d.value in {7, 14, 30}
  {
    match e
    case NoExpiry => None
    case Days7 => Some(7)
    case Days14 => Some(14)
    case Days30 => Some(30)
  }

  /** `maxCharsForTier`: the Plus tier may write 2000 characters, any other 600. */
  function MaxCharsForTier(tier: string): (n: nat)
    ensures n == 2000 <==> tier == "plus"
    ensures n == 600 <==> tier != "plus"
  {
    if tier == "plus" then 2000 else 600
  }

  /** The longest topic the route accepts. */
  const MaxTopic: nat := 32

  /** The JSON body of the request. */
  datatype Payload = Payload(body: JsVal, topic: JsVal, expiresAt: JsVal, mediaUrl: JsVal, mediaType: JsVal)

  /** A row of the posts table; `expiresInDays` stands for the stored
      timestamp that many days from now. */
  datatype PostRow = PostRow(
    author: UserId,
    body: string,
    topic: Option<string>,
    expiresInDays: Option<nat>,
    mediaUrl: Option<string>,
    mediaType: Option<string>)

  datatype PostError =
    | NotAuthenticated
    | ProfileLookupFailed(message: string)
    | BadLength(maxChars: nat)
    | TopicTooLong
    | InvalidExpiration
    | InvalidMediaType
    | MediaTypeWithoutUrl
    | InsertFailed(message: string)

  function ErrorStatus(e: PostError): (code: int)
    ensures code == 401 <==> e == NotAuthenticated
    ensures code == 500 <==> e.ProfileLookupFailed? || e.InsertFailed?
    ensures code in {400, 401, 500}
  {
    match e
    case NotAuthenticated => 401
    case ProfileLookupFailed(_) => 500
    case InsertFailed(_) => 500
    case _ => 400
  }

  datatype PostReply = Created(tier: string, maxChars: nat) | PostRejected(error: PostError)

  datatype PostOutcome = PostOutcome(reply: PostReply, posts: seq<PostRow>)

  /** The request fields as the route normalises them. */
  datatype Fields = Fields(
    text: string,
    topic: Option<string>,
    expiresAt: string,
    mediaUrl: Option<string>,
    mediaType: Option<string>)

  /** `String(payload.body ?? "").trim()`: the text of the body as the route
      measures it. */
  function BodyText(v: JsVal): (t: string)
    ensures Trimmed(t)
    ensures v.Str? ==> t == Trim(v.s)
    ensures v.Other? ==> t == Trim(v.text)
    ensures v.Undefined? || v.Null? ==> t == []
  {
    Trim(TextOrEmpty(v))
  }

  /** `payload.topic ? String(payload.topic).trim() : null`. */
  function TopicOf(v: JsVal): (o: Option<string>)
    ensures o.Some? <==> Truthy(v)
    ensures o.Some? ==> Trimmed(o.value)
    ensures v.Str? && v.s != [] ==> o == Some(Trim(v.s))
    ensures v.Other? && v.truthy ==> o == Some(Trim(v.text))
  {
    if Truthy(v) then Some(Trim(ToText(v))) else None
  }

  /** `payload.mediaUrl ? String(payload.mediaUrl) : null`, likewise for the
      media type: kept as text, untrimmed. */
  function MediaOf(v: JsVal): (o: Option<string>)
    ensures o.Some? <==> Truthy(v)
    ensures o.Some? ==> o.value == ToText(v)
  {
    if Truthy(v) then Some(ToText(v)) else None
  }

  /** The request fields as the route normalises them: the trimmed body, the
      trimmed topic when truthy, a non-string `expiresAt` read as `"none"`,
      and the media fields kept as text when truthy, `null` otherwise. */
  function Normalise(p: Payload): (f: Fields)
    ensures Trimmed(f.text) && (f.topic.Some? ==> Trimmed(f.topic.value))
    ensures p.body.Str? ==> f.text == Trim(p.body.s)
    ensures p.body.Other? ==> f.text == Trim(p.body.text)
    ensures p.body.Undefined? || p.body.Null? ==> f.text == []
    ensures f.topic.Some? <==> Truthy(p.topic)
    ensures p.topic.Str? && p.topic.s != [] ==> f.topic == Some(Trim(p.topic.s))
    ensures p.topic.Other? && p.topic.truthy ==> f.topic == Some(Trim(p.topic.text))
    ensures p.expiresAt.Str? ==> f.expiresAt == p.expiresAt.s
    ensures !p.expiresAt.Str? ==> f.expiresAt == "none"
    ensures f.mediaUrl.Some? <==> Truthy(p.mediaUrl)
    ensures f.mediaType.Some? <==> Truthy(p.mediaType)
    ensures f.mediaUrl.Some? ==> f.mediaUrl.value == ToText(p.mediaUrl)
    ensures f.mediaType.Some? ==> f.mediaType.value == ToText(p.mediaType)
  {
    Fields(
      BodyText(p.body),
      TopicOf(p.topic),
      if p.expiresAt.Str? then p.expiresAt.s else "none",
      MediaOf(p.mediaUrl),
      MediaOf(p.mediaType))
  }

  predicate BodyOk(f: Fields, maxChars: nat) {
    1 <= |f.text| <= maxChars
  }

  predicate TopicOk(f: Fields) {
    !(f.topic.Some? && |f.topic.value| > MaxTopic)
  }

  predicate ExpiryOk(f: Fields) {
    f.expiresAt in AllowedExpiries
  }

  /** A present URL needs an allowed type; without one, no type may be given. */
  predicate MediaOk(f: Fields) {
    if Present(f.mediaUrl) then Present(f.mediaType) && f.mediaType.value in AllowedMedia
    else !Present(f.mediaType)
  }

  /** The outcome of validation: the row to insert, or the first error. */
  datatype Checked = Valid(row: PostRow) | Invalid(error: PostError)

  /** The validation chain: body, topic, expiry, media, in that order. */
  function Validate(author: UserId, f: Fields, maxChars: nat): (r: Checked)
    ensures r.Valid? <==> BodyOk(f, maxChars) && TopicOk(f) && ExpiryOk(f) && MediaOk(f)
    ensures r.Valid? ==> r.row.author == author && r.row.body == f.text
    ensures r.Valid? ==> r.row.mediaUrl == f.mediaUrl && r.row.mediaType == f.mediaType
    ensures r.Valid? ==> r.row.expiresInDays == ExpiryDays(ParseExpiry(f.expiresAt).value)
    ensures r.Invalid? ==> ErrorStatus(r.error) == 400
  {
    if !(1 <= |f.text| <= maxChars) then Invalid(BadLength(maxChars))
    else if f.topic.Some? && |f.topic.value| > MaxTopic then Invalid(TopicTooLong)
    else
      match ParseExpiry(f.expiresAt)
      case None => Invalid(InvalidExpiration)
      case Some(e) =>
        if Present(f.mediaUrl) && !(Present(f.mediaType) && f.mediaType.value in AllowedMedia) then
          Invalid(InvalidMediaType)
        else if !Present(f.mediaUrl) && Present(f.mediaType) then
          Invalid(MediaTypeWithoutUrl)
        else
          var topic := if Present(f.topic) then f.topic else None;
          Valid(PostRow(author, f.text, topic, ExpiryDays(e), f.mediaUrl, f.mediaType))
  }

  /** The first check that fails decides the error. */
  lemma ValidationOrder(author: UserId, f: Fields, maxChars: nat)
    ensures var r := Validate(author, f, maxChars);
      && (r == Invalid(BadLength(maxChars)) <==> !BodyOk(f, maxChars))
      && (r == Invalid(TopicTooLong) <==> BodyOk(f, maxChars) && !TopicOk(f))
      && (r == Invalid(InvalidExpiration) <==> BodyOk(f, maxChars) && TopicOk(f) && !ExpiryOk(f))
      && (r == Invalid(InvalidMediaType) <==>
            BodyOk(f, maxChars) && TopicOk(f) && ExpiryOk(f) && Present(f.mediaUrl) && !MediaOk(f))
      && (r == Invalid(MediaTypeWithoutUrl) <==>
            BodyOk(f, maxChars) && TopicOk(f) && ExpiryOk(f) && !Present(f.mediaUrl) && !MediaOk(f))
  {
  }

  /** The stored row of a validated request: a whitespace-only topic is
      stored as null, the expiry becomes its day count, and a media URL is
      present exactly when an allowed media type is. */
  lemma ValidatedRow(author: UserId, f: Fields, maxChars: nat)
    requires Validate(author, f, maxChars).Valid?
    ensures var row := Validate(author, f, maxChars).row;
      && 1 <= |row.body| <= maxChars
      && (row.topic.Some? <==> Present(f.topic))
      && (row.topic.Some? ==> row.topic == f.topic && |row.topic.value| <= MaxTopic)
      && row.expiresInDays == ExpiryDays(ParseExpiry(f.expiresAt).value)
      && (row.expiresInDays.None? <==> f.expiresAt == "none")
      && row.author == author && row.body == f.text
      && row.mediaUrl == f.mediaUrl && row.mediaType == f.mediaType
      && (Present(row.mediaUrl) <==> Present(row.mediaType))
      && (Present(row.mediaType) ==> row.mediaType.value in AllowedMedia)
  {
  }

  /** The route handler. `tierLookup` is the profile query for the caller's
      `subscription_tier` (`None` for a null column); `insertError` is the
      database's answer to the insert. */
  function CreatePost(auth: Auth<UserId>, payload: Payload, tierLookup: Query<Option<string>>,
                      posts: seq<PostRow>, insertError: Option<string>): (r: PostOutcome)
    ensures !auth.SignedIn? ==> r.reply == PostRejected(NotAuthenticated) && r.posts == posts
    ensures auth.SignedIn? && tierLookup.QueryFailed? ==>
      r.reply == PostRejected(ProfileLookupFailed(tierLookup.message))
    ensures auth.SignedIn? && tierLookup.Rows? ==>
      var maxChars := MaxCharsForTier(tierLookup.rows.GetOr("free"));
      var checked := Validate(auth.user, Normalise(payload), maxChars);
      && (checked.Invalid? ==> r.reply == PostRejected(checked.error))
      && (checked.Valid? && insertError.Some? ==> r.reply == PostRejected(InsertFailed(insertError.value)))
      && (checked.Valid? && insertError.None? ==> r.posts == posts + [checked.row])
    ensures r.reply.Created? <==>
      && auth.SignedIn? && tierLookup.Rows? && insertError.None?
      && Validate(auth.user, Normalise(payload), MaxCharsForTier(tierLookup.rows.GetOr("free"))).Valid?
    ensures !r.reply.Created? ==> r.posts == posts
    ensures r.reply.Created? ==>
      && |r.posts| == |posts| + 1 && r.posts[..|posts|] == posts
      && r.posts[|posts|].author == auth.user
      && r.reply.tier == tierLookup.rows.GetOr("free")
      && r.reply.maxChars == MaxCharsForTier(r.reply.tier)
      && 1 <= |r.posts[|posts|].body| <= r.reply.maxChars
  {
    match auth
    case AuthError(_) => PostOutcome(PostRejected(NotAuthenticated), posts)
    case SignedOut => PostOutcome(PostRejected(NotAuthenticated), posts)
    case SignedIn(user) =>
      var f := Normalise(payload);
      match tierLookup
      case QueryFailed(m) => PostOutcome(PostRejected(ProfileLookupFailed(m)), posts)
      case Rows(t) =>
        var tier := t.GetOr("free");
        var maxChars := MaxCharsForTier(tier);
        match Validate(user, f, maxChars)
        case Invalid(e) => PostOutcome(PostRejected(e), posts)
        case Valid(row) =>
          if insertError.Some? then PostOutcome(PostRejected(InsertFailed(insertError.value)), posts)
          else PostOutcome(Created(tier, maxChars), posts + [row])
  }

  /** The status of a refusal: 401 exactly when nobody is signed in, 400
      exactly when the request fails validation, and otherwise 500, for a
      failed profile lookup or a failed insert. */
  lemma CreatePostStatus(auth: Auth<UserId>, payload: Payload, tierLookup: Query<Option<string>>,
                         posts: seq<PostRow>, insertError: Option<string>)
    ensures var r := CreatePost(auth, payload, tierLookup, posts, insertError);
      var refused := auth.SignedIn? && tierLookup.Rows?
        && Validate(auth.user, Normalise(payload), MaxCharsForTier(tierLookup.rows.GetOr("free"))).Invalid?;
      r.reply.PostRejected? ==>
        && (ErrorStatus(r.reply.error) == 401 <==> !auth.SignedIn?)
        && (ErrorStatus(r.reply.error) == 400 <==> refused)
        && (ErrorStatus(r.reply.error) == 500 <==> auth.SignedIn? && !refused)
  {
    var r := CreatePost(auth, payload, tierLookup, posts, insertError);
    if auth.SignedIn? && tierLookup.Rows? {
      var checked := Validate(auth.user, Normalise(payload), MaxCharsForTier(tierLookup.rows.GetOr("free")));
      if checked.Invalid? {
        assert r.reply.error == checked.error && ErrorStatus(checked.error) == 400;
      }
    }
  }

  /** A signed-in author whose request validates gets exactly the validated
      row appended when the insert succeeds. */
  lemma ValidRequestCreates(author: UserId, payload: Payload, column: Option<string>, posts: seq<PostRow>)
    requires Validate(author, Normalise(payload), MaxCharsForTier(column.GetOr("free"))).Valid?
    ensures var tier := column.GetOr("free");
      CreatePost(SignedIn(author), payload, Rows(column), posts, None)
        == PostOutcome(Created(tier, MaxCharsForTier(tier)),
                       posts + [Validate(author, Normalise(payload), MaxCharsForTier(tier)).row])
  {
  }

  /** Every row the route ever stores satisfies the table's invariants. */
  ghost predicate WellFormedRow(row: PostRow) {
    && Trimmed(row.body) && 1 <= |row.body| <= 2000
    && (row.topic.Some? ==> row.topic.value != [] && |row.topic.value| <= MaxTopic)
    && (row.expiresInDays.Some? ==> row.expiresInDays.value in {7, 14, 30})
    && (Present(row.mediaUrl) <==> Present(row.mediaType))
    && (Present(row.mediaType) ==> row.mediaType.value in AllowedMedia)
  }

  /** Creating a post keeps every row of the table well formed. */
  lemma {:induction false} CreatePreservesWellFormed(auth: Auth<UserId>, payload: Payload, tierLookup: Query<Option<string>>,
                                                     posts: seq<PostRow>, insertError: Option<string>)
    requires forall i :: 0 <= i < |posts| ==> WellFormedRow(posts[i])
    ensures var r := CreatePost(auth, payload, tierLookup, posts, insertError).posts;
      forall i :: 0 <= i < |r| ==> WellFormedRow(r[i])
  {
    var r := CreatePost(auth, payload, tierLookup, posts, insertError);
    if r.reply.Created? {
      var f := Normalise(payload);
      ValidatedRow(auth.user, f, r.reply.maxChars);
      assert r.posts == posts + [Validate(auth.user, f, r.reply.maxChars).row];
    }
  }
}
