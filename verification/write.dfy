/** The compose and edit page (src/app/write/page.tsx): the tier-dependent
    character limit, the "one media per post" picker, the expiry shown for a
    loaded post, and the checks `submit` makes before it sends the request.
    Files, previews and uploads are reduced to what the checks look at. */
module Write {

  import opened Common
  import opened Text
  import opened Js
  import Posts

  /** Bytes in 10 MB and 25 MB: the largest image and video accepted. */
  const ImageMaxBytes: nat := 10 * 1024 * 1024
  const VideoMaxBytes: nat := 25 * 1024 * 1024

  /** `expiresAtToUi`. `remainingDays` is `None` for a post without an expiry,
      otherwise the days from now to the expiry, already rounded. */
  function ExpiresAtToUi(remainingDays: Option<int>): (e: Posts.Expiry)
    ensures remainingDays.None? <==> e == Posts.NoExpiry
    ensures remainingDays.Some? ==>
      && (e == Posts.Days7 <==> remainingDays.value <= 7)
      && (e == Posts.Days14 <==> 7 < remainingDays.value <= 14)
      && (e == Posts.Days30 <==> remainingDays.value > 14)
  {
    match remainingDays
    case None => Posts.NoExpiry
    case Some(d) => if d <= 7 then Posts.Days7 else if d <= 14 then Posts.Days14 else Posts.Days30
  }

  /** A post stored with an expiry and opened for editing straight away shows
      the expiry it was written with. */
  lemma ExpiryRoundTrip(e: Posts.Expiry)
    ensures ExpiresAtToUi(Posts.ExpiryDays(e)) == e
  {
  }

  /** The tier the page believes in: "plus" only when `/api/me` answered with
      that tier; a failed request or any other answer is "free". */
  function ClientTier(meTier: Option<string>): (t: string)
    ensures t == "plus" <==> meTier == Some("plus")
    ensures t != "plus" ==> t == "free"
  {
    if meTier == Some("plus") then "plus" else "free"
  }

  /** `maxChars`: the page's limit agrees with the server's for every tier
      the page can hold. */
  function MaxChars(tier: string): (n: nat)
    ensures tier == "plus" ==> n == 2000
    ensures tier != "plus" ==> n == 600
    ensures n == Posts.MaxCharsForTier(tier)
  {
    if tier == "plus" then 2000 else 600
  }

  /** `remaining`: it counts the untrimmed text and goes negative once the
      text is over the limit. */
  function Remaining(tier: string, body: string): (r: int)
    ensures r < 0 <==> |body| > MaxChars(tier)
    ensures r + |body| == MaxChars(tier)
  {
    MaxChars(tier) - |body|
  }

  /** A file the user picked: its MIME type and size in bytes. */
  datatype File = File(mime: string, size: nat)

  /** The media part of the page state: a picked image, a picked video, and
      the media of the post being edited; `error` is the message shown. */
  datatype Media = Media(
    image: Option<File>,
    video: Option<File>,
    existingUrl: Option<string>,
    existingType: Option<Posts.MediaType>,
    error: Option<string>)

  const NoMedia: Media := Media(None, None, None, None, None)

  /** The existing media counts as attached when either column is set. */
  predicate HasExisting(m: Media) {
    m.existingUrl.Some? || m.existingType.Some?
  }

  function Count(b: bool): nat { if b then 1 else 0 }

  /** The one-media rule: at most one source of media is attached. */
  predicate OneMedia(m: Media) {
    Count(m.image.Some?) + Count(m.video.Some?) + Count(HasExisting(m)) <= 1
  }

  const NotAnImage: string := "Please choose an image file."
  const ImageTooLarge: string := "That image is too large. Please use one under 10MB."
  const NotAVideo: string := "Please choose a video file."
  const VideoTooLarge: string := "That video is too large. Please use one under 25MB."
  const NotMedia: string := "Please choose an image or video file."

  /** `onPickImage`: no file clears the picked image; a non-image or one over
      10 MB only sets an error; otherwise the image replaces every other
      media source. */
  function PickImage(m: Media, file: Option<File>): (r: Media)
    ensures file.None? ==> r == m.(image := None, error := None)
    ensures file.Some? && !StartsWith(file.value.mime, "image/") ==> r == m.(error := Some(NotAnImage))
    ensures file.Some? && StartsWith(file.value.mime, "image/") && file.value.size > ImageMaxBytes ==>
      r == m.(error := Some(ImageTooLarge))
    ensures file.Some? && StartsWith(file.value.mime, "image/") && file.value.size <= ImageMaxBytes ==>
      r == Media(file, None, None, None, None)
  {
    match file
    case None => m.(image := None, error := None)
    case Some(f) =>
      if !StartsWith(f.mime, "image/") then m.(error := Some(NotAnImage))
      else if f.size > ImageMaxBytes then m.(error := Some(ImageTooLarge))
      else Media(Some(f), None, None, None, None)
  }

  /** `onPickVideo`, the same with video and 25 MB. */
  function PickVideo(m: Media, file: Option<File>): (r: Media)
    ensures file.None? ==> r == m.(video := None, error := None)
    ensures file.Some? && !StartsWith(file.value.mime, "video/") ==> r == m.(error := Some(NotAVideo))
    ensures file.Some? && StartsWith(file.value.mime, "video/") && file.value.size > VideoMaxBytes ==>
      r == m.(error := Some(VideoTooLarge))
    ensures file.Some? && StartsWith(file.value.mime, "video/") && file.value.size <= VideoMaxBytes ==>
      r == Media(None, file, None, None, None)
  {
    match file
    case None => m.(video := None, error := None)
    case Some(f) =>
      if !StartsWith(f.mime, "video/") then m.(error := Some(NotAVideo))
      else if f.size > VideoMaxBytes then m.(error := Some(VideoTooLarge))
      else Media(None, Some(f), None, None, None)
  }

  /** `onPickMedia`: one picker for both kinds, dispatching on the MIME type. */
  function PickMedia(m: Media, file: Option<File>): (r: Media)
    ensures file.None? ==> r == m.(error := None)
    ensures file.Some? && StartsWith(file.value.mime, "image/") ==> r == PickImage(m, file)
    ensures file.Some? && !StartsWith(file.value.mime, "image/") && StartsWith(file.value.mime, "video/") ==>
      r == PickVideo(m, file)
    ensures file.Some? && !StartsWith(file.value.mime, "image/") && !StartsWith(file.value.mime, "video/") ==>
      r == m.(error := Some(NotMedia))
  {
    match file
    case None => m.(error := None)
    case Some(f) =>
      if StartsWith(f.mime, "image/") then PickImage(m, file)
      else if StartsWith(f.mime, "video/") then PickVideo(m, file)
      else m.(error := Some(NotMedia))
  }

  /** `clearAllMedia`: drops every media source and keeps the message. */
  function ClearAllMedia(m: Media): (r: Media)
    ensures !HasExisting(r) && r.image.None? && r.video.None? && r.error == m.error
  {
    NoMedia.(error := m.error)
  }

  /** The post the edit request loads. */
  datatype EditPost = EditPost(body: Option<string>, topic: Option<string>, remainingDays: Option<int>,
                               mediaUrl: Option<string>, mediaType: Option<Posts.MediaType>)

  /** The text fields of the form. */
  datatype Draft = Draft(body: string, topic: string, expiry: Posts.Expiry)

  /** Loading a post for editing: its fields fill the form, its media becomes
      the existing media, and picked files are dropped. */
  function LoadEdit(m: Media, p: EditPost): (r: (Draft, Media))
    ensures r.0.body == p.body.GetOr([]) && r.0.topic == p.topic.GetOr([])
    ensures r.0.expiry == ExpiresAtToUi(p.remainingDays)
    ensures r.1.image.None? && r.1.video.None?
    ensures r.1.existingUrl == p.mediaUrl && r.1.existingType == p.mediaType
  {
    (Draft(p.body.GetOr([]), p.topic.GetOr([]), ExpiresAtToUi(p.remainingDays)),
     Media(None, None, p.mediaUrl, p.mediaType, None))
  }

  /** Every media operation keeps the one-media rule. */
  lemma OneMediaPreserved(m: Media, file: Option<File>, p: EditPost)
    requires OneMedia(m)
    ensures OneMedia(PickImage(m, file)) && OneMedia(PickVideo(m, file)) && OneMedia(PickMedia(m, file))
    ensures OneMedia(ClearAllMedia(m)) && OneMedia(LoadEdit(m, p).1)
  {
  }

  /** A rejected pick changes nothing but the message. */
  lemma RejectedPickKeepsMedia(m: Media, f: File)
    requires !StartsWith(f.mime, "image/") || f.size > ImageMaxBytes
    ensures var r := PickImage(m, Some(f));
      r.image == m.image && r.video == m.video && r.existingUrl == m.existingUrl
      && r.existingType == m.existingType && r.error.Some?
  {
  }

  /** The size limits are inclusive: a file of exactly the limit is taken. */
  lemma LimitsInclusive(m: Media)
    ensures PickImage(m, Some(File("image/png", ImageMaxBytes))).image == Some(File("image/png", ImageMaxBytes))
    ensures PickImage(m, Some(File("image/png", ImageMaxBytes + 1))).error == Some(ImageTooLarge)
    ensures PickVideo(m, Some(File("video/mp4", VideoMaxBytes))).video == Some(File("video/mp4", VideoMaxBytes))
    ensures PickVideo(m, Some(File("video/mp4", VideoMaxBytes + 1))).error == Some(VideoTooLarge)
  {
    assert StartsWith("image/png", "image/");
    assert StartsWith("video/mp4", "video/");
  }

  /** `attachedType`: the picked video, else the picked image, else the
      existing media's type. */
  function AttachedType(m: Media): (t: Option<Posts.MediaType>)
    ensures OneMedia(m) && m.video.Some? ==> t == Some(Posts.Video)
    ensures OneMedia(m) && m.image.Some? ==> t == Some(Posts.Image)
    ensures OneMedia(m) && m.image.None? && m.video.None? ==> t == m.existingType
  {
    if m.video.Some? then Some(Posts.Video)
    else if m.image.Some? then Some(Posts.Image)
    else m.existingType
  }

  /** The media the request carries: `finalMediaUrl` and `finalMediaType`.
      `uploadedImage` and `uploadedVideo` are the public URLs of the files
      just uploaded, `None` when there was nothing to upload. */
  datatype FinalMedia = FinalMedia(url: Option<string>, kind: Option<Posts.MediaType>)

  function Final(uploadedImage: Option<string>, uploadedVideo: Option<string>,
                 existingUrl: Option<string>, existingType: Option<Posts.MediaType>): (r: FinalMedia)
    ensures r.url.Some? <==> r.kind.Some?
    ensures r.url.Some? ==> r.url.value != []
    ensures Present(uploadedVideo) ==> r == FinalMedia(uploadedVideo, Some(Posts.Video))
    ensures !Present(uploadedVideo) && Present(uploadedImage) ==> r == FinalMedia(uploadedImage, Some(Posts.Image))
    ensures !Present(uploadedVideo) && !Present(uploadedImage) ==>
      r == (if Present(existingUrl) && existingType.Some? then FinalMedia(existingUrl, existingType) else FinalMedia(None, None))
  {
    var url :=
      if Present(uploadedVideo) then uploadedVideo
      else if Present(uploadedImage) then uploadedImage
      else if Present(existingUrl) && existingType.Some? then existingUrl
      else None;
    var kind :=
      if Present(uploadedVideo) then Some(Posts.Video)
      else if Present(uploadedImage) then Some(Posts.Image)
      else if Present(existingUrl) then existingType
      else None;
    FinalMedia(url, kind)
  }

  /** The JSON body `submit` posts: an empty topic is sent as `null`, absent
      media as `null`. */
  function RequestBody(text: string, cleanTopic: string, expiry: Posts.Expiry, media: FinalMedia): (p: Posts.Payload)
    ensures p.body == Str(text) && p.expiresAt == Str(Posts.ExpiryName(expiry))
    ensures p.topic.Str? <==> cleanTopic != []
    ensures p.mediaUrl.Str? <==> media.url.Some?
    ensures p.mediaType.Str? <==> media.kind.Some?
  {
    Posts.Payload(
      Str(text),
      if cleanTopic != [] then Str(cleanTopic) else Null,
      Str(Posts.ExpiryName(expiry)),
      FromOption(media.url),
      if media.kind.Some? then Str(Posts.MediaTypeName(media.kind.value)) else Null)
  }

  /** The server reads back the media the page meant to send. */
  lemma MediaReadBack(text: string, cleanTopic: string, expiry: Posts.Expiry, media: FinalMedia)
    requires media.url.Some? <==> media.kind.Some?
    requires media.url.Some? ==> media.url.value != []
    ensures var f := Posts.Normalise(RequestBody(text, cleanTopic, expiry, media));
      f.mediaUrl == media.url
      && f.mediaType == if media.kind.Some? then Some(Posts.MediaTypeName(media.kind.value)) else None
  {
    match media.kind
    case None =>
    case Some(Image) =>
    case Some(Video) =>
  }

  /** The server reads back the body text the page sends. */
  lemma BodyReadBack(text: string, cleanTopic: string, expiry: Posts.Expiry, media: FinalMedia)
    requires Trimmed(text)
    ensures Posts.Normalise(RequestBody(text, cleanTopic, expiry, media)).text == text
  {
    var p := RequestBody(text, cleanTopic, expiry, media);
    assert TextOrEmpty(p.body) == text;
    TrimOfTrimmed(text);
  }

  /** The server reads back the topic the page sends; an empty one is null. */
  lemma TopicReadBack(text: string, cleanTopic: string, expiry: Posts.Expiry, media: FinalMedia)
    requires Trimmed(cleanTopic)
    ensures Posts.Normalise(RequestBody(text, cleanTopic, expiry, media)).topic
         == if cleanTopic != [] then Some(cleanTopic) else None
  {
    var p := RequestBody(text, cleanTopic, expiry, media);
    if cleanTopic != [] {
      assert ToText(p.topic) == cleanTopic;
      TrimOfTrimmed(cleanTopic);
    }
  }

  /** The server reads back the text fields the page meant to send. */
  lemma TextReadBack(text: string, cleanTopic: string, expiry: Posts.Expiry, media: FinalMedia)
    requires Trimmed(text) && Trimmed(cleanTopic)
    ensures var f := Posts.Normalise(RequestBody(text, cleanTopic, expiry, media));
      && f.text == text
      && f.topic == (if cleanTopic != [] then Some(cleanTopic) else None)
      && f.expiresAt == Posts.ExpiryName(expiry)
  {
    BodyReadBack(text, cleanTopic, expiry, media);
    TopicReadBack(text, cleanTopic, expiry, media);
  }

  /** The server reads back exactly the fields the page meant to send. */
  lemma RequestBodyReadBack(text: string, cleanTopic: string, expiry: Posts.Expiry, media: FinalMedia)
    requires Trimmed(text) && Trimmed(cleanTopic)
    requires media.url.Some? <==> media.kind.Some?
    requires media.url.Some? ==> media.url.value != []
    ensures Posts.Normalise(RequestBody(text, cleanTopic, expiry, media))
         == Posts.Fields(text, if cleanTopic != [] then Some(cleanTopic) else None, Posts.ExpiryName(expiry),
                         media.url, if media.kind.Some? then Some(Posts.MediaTypeName(media.kind.value)) else None)
  {
    TextReadBack(text, cleanTopic, expiry, media);
    MediaReadBack(text, cleanTopic, expiry, media);
  }

  /** A body the page's own checks let through passes the server's checks
      for any server limit at least the page's. */
  lemma RequestBodyValid(text: string, cleanTopic: string, expiry: Posts.Expiry, media: FinalMedia,
                         author: UserId, serverMax: nat)
    requires Trimmed(text) && Trimmed(cleanTopic)
    requires 1 <= |text| <= serverMax && |cleanTopic| <= Posts.MaxTopic
    requires media.url.Some? <==> media.kind.Some?
    requires media.url.Some? ==> media.url.value != []
    ensures Posts.Validate(author, Posts.Normalise(RequestBody(text, cleanTopic, expiry, media)), serverMax).Valid?
  {
    RequestBodyReadBack(text, cleanTopic, expiry, media);
    var f := Posts.Fields(text, if cleanTopic != [] then Some(cleanTopic) else None, Posts.ExpiryName(expiry),
                          media.url, if media.kind.Some? then Some(Posts.MediaTypeName(media.kind.value)) else None);
    Posts.ParseExpiryName(expiry);
    assert Posts.BodyOk(f, serverMax) && Posts.TopicOk(f) && Posts.ExpiryOk(f);
    if media.kind.Some? {
      assert Posts.MediaTypeName(media.kind.value) in Posts.AllowedMedia;
    }
    assert Posts.MediaOk(f);
  }

  /** The media a send carries: the picked files' uploaded URLs, else the
      existing media. */
  function SentMedia(m: Media, storage: Storage): (r: FinalMedia)
    requires storage.Stored?
    ensures r.url.Some? <==> r.kind.Some?
    ensures r.url.Some? ==> r.url.value != []
    ensures m.video.Some? && storage.videoUrl != [] ==> r == FinalMedia(Some(storage.videoUrl), Some(Posts.Video))
  {
    var uploadedImage := if m.image.Some? then Some(storage.imageUrl) else None;
    var uploadedVideo := if m.video.Some? then Some(storage.videoUrl) else None;
    Final(uploadedImage, uploadedVideo, m.existingUrl, m.existingType)
  }

  /** The "Attached:" label names the kind of media the post is sent with:
      once the picked file is uploaded, or when only existing media is kept,
      the request carries exactly the type the page showed. */
  lemma AttachedIsSent(m: Media, storage: Storage)
    requires OneMedia(m) && storage.Stored? && storage.imageUrl != [] && storage.videoUrl != []
    requires m.image.None? && m.video.None? ==> Present(m.existingUrl)
    ensures SentMedia(m, storage).kind == AttachedType(m)
  {
  }

  datatype Verb = Post | Patch

  /** The request `submit` sends: verb, endpoint and JSON body. */
  datatype Request = Request(verb: Verb, endpoint: string, payload: Posts.Payload)

  /** What the storage service does with the picked files. */
  datatype Storage = Stored(imageUrl: string, videoUrl: string) | StorageFailed(message: string)

  datatype SubmitError = EmptyBody | TooLong(maxChars: nat) | TopicTooLong | UploadFailed(message: string)

  datatype SubmitResult = Blocked | Refused(error: SubmitError) | Send(request: Request)

  /** The busy flags: a submit or an edit load is in flight. */
  datatype Busy = Busy(loading: bool, loadingEdit: bool)

  /** `submit`. `editId` is the `edit` query parameter. */
  function Submit(d: Draft, m: Media, tier: string, busy: Busy, editId: Option<string>, storage: Storage)
    : (r: SubmitResult)
    ensures busy.loading || busy.loadingEdit <==> r == Blocked
    ensures r == Refused(EmptyBody) <==> !busy.loading && !busy.loadingEdit && Trim(d.body) == []
    ensures r == Refused(TooLong(MaxChars(tier))) <==> !busy.loading && !busy.loadingEdit && |Trim(d.body)| > MaxChars(tier)
    ensures r == Refused(TopicTooLong) <==>
      !busy.loading && !busy.loadingEdit && 1 <= |Trim(d.body)| <= MaxChars(tier) && |Trim(d.topic)| > Posts.MaxTopic
    ensures r.Refused? && r.error.UploadFailed? <==>
      && !busy.loading && !busy.loadingEdit && 1 <= |Trim(d.body)| <= MaxChars(tier) && |Trim(d.topic)| <= Posts.MaxTopic
      && storage.StorageFailed? && (m.image.Some? || m.video.Some?)
    ensures r.Send? <==>
      && !busy.loading && !busy.loadingEdit && 1 <= |Trim(d.body)| <= MaxChars(tier) && |Trim(d.topic)| <= Posts.MaxTopic
      && !(storage.StorageFailed? && (m.image.Some? || m.video.Some?))
    ensures r.Send? ==>
      && (r.request.verb == Patch <==> Present(editId))
      && r.request.endpoint == (if Present(editId) then "/api/posts/" + editId.value else "/api/posts")
      && 1 <= |Trim(d.body)| <= MaxChars(tier) && |Trim(d.topic)| <= Posts.MaxTopic
      && (storage.StorageFailed? ==> m.image.None? && m.video.None?)
      && r.request.payload == RequestBody(Trim(d.body), Trim(d.topic), d.expiry,
                                          if storage.Stored? then SentMedia(m, storage) else Final(None, None, m.existingUrl, m.existingType))
  {
    var text := Trim(d.body);
    var cleanTopic := Trim(d.topic);
    if busy.loading || busy.loadingEdit then Blocked
    else if |text| < 1 then Refused(EmptyBody)
    else if |text| > MaxChars(tier) then Refused(TooLong(MaxChars(tier)))
    else if |cleanTopic| > Posts.MaxTopic then Refused(TopicTooLong)
    else if storage.StorageFailed? && (m.image.Some? || m.video.Some?) then Refused(UploadFailed(storage.message))
    else
      var media := if storage.Stored? then SentMedia(m, storage) else Final(None, None, m.existingUrl, m.existingType);
      var payload := RequestBody(text, cleanTopic, d.expiry, media);
      var isEdit := Present(editId);
      Send(Request(if isEdit then Patch else Post, if isEdit then "/api/posts/" + editId.value else "/api/posts", payload))
  }

  /** Whatever the page sends passes the posts route's validation, as long as
      the page's limit is not above the server's: the server trims text the
      page already trimmed, and the final media always pairs a URL with a
      type. */
  lemma SentRequestValidates(d: Draft, m: Media, tier: string, busy: Busy, editId: Option<string>,
                              storage: Storage, author: UserId, serverMax: nat)
    requires Submit(d, m, tier, busy, editId, storage).Send?
    requires MaxChars(tier) <= serverMax
    ensures var p := Submit(d, m, tier, busy, editId, storage).request.payload;
      var f := Posts.Normalise(p);
      && Posts.Validate(author, f, serverMax).Valid?
      && f.text == Trim(d.body)
      && (f.topic.Some? <==> Trim(d.topic) != [])
  {
    var text := Trim(d.body);
    var cleanTopic := Trim(d.topic);
    var media := if storage.Stored? then SentMedia(m, storage) else Final(None, None, m.existingUrl, m.existingType);
    TextReadBack(text, cleanTopic, d.expiry, media);
    RequestBodyValid(text, cleanTopic, d.expiry, media, author, serverMax);
  }

  /** A new post (no edit id) goes to `POST /api/posts`; a signed-in author
      whose tier the page read correctly always gets it created there, with
      the body they typed, trimmed. */
  lemma SentRequestCreates(d: Draft, m: Media, busy: Busy, editId: Option<string>, storage: Storage,
                           author: UserId, column: Option<string>, posts: seq<Posts.PostRow>)
    requires !Present(editId)
    requires Submit(d, m, ClientTier(Some(column.GetOr("free"))), busy, editId, storage).Send?
    ensures var q := Submit(d, m, ClientTier(Some(column.GetOr("free"))), busy, editId, storage).request;
      var r := Posts.CreatePost(SignedIn(author), q.payload, Rows(column), posts, None);
      && q.verb == Post && q.endpoint == "/api/posts"
      && r.reply.Created? && r.posts[|posts|].body == Trim(d.body)
  {
    var tier := ClientTier(Some(column.GetOr("free")));
    var serverMax := Posts.MaxCharsForTier(column.GetOr("free"));
    var p := Submit(d, m, tier, busy, editId, storage).request.payload;
    SentRequestValidates(d, m, tier, busy, editId, storage, author, serverMax);
    Posts.ValidRequestCreates(author, p, column, posts);
  }
}
