/** `POST /api/acknowledgements` (src/app/api/acknowledgements/route.ts): a
    signed-in reader privately acknowledges someone else's post. The
    acknowledgements table is a set of `(post, sender, kind)` triples; its
    unique constraint is what makes a repeated submission harmless. */
module Acknowledgements {

  import opened Common
  import opened Text
  import opened Js

  /** The three acknowledgement kinds. */
  datatype Kind = Read | Resonated | ThankYou

  /** The wire name of a kind. */
  function KindName(k: Kind): string {
    match k
    case Read => "read"
    case Resonated => "resonated"
    case ThankYou => "thank_you"
  }

  /** `ALLOWED`. */
  const AllowedKinds: set<string> := {"read", "resonated", "thank_you"}

  /** Reads a kind from its wire name; anything outside `ALLOWED` is refused. */
  function ParseKind(s: string): (r: Option<Kind>)
    ensures r.Some? <==> s in AllowedKinds
    ensures r.Some? ==> KindName(r.value) == s
  {
    if s == "read" then Some(Read)
    else if s == "resonated" then Some(Resonated)
    else if s == "thank_you" then Some(ThankYou)
    else None
  }

  /** Every kind's wire name reads back as that kind. */
  lemma ParseKindName(k: Kind)
    ensures KindName(k) in AllowedKinds
    ensures ParseKind(KindName(k)) == Some(k)
  {
  }

  /** Wire names carry no surrounding whitespace, so trimming keeps them. */
  lemma KindNameTrimmed(k: Kind)
    ensures Trimmed(KindName(k))
    ensures Trim(KindName(k)) == KindName(k)
  {
    var n := KindName(k);
    assert !IsSpace(n[0]) && !IsSpace(n[|n| - 1]);
    TrimOfTrimmed(n);
  }

  /** The JSON body of the request. */
  datatype Payload = Payload(postId: JsVal, kind: JsVal)

  /** A row of the acknowledgements table. */
  datatype Ack = Ack(post: PostId, sender: UserId, kind: Kind)

  datatype AckError =
    | AuthFailed(message: string)
    | NotAuthenticated
    | InvalidJson
    | MissingPostId
    | InvalidKind
    | PostNotFound
    | OwnPost
    | InsertFailed(message: string)

  datatype AckReply = Recorded | AlreadyRecorded | AckRejected(error: AckError)

  /** The HTTP status the route answers with. */
  function Status(r: AckReply): (code: int)
    ensures code == 200 <==> r.Recorded? || r.AlreadyRecorded?
    ensures code == 401 <==> r == AckRejected(NotAuthenticated)
    ensures code == 404 <==> r == AckRejected(PostNotFound)
    ensures code == 500 <==> r.AckRejected? && (r.error.AuthFailed? || r.error.InsertFailed?)
  {
    match r
    case Recorded => 200
    case AlreadyRecorded => 200
    case AckRejected(e) =>
      match e
      case AuthFailed(_) => 500
      case NotAuthenticated => 401
      case InvalidJson => 400
      case MissingPostId => 400
      case InvalidKind => 400
      case PostNotFound => 404
      case OwnPost => 400
      case InsertFailed(_) => 500
  }

  datatype AckOutcome = AckOutcome(reply: AckReply, store: set<Ack>)

  /** `typeof v === "string" ? v.trim() : ""`. */
  function TrimmedString(v: JsVal): (r: string)
    ensures Trimmed(r)
    ensures !v.Str? ==> r == []
  {
    if v.Str? then Trim(v.s) else []
  }

  /** The triple a well-formed request from `sender` asks to record: the
      trimmed post id, when non-empty, and the trimmed kind, when allowed. */
  function Requested(p: Payload, sender: UserId): (a: Option<Ack>)
    ensures a.Some? <==> TrimmedString(p.postId) != [] && TrimmedString(p.kind) in AllowedKinds
    ensures a.Some? ==>
      a.value.sender == sender && a.value.post == TrimmedString(p.postId) && KindName(a.value.kind) == TrimmedString(p.kind)
  {
    var postId := TrimmedString(p.postId);
    var kind := ParseKind(TrimmedString(p.kind));
    if postId != [] && kind.Some? then Some(Ack(postId, sender, kind.value)) else None
  }

  /** The route handler. `body` is `None` when the request body is not JSON;
      `authors` maps each post id to its author; `insertError` is a database
      error other than the unique violation. */
  function Acknowledge(auth: Auth<UserId>, body: Option<Payload>, authors: map<PostId, UserId>,
                       store: set<Ack>, insertError: Option<string>): (r: AckOutcome)
    ensures auth.AuthError? ==> r.reply == AckRejected(AuthFailed(auth.message))
    ensures auth.SignedOut? ==> r.reply == AckRejected(NotAuthenticated)
    ensures r.reply != Recorded ==> r.store == store
    ensures r.reply == Recorded ==>
      && auth.SignedIn? && body.Some? && Requested(body.value, auth.user).Some?
      && var a := Requested(body.value, auth.user).value;
      && a !in store && r.store == store + {a}
      && a.post in authors && authors[a.post] != auth.user
    ensures r.reply == AlreadyRecorded ==>
      && auth.SignedIn? && body.Some? && Requested(body.value, auth.user).Some?
      && Requested(body.value, auth.user).value in store
    ensures auth.SignedIn? && body.None? ==> r.reply == AckRejected(InvalidJson)
    ensures auth.SignedIn? && body.Some? && Requested(body.value, auth.user).Some? ==>
      var a := Requested(body.value, auth.user).value;
      a.post in authors && authors[a.post] != auth.user ==>
        && (insertError.Some? ==> r.reply == AckRejected(InsertFailed(insertError.value)))
        && (insertError.None? && a in store ==> r.reply == AlreadyRecorded)
        && (insertError.None? && a !in store ==> r.reply == Recorded && r.store == store + {a})
  {
    match auth
    case AuthError(m) => AckOutcome(AckRejected(AuthFailed(m)), store)
    case SignedOut => AckOutcome(AckRejected(NotAuthenticated), store)
    case SignedIn(user) =>
      match body
      case None => AckOutcome(AckRejected(InvalidJson), store)
      case Some(p) =>
        var postId := TrimmedString(p.postId);
        var kind := ParseKind(TrimmedString(p.kind));
        if postId == [] then AckOutcome(AckRejected(MissingPostId), store)
        else if kind.None? then AckOutcome(AckRejected(InvalidKind), store)
        else if postId !in authors then AckOutcome(AckRejected(PostNotFound), store)
        else if authors[postId] == user then AckOutcome(AckRejected(OwnPost), store)
        else
          var a := Ack(postId, user, kind.value);
          if insertError.Some? then AckOutcome(AckRejected(InsertFailed(insertError.value)), store)
          else if a in store then AckOutcome(AlreadyRecorded, store)
          else AckOutcome(Recorded, store + {a})
  }

  /** The request passes every check before the insert: a signed-in sender,
      a JSON body naming a triple, and a known post written by someone else. */
  predicate Admissible(auth: Auth<UserId>, body: Option<Payload>, authors: map<PostId, UserId>) {
    && auth.SignedIn? && body.Some? && Requested(body.value, auth.user).Some?
    && var a := Requested(body.value, auth.user).value;
    && a.post in authors && authors[a.post] != auth.user
  }

  /** The status of the answer: 401 exactly without a user, 404 exactly for
      a well-formed request naming an unknown post, 500 exactly for an auth
      error or a failed insert, and 200 exactly for an admissible request
      whose insert went through, the triple then being stored. */
  lemma AcknowledgeStatus(auth: Auth<UserId>, body: Option<Payload>, authors: map<PostId, UserId>,
                          store: set<Ack>, insertError: Option<string>)
    ensures var r := Acknowledge(auth, body, authors, store, insertError);
      && (Status(r.reply) == 401 <==> auth.SignedOut?)
      && (Status(r.reply) == 404 <==>
            auth.SignedIn? && body.Some? && Requested(body.value, auth.user).Some?
            && Requested(body.value, auth.user).value.post !in authors)
      && (Status(r.reply) == 500 <==> auth.AuthError? || (Admissible(auth, body, authors) && insertError.Some?))
      && (Status(r.reply) == 200 <==> Admissible(auth, body, authors) && insertError.None?)
      && (Status(r.reply) == 200 ==> Requested(body.value, auth.user).value in r.store)
  {
    var r := Acknowledge(auth, body, authors, store, insertError);
    if auth.SignedIn? && body.Some? {
      var req := Requested(body.value, auth.user);
      if req.Some? && req.value.post in authors && authors[req.value.post] != auth.user {
        assert Admissible(auth, body, authors);
      } else {
        assert !Admissible(auth, body, authors);
        assert r.reply.AckRejected? && !r.reply.error.InsertFailed?;
      }
    }
  }

  /** For a signed-in sender with a JSON body, the checks run in the order
      post id, kind, post lookup, ownership, and the first one that fails
      decides the answer. */
  lemma CheckOrder(user: UserId, p: Payload, authors: map<PostId, UserId>, store: set<Ack>, insertError: Option<string>)
    ensures var r := Acknowledge(SignedIn(user), Some(p), authors, store, insertError).reply;
      var postId := TrimmedString(p.postId);
      var kind := TrimmedString(p.kind);
      && (r == AckRejected(MissingPostId) <==> postId == [])
      && (r == AckRejected(InvalidKind) <==> postId != [] && kind !in AllowedKinds)
      && (r == AckRejected(PostNotFound) <==> postId != [] && kind in AllowedKinds && postId !in authors)
      && (r == AckRejected(OwnPost) <==>
            postId != [] && kind in AllowedKinds && postId in authors && authors[postId] == user)
  {
  }

  /** A non-string or whitespace-only post id is refused as missing, whatever
      the kind says. */
  lemma MissingPostIdFirst(user: UserId, p: Payload, authors: map<PostId, UserId>, store: set<Ack>, insertError: Option<string>)
    requires !p.postId.Str? || forall i :: 0 <= i < |p.postId.s| ==> IsSpace(p.postId.s[i])
    ensures Acknowledge(SignedIn(user), Some(p), authors, store, insertError).reply == AckRejected(MissingPostId)
  {
    if p.postId.Str? {
      TrimEmptyIffAllSpace(p.postId.s);
    }
  }

  /** Acknowledging one's own post is refused and stores nothing. */
  lemma OwnPostRefused(user: UserId, post: PostId, k: Kind, authors: map<PostId, UserId>, store: set<Ack>, insertError: Option<string>)
    requires post != [] && Trimmed(post)
    requires post in authors && authors[post] == user
    ensures var r := Acknowledge(SignedIn(user), Some(Payload(Str(post), Str(KindName(k)))), authors, store, insertError);
      r.reply == AckRejected(OwnPost) && Status(r.reply) == 400 && r.store == store
  {
    TrimOfTrimmed(post);
    KindNameTrimmed(k);
    ParseKindName(k);
    assert TrimmedString(Str(post)) == post;
    assert TrimmedString(Str(KindName(k))) == KindName(k);
  }

  /** Submitting the same acknowledgement twice leaves the store as the first
      submission left it, and the second answer is "already". */
  lemma {:induction false} SubmitIdempotent(auth: Auth<UserId>, body: Option<Payload>, authors: map<PostId, UserId>, store: set<Ack>)
    requires Acknowledge(auth, body, authors, store, None).reply == Recorded
    ensures var first := Acknowledge(auth, body, authors, store, None);
      var second := Acknowledge(auth, body, authors, first.store, None);
      second.reply == AlreadyRecorded && second.store == first.store
  {
    var first := Acknowledge(auth, body, authors, store, None);
    assert Requested(body.value, auth.user).value in first.store;
  }
}
