/** `POST`/`GET /api/profile/ensure` (src/app/api/profile/ensure/route.ts):
    create or refresh the signed-in user's profile row with an e-mail address
    and a display name. The profiles table is a map keyed on the user id. */
module Profile {

  import opened Common
  import opened Text
  import opened Js

  /** The auth service's view of a user: `email` (null or undefined is
      `None`) and the OAuth metadata fields the route reads. */
  datatype AuthUser = AuthUser(id: UserId, email: Option<string>, metaEmail: JsVal, metaFullName: JsVal, metaName: JsVal)

  /** A row of the profiles table, with the columns the model uses.
      `onboardingCompleted` is false for a null column. */
  datatype ProfileRow = ProfileRow(
    email: Option<string>,
    displayName: string,
    onboardingCompleted: bool,
    subscriptionTier: Option<string>)

  /** The e-mail fallback: `user.email`, unless null or undefined, then the
      metadata e-mail if it is a string, else null. An empty `user.email` is
      kept: `??` only skips null and undefined. */
  function EmailOf(u: AuthUser): (e: Option<string>)
    ensures u.email.Some? ==> e == u.email
    ensures u.email.None? && u.metaEmail.Str? ==> e == Some(u.metaEmail.s)
    ensures u.email.None? && !u.metaEmail.Str? ==> e.None?
  {
    if u.email.Some? then u.email
    else if u.metaEmail.Str? then Some(u.metaEmail.s)
    else None
  }

  /** `typeof v === "string" && v`: the string when it is a non-empty string. */
  function NonEmptyString(v: JsVal): (r: Option<string>)
    ensures r.Some? <==> v.Str? && v.s != []
    ensures r.Some? ==> r.value == v.s
  {
    if v.Str? && v.s != [] then Some(v.s) else None
  }

  const FallbackName: string := "Someone"

  /** The display-name fallback chain. */
  function DisplayName(u: AuthUser, email: Option<string>): (d: string)
    ensures d != []
  {
    var fromEmail := if Present(email) then BeforeFirst(email.value, '@') else [];
    if NonEmptyString(u.metaFullName).Some? then u.metaFullName.s
    else if NonEmptyString(u.metaName).Some? then u.metaName.s
    else if fromEmail != [] then fromEmail
    else FallbackName
  }

  /** The display name is the first non-empty of the full name, the name, and
      the part of the e-mail before the first `@`; failing all three it is
      "Someone". It is never empty. */
  lemma DisplayNameChoice(u: AuthUser, email: Option<string>)
    ensures var d := DisplayName(u, email);
      var local := if email.Some? then BeforeFirst(email.value, '@') else [];
      && d != []
      && (u.metaFullName.Str? && u.metaFullName.s != [] ==> d == u.metaFullName.s)
      && (!(u.metaFullName.Str? && u.metaFullName.s != []) && u.metaName.Str? && u.metaName.s != [] ==> d == u.metaName.s)
      && (!(u.metaFullName.Str? && u.metaFullName.s != []) && !(u.metaName.Str? && u.metaName.s != []) ==>
            d == if local != [] then local else FallbackName)
  {
  }

  datatype EnsureError = AuthFailed(message: string) | NotAuthenticated | UpsertFailed(message: string)

  datatype EnsureReply = Ensured(emailSaved: bool) | EnsureRejected(error: EnsureError)

  function Status(r: EnsureReply): (code: int)
    ensures code == 200 <==> r.Ensured?
    ensures code == 401 <==> r == EnsureRejected(NotAuthenticated)
    ensures code == 500 <==> r.EnsureRejected? && !r.error.NotAuthenticated?
  {
    match r
    case Ensured(_) => 200
    case EnsureRejected(e) =>
      match e
      case AuthFailed(_) => 500
      case NotAuthenticated => 401
      case UpsertFailed(_) => 500
  }

  datatype EnsureOutcome = EnsureOutcome(reply: EnsureReply, profiles: map<UserId, ProfileRow>)

  /** `upsert(..., { onConflict: "user_id" })`: sets the e-mail and display
      name of the user's row, creating it when missing; a new row starts not
      onboarded and without a subscription tier. */
  function Upsert(profiles: map<UserId, ProfileRow>, id: UserId, email: Option<string>, name: string)
    : (m: map<UserId, ProfileRow>)
    ensures m.Keys == profiles.Keys + {id}
    ensures forall v :: v in profiles && v != id ==> m[v] == profiles[v]
    ensures m[id].email == email && m[id].displayName == name
    ensures id in profiles ==>
      m[id].onboardingCompleted == profiles[id].onboardingCompleted && m[id].subscriptionTier == profiles[id].subscriptionTier
    ensures id !in profiles ==> !m[id].onboardingCompleted && m[id].subscriptionTier.None?
  {
    var row := if id in profiles then profiles[id].(email := email, displayName := name)
               else ProfileRow(email, name, false, None);
    profiles[id := row]
  }

  /** The route handler; `upsertError` is the database's answer to the upsert. */
  function EnsureProfile(auth: Auth<AuthUser>, profiles: map<UserId, ProfileRow>, upsertError: Option<string>)
    : (r: EnsureOutcome)
    ensures !auth.SignedIn? || upsertError.Some? ==> r.profiles == profiles && r.reply.EnsureRejected?
    ensures auth.AuthError? ==> r.reply == EnsureRejected(AuthFailed(auth.message))
    ensures auth.SignedOut? ==> r.reply == EnsureRejected(NotAuthenticated)
    ensures r.reply.Ensured? ==>
      && auth.SignedIn?
      && r.profiles.Keys == profiles.Keys + {auth.user.id}
      && (forall v :: v in profiles && v != auth.user.id ==> r.profiles[v] == profiles[v])
      && r.profiles[auth.user.id].email == EmailOf(auth.user)
      && r.profiles[auth.user.id].displayName != []
      && (r.reply.emailSaved <==> Present(EmailOf(auth.user)))
    ensures r.reply.Ensured? ==>
      r.profiles == Upsert(profiles, auth.user.id, EmailOf(auth.user), DisplayName(auth.user, EmailOf(auth.user)))
    ensures r.reply.Ensured? && auth.user.id in profiles ==>
      && r.profiles[auth.user.id].onboardingCompleted == profiles[auth.user.id].onboardingCompleted
      && r.profiles[auth.user.id].subscriptionTier == profiles[auth.user.id].subscriptionTier
    ensures auth.SignedIn? && upsertError.Some? ==> r.reply == EnsureRejected(UpsertFailed(upsertError.value))
    ensures r.reply.Ensured? <==> auth.SignedIn? && upsertError.None?
    ensures Status(r.reply) == 200 <==> r.reply.Ensured?
    ensures Status(r.reply) == 401 <==> auth.SignedOut?
  {
    match auth
    case AuthError(m) => EnsureOutcome(EnsureRejected(AuthFailed(m)), profiles)
    case SignedOut => EnsureOutcome(EnsureRejected(NotAuthenticated), profiles)
    case SignedIn(user) =>
      var email := EmailOf(user);
      var name := DisplayName(user, email);
      DisplayNameChoice(user, email);
      if upsertError.Some? then EnsureOutcome(EnsureRejected(UpsertFailed(upsertError.value)), profiles)
      else EnsureOutcome(Ensured(Present(email)), Upsert(profiles, user.id, email, name))
  }

  /** Ensuring twice leaves the table as ensuring once. */
  lemma EnsureIdempotent(auth: Auth<AuthUser>, profiles: map<UserId, ProfileRow>)
    ensures var once := EnsureProfile(auth, profiles, None);
      var twice := EnsureProfile(auth, once.profiles, None);
      twice == once
  {
  }
}
