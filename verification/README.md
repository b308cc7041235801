# Stillvo core, modelled in Dafny

Stillvo is a quiet social writing app. Readers acknowledge posts privately,
and authors receive at most one e-mail digest per day. This project models
the sequential logic inside the app's route handlers and pages as pure
functions over immutable datatypes, and proves the properties that logic
promises:

- **`Digest`** (`src/app/api/digest/send/route.ts`): the daily digest job.
  It covers the cron authorisation and the grouping of the day's
  acknowledgements by receiver. It covers the e-mail lookup and the
  `(receiver, day)` idempotency ledger with reserve, skip and release. It
  also covers the per-kind deduplicated message with its overflow line, and
  the counters. The e-mail transport is an oracle: the set of receivers it
  rejects in the run.
- **`Posts`** (`src/app/api/posts/route.ts`): the post-creation route. It
  covers the tier limit, the ordered validation chain (body, topic, expiry,
  media) and the insert. The posts table is a sequence of rows.
- **`Acknowledgements`** (`src/app/api/acknowledgements/route.ts`): input
  normalisation, the allowed kinds, post lookup, the self-acknowledgement
  refusal, and the idempotent insert into a set of `(post, sender, kind)`
  triples.
- **`Write`** (`src/app/write/page.tsx`): the compose/edit page. It covers
  the expiry shown for a loaded post and the one-media picker. It also
  covers the final media URL and type, the checks `submit` makes, and the
  request it sends.
- **`Read`** (`src/app/read/page.tsx`): the feed. It covers the "edited"
  test, the media predicates and the Today/Yesterday/Earlier labels. It also
  covers the loop that groups the feed into consecutive sections, and the
  ownership gating of the post controls.
- **`PostBody`** (`src/components/PostBody.tsx`): truncation of long posts.
- **`Onboarding`** (`src/app/onboarding/page.tsx`): the six-step walkthrough
  and its buttons.
- **`Middleware`** (`src/middleware.ts`): the redirect of signed-in,
  un-onboarded users. It covers both the exported matcher, which decides
  which requests reach the middleware, and the middleware's own prefix test.
- **`Profile`** (`src/app/api/profile/ensure/route.ts`): the e-mail and
  display-name fallback chains and the upsert keyed on the user.

Shared modules:

- `Common`: `Option`, the auth result and query results.
- `Text`: JavaScript `trim`, `trimEnd`, `startsWith` and `split(sep)[0]`,
  over the whitespace set of section 22.1.3.32 of ECMA-262.
- `Js`: the JSON field values a handler reads, their truthiness and
  `String(v)`.
- `Seqs`: first-occurrence deduplication, with the scan loop the digest
  uses.

Database tables are values that are passed in and returned:

- posts: a sequence;
- acknowledgements and `digest_sends`: sets;
- profiles: a map.

Query results are parameters. So are the write failures of the posts,
acknowledgements and profile routes. The digest's reservation insert fails
only on a key that is already in the ledger. Times are integers. The
current day and the local midnights are inputs.

## Model

| member | source | states |
|---|---|---|
| Text.TrimEnd | src/components/PostBody.tsx:20 | `trimEnd` keeps a prefix whose last character is not whitespace, and everything it drops is whitespace |
| Text.TrimStart | src/app/api/posts/route.ts:23 | the leading-whitespace half of `trim`: it keeps a suffix that starts with a non-space, and everything it drops is whitespace |
| Text.Trim | src/app/api/posts/route.ts:23 | `trim` yields a slice of the input with no whitespace at either end, and only whitespace lies outside the slice |
| Text.IsSpace | src/app/api/posts/route.ts:23 | the whitespace `trim` removes: the WhiteSpace and LineTerminator code points of section 22.1.3.32 of ECMA-262; its consequences are stated in `Text.Trim`, `Text.TrimStart` and `Text.TrimEnd` |
| Text.TrimEmptyIffAllSpace | src/app/api/acknowledgements/route.ts:26-31 | a string trims to empty exactly when every character is whitespace, which is when the route reports a missing post id |
| Text.TrimIdempotent | src/app/write/page.tsx:322-323 | trimming text the page already trimmed changes nothing |
| Text.BeforeFirst | src/app/api/profile/ensure/route.ts:27 | `split("@")[0]` is a prefix of the string without the separator, and the string continues with the separator if it is longer |
| Text.StartsWith | src/middleware.ts:30 | `startsWith(p)`: `p` is a prefix of the string; its consequences are stated in `Middleware.PrefixNotSegment` and `Middleware.MatchedIsProtected` |
| Js.TextOrEmpty | src/app/api/posts/route.ts:23 | `String(v ?? "")` is the string itself for a string, empty for null or undefined, and `String(v)` for a number, boolean, array or object |
| Js.Truthy | src/app/api/posts/route.ts:24-30 | JavaScript truthiness of a body field: null, undefined and the empty string are falsy, a non-empty string is truthy, other values carry their own truthiness. Its consequences are stated in `Posts.Normalise` |
| Js.ToText | src/app/api/posts/route.ts:23-30 | `String(v)`: a string is itself, null and undefined read as "null" and "undefined", other values carry their text. Its consequences are stated in `Js.TextOrEmpty` and `Posts.Normalise` |
| Js.FromOption | src/app/write/page.tsx:373 | an absent value is sent as JSON null and a present one as that string |
| Seqs.Dedup | src/app/api/digest/send/route.ts:139-146 | deduplication keeps every element, repeats none, and adds nothing new |
| Seqs.DedupFirstOccurrenceOrder | src/app/api/digest/send/route.ts:139-146 | deduplicated elements appear in the order of their first occurrence |
| Seqs.DedupScan | src/app/api/digest/send/route.ts:139-146 | the scan with a `seen` set computes exactly the first-occurrence deduplication |
| Seqs.Take | src/app/api/digest/send/route.ts:148 | `slice(0, n)` keeps the first `min(n, length)` elements unchanged |
| Acknowledgements.ParseKind | src/app/api/acknowledgements/route.ts:33-38 | a kind is accepted exactly when it is in `ALLOWED`, and its wire name reads back |
| Acknowledgements.ParseKindName | src/app/api/acknowledgements/route.ts:4 | every kind's wire name is in `ALLOWED` and parses back to that kind |
| Acknowledgements.TrimmedString | src/app/api/acknowledgements/route.ts:26-27 | a non-string field reads as empty, and a string one is trimmed |
| Acknowledgements.Requested | src/app/api/acknowledgements/route.ts:26-38 | a request names a triple exactly when the trimmed post id is non-empty and the trimmed kind is allowed, and the triple carries those values and the sender |
| Acknowledgements.Acknowledge | src/app/api/acknowledgements/route.ts:9-75 | an auth error gives 500, no user gives 401, and a body that is not JSON gives 400. Any refusal leaves the store unchanged. A recorded reply adds exactly the requested triple, which was absent, for a known post by someone else, and an "already" reply means the triple was present. Conversely, a well-formed request for someone else's known post is refused with the insert's error when the insert fails, and otherwise answers "already" exactly when the triple was stored and "recorded" exactly when it was not, storing it |
| Acknowledgements.Status | src/app/api/acknowledgements/route.ts:9-75 | the answers map to 200 for recorded and already, 401 for no user, 404 for an unknown post, 500 for an auth or insert error, and 400 otherwise |
| Acknowledgements.AcknowledgeStatus | src/app/api/acknowledgements/route.ts:9-75 | the status is 401 exactly without a user, 404 exactly when a well-formed request names an unknown post, 500 exactly for an auth error or a failed insert of an admissible request, and 200 exactly for an admissible request whose insert goes through, the triple then being stored |
| Acknowledgements.CheckOrder | src/app/api/acknowledgements/route.ts:29-56 | the checks run as missing post id, then invalid kind, then not found, then own post; each error occurs exactly when all earlier checks pass and its own fails |
| Acknowledgements.MissingPostIdFirst | src/app/api/acknowledgements/route.ts:26-31 | a non-string or whitespace-only post id is refused as missing whatever the kind |
| Acknowledgements.OwnPostRefused | src/app/api/acknowledgements/route.ts:51-56 | acknowledging one's own post answers 400 and stores nothing |
| Acknowledgements.SubmitIdempotent | src/app/api/acknowledgements/route.ts:58-70 | submitting a recorded acknowledgement again answers "already" and leaves the store as the first submission left it |
| Posts.ParseExpiry | src/app/api/posts/route.ts:63-65 | an expiry is accepted exactly when it is in `EXP_ALLOWED`, and its wire name reads back |
| Posts.ParseExpiryName | src/app/api/posts/route.ts:4 | every expiry choice's wire name is in `EXP_ALLOWED` and parses back to it |
| Posts.ExpiryDays | src/app/api/posts/route.ts:67-73 | "none" stores no expiry, and every other choice stores 7, 14 or 30 days |
| Posts.MaxCharsForTier | src/app/api/posts/route.ts:7-9 | the limit is 2000 exactly for "plus" and 600 for every other tier |
| Posts.BodyText | src/app/api/posts/route.ts:23 | the body text is trimmed: a string body reads as its trim, another value as the trim of its text, and a missing body as empty |
| Posts.TopicOf | src/app/api/posts/route.ts:24 | a topic is kept exactly when the field is truthy, and then is the trim of its text |
| Posts.MediaOf | src/app/api/posts/route.ts:29-30 | a media field is kept exactly when it is truthy, and then is `String(v)`, untrimmed |
| Posts.Normalise | src/app/api/posts/route.ts:23-30 | the body is the trimmed text of a string or any other value, or empty when missing. The topic is present exactly when it is truthy, and then is the trimmed text. A string expiry is kept as sent, and any other reads as "none". Each media field is present exactly when it is truthy, and then is `String(v)`, untrimmed |
| Posts.Validate | src/app/api/posts/route.ts:47-96 | a request is valid exactly when body length, topic length, expiry and media pairing all pass. Every refusal is a 400. The row carries the author, the trimmed body, the media URL and type as given, and the expiry's day count |
| Posts.ValidationOrder | src/app/api/posts/route.ts:47-87 | the checks run as body, then topic, then expiry, then media; each error occurs exactly when all earlier checks pass and its own fails |
| Posts.ValidatedRow | src/app/api/posts/route.ts:55-96 | a stored row is by the author with the trimmed body, within the limit. A whitespace-only topic is stored as null and any other topic as given. The expiry is its day count, and none exactly for "none". The media URL and type are stored as given, a URL exactly when an allowed type |
| Posts.CreatePost | src/app/api/posts/route.ts:14-102 | without a user the answer is 401. A failed profile lookup is refused with its message. A request that fails validation is refused with the first failing check, and a valid one whose insert fails with the insert's error. The post is created exactly when the user is signed in, the tier is readable, the request validates and the insert succeeds. It then appends exactly the validated row and reports the tier, defaulting to "free", and its limit. A refusal inserts nothing |
| Posts.ErrorStatus | src/app/api/posts/route.ts:17-100 | refusals map to 401 for no user, 500 for a failed profile lookup or insert, and 400 for every validation error |
| Posts.CreatePostStatus | src/app/api/posts/route.ts:17-100 | a refusal is 401 exactly without a user, 400 exactly when the request fails validation, and 500 exactly for a signed-in request refused for a failed lookup or insert |
| Posts.ValidRequestCreates | src/app/api/posts/route.ts:89-102 | a validating request from a signed-in author with a readable tier appends exactly the validated row |
| Posts.CreatePreservesWellFormed | src/app/api/posts/route.ts:78-96 | the route keeps every row of the table well formed: trimmed bounded body, non-empty bounded topic, a known expiry, and a URL exactly when an allowed media type |
| Digest.IsAuthorized | src/app/api/digest/send/route.ts:38-48 | an unset or empty secret authorises nobody. Otherwise a request is authorised exactly when the header is `Bearer <secret>` or the token equals the secret |
| Digest.SecretChannels | src/app/api/digest/send/route.ts:38-48 | for a set secret, `Bearer <secret>` in the header alone authorises, and so does the secret as token alone; the bare secret in the header, or a different secret in both places, is refused |
| Digest.Line | src/app/api/digest/send/route.ts:16-20 | every kind maps to one of the three fixed sentences |
| Digest.LineInjective | src/app/api/digest/send/route.ts:16-20 | different kinds never share a sentence |
| Digest.KindLines | src/app/api/digest/send/route.ts:148 | the bulleted lines are the distinct kinds in first-occurrence order, at most ten |
| Digest.Compose | src/app/api/digest/send/route.ts:152 | every message carries the fixed subject |
| Digest.CapNeverBinds | src/app/api/digest/send/route.ts:139-148 | there are at most three distinct kinds, so the ten-line cap never removes one |
| Digest.KindsBound | src/app/api/digest/send/route.ts:139-146 | a repeat-free list of kinds has at most three entries |
| Digest.ComposeContent | src/app/api/digest/send/route.ts:139-169 | the text lines are one per distinct kind in first-arrival order, then the overflow line exactly when more than ten items arrived. The html lines wrap the same lines in the same order. A message has at most four lines |
| Digest.BulletOverflowIsNoKindLine | src/app/api/digest/send/route.ts:150 | the overflow line differs from every kind's line |
| Digest.DedupExample | src/app/api/digest/send/route.ts:139-148 | read, read, resonated, read gives the read line and then the resonated line |
| Digest.AddRow | src/app/api/digest/send/route.ts:88-92 | filing a row adds a group exactly when its receiver has none yet |
| Digest.GroupByReceiver | src/app/api/digest/send/route.ts:86-92 | grouping never makes more groups than rows, and at least one for a non-empty batch |
| Digest.AddRowReceivers | src/app/api/digest/send/route.ts:88-92 | filing a row appends its receiver when new and keeps the receivers otherwise |
| Digest.GroupingReceivers | src/app/api/digest/send/route.ts:87-95 | the groups are the distinct receivers in first-seen order |
| Digest.GroupingItems | src/app/api/digest/send/route.ts:87-92 | each group holds exactly its receiver's kinds in arrival order |
| Digest.GroupingCorrect | src/app/api/digest/send/route.ts:86-95 | grouping yields one group per distinct receiver in first-seen order, each with exactly that receiver's kinds in arrival order |
| Digest.GroupsNonEmpty | src/app/api/digest/send/route.ts:87-92 | every group holds at least one item |
| Digest.KindsForAbsent | src/app/api/digest/send/route.ts:87-92 | a user without rows has no kinds |
| Digest.EmailById | src/app/api/digest/send/route.ts:106-109 | every stored address is non-empty |
| Digest.EmailByIdLast | src/app/api/digest/send/route.ts:106-109 | a user has an address exactly when one of their profile rows has a non-empty e-mail, and it is the last such row's |
| Digest.Reserve | src/app/api/digest/send/route.ts:127-136 | the unique-key refusal of the reservation insert: reserving fails exactly when the key is already in the ledger, and otherwise adds exactly that key. Other insert errors are not modelled |
| Digest.Release | src/app/api/digest/send/route.ts:181-185 | releasing removes the key and keeps every other key |
| Digest.ReserveReleaseRestores | src/app/api/digest/send/route.ts:127-185 | reserving a fresh key and then releasing it restores the ledger |
| Digest.Dispatch | src/app/api/digest/send/route.ts:114-191 | `sent` is the number of messages handed over, never more than the receivers. On completion sent, already-sent and no-email add up to the number of receivers |
| Digest.DispatchLedger | src/app/api/digest/send/route.ts:118-191 | after the loop the ledger is the old ledger plus exactly the keys of the messages sent. Skips add nothing, and a failed send's key is released while earlier keys stay |
| Digest.DispatchDeliveryFacts | src/app/api/digest/send/route.ts:118-178 | every message goes to a receiver of the batch who has an address, at that address, with a key not in the ledger and a transport that accepted, and is composed from that receiver's items |
| Digest.DispatchDistinct | src/app/api/digest/send/route.ts:118-136 | no receiver gets two messages in one batch |
| Digest.DispatchDeliveries | src/app/api/digest/send/route.ts:118-178 | every message of a batch is sound, and the receivers are distinct |
| Digest.DispatchFailure | src/app/api/digest/send/route.ts:176-191 | a transport failure names a receiver of the batch who had an address and a free key, and that key is not in the resulting ledger |
| Digest.DispatchStopsAtFailure | src/app/api/digest/send/route.ts:176-191 | a transport failure ends the loop: the failed receiver is some group `j`, and the batch carries exactly the messages and ledger of completing the groups before `j`, so nobody after it is sent to |
| Digest.StopsAfterFirst | src/app/api/digest/send/route.ts:118-191 | when the first receiver is skipped or sent to, a stop later in the batch is a stop of the whole batch one place further on |
| Digest.DispatchCounters | src/app/api/digest/send/route.ts:114-123 | on completion `skippedNoEmail` is the number of receivers without an address, whatever the ledger and the transport did, and every other receiver was sent to or counted as already sent |
| Digest.NoEmailCount | src/app/api/digest/send/route.ts:119-123 | the reference count of receivers without an address, at most the number of receivers |
| Digest.DispatchAllAccepted | src/app/api/digest/send/route.ts:118-178 | with a transport that accepts all, the batch completes and every receiver with an address and a free key gets a message |
| Digest.NoEmailKeyUntouched | src/app/api/digest/send/route.ts:119-123 | a receiver without an address never has its ledger key added or removed |
| Digest.RunDigest | src/app/api/digest/send/route.ts:50-84 | an unauthorised request is refused, and every early answer leaves the ledger unchanged and sends nothing |
| Digest.RunStatus | src/app/api/digest/send/route.ts:50-84 | the answer is 401 exactly for an unauthorised trigger. It is a summary or a send error exactly when every check passes, and "no items" exactly when the checks pass with zero rows |
| Digest.Status | src/app/api/digest/send/route.ts:50-199 | the answers map to 401 for unauthorised, 500 for missing configuration, a query error or a send error, and 200 for no items and the summary |
| Digest.RunIsDispatch | src/app/api/digest/send/route.ts:86-191 | a run past its checks leaves the ledger and messages of dispatching the grouped receivers |
| Digest.NoItemsShortCircuit | src/app/api/digest/send/route.ts:81-84 | with zero rows the answer is "no items", with no ledger change and no message |
| Digest.KeysOfMembership | src/app/api/digest/send/route.ts:127-130 | a receiver's key is among a run's keys exactly when that receiver got a message |
| Digest.GroupItemsAt | src/app/api/digest/send/route.ts:118 | among distinct receivers, looking up a receiver's items gives its group's items |
| Digest.RunMessages | src/app/api/digest/send/route.ts:118-178 | each message of a run goes to one of the day's receivers and lists exactly that receiver's kinds |
| Digest.RunReply | src/app/api/digest/send/route.ts:176-199 | a run past its checks answers with a summary or a send error. A send error leaves the failed receiver's key free. A summary counts every distinct receiver once |
| Digest.RunStopsAtFailure | src/app/api/digest/send/route.ts:176-191 | a send error answer comes from a run past its checks, whose failed receiver is some grouped receiver `j`, with exactly the messages and ledger of completing the receivers grouped before `j` |
| Digest.RunInvariants | src/app/api/digest/send/route.ts:86-199 | the message and reply guarantees of a run that reaches the loop, combined |
| Digest.RunLedger | src/app/api/digest/send/route.ts:111-191 | any run adds exactly the keys of the messages it sent, sends at most one per receiver, and sends to no receiver whose key was already present |
| Digest.AtMostOncePerDay | src/app/api/digest/send/route.ts:111-136 | of two runs on one day, the second starting from the first's ledger, no receiver gets a message from both |
| Digest.DispatchReplay | src/app/api/digest/send/route.ts:127-136 | replaying a completed batch on its own ledger sends nothing and counts earlier sends as already sent |
| Digest.SecondRunSendsNothing | src/app/api/digest/send/route.ts:127-136 | after a completed run, a second run the same day sends nothing, changes nothing, and reports the first run's sends as already sent |
| Digest.RetryAfterFailure | src/app/api/digest/send/route.ts:180-185 | after a run that failed for a receiver, a later run that day with an accepting transport sends to that receiver |
| Profile.EmailOf | src/app/api/profile/ensure/route.ts:19-22 | the e-mail is `user.email` unless null, then the metadata e-mail if it is a string, else null |
| Profile.NonEmptyString | src/app/api/profile/ensure/route.ts:25-26 | `typeof v === "string" && v` yields the string exactly when it is a non-empty string |
| Profile.DisplayName | src/app/api/profile/ensure/route.ts:24-28 | the display name is never empty; `Profile.DisplayNameChoice` states which fallback it takes |
| Profile.DisplayNameChoice | src/app/api/profile/ensure/route.ts:24-28 | the display name is the first non-empty of full name, name and the e-mail before "@"; failing all three it is "Someone". It is never empty |
| Profile.Upsert | src/app/api/profile/ensure/route.ts:30-37 | the upsert touches exactly the user's entry. It sets e-mail and name, keeps the other columns, and gives a new row the defaults |
| Profile.EnsureProfile | src/app/api/profile/ensure/route.ts:8-43 | an auth error gives 500, no user gives 401, a failed upsert gives 500 with its message, and no refusal writes. It succeeds exactly when signed in with the upsert going through. The table is then exactly the upsert of the fallback e-mail and display name, keeping an existing row's onboarding flag and tier. `emailSaved` holds exactly when the e-mail is non-empty |
| Profile.Status | src/app/api/profile/ensure/route.ts:8-43 | the answers map to 200 for success, 401 for no user, and 500 for an auth or upsert error |
| Profile.EnsureIdempotent | src/app/api/profile/ensure/route.ts:30-43 | ensuring twice leaves the table and the answer as ensuring once |
| Middleware.Decide | src/middleware.ts:26-42 | redirects go only to "/onboarding". A request redirects exactly when there is a user, the path starts with a protected prefix, and onboarding is not complete; a missing profile counts as not complete |
| Middleware.IsProtected | src/middleware.ts:26-30 | the middleware's own plain prefix test on the pathname; its consequences are stated in `Middleware.Decide` and `Middleware.MatchedIsProtected` |
| Middleware.Matched | src/middleware.ts:45-47 | the matcher's test: the path is one of the four protected prefixes or lies below one; its consequences are stated in `Middleware.Gate` and `Middleware.MatchedIsProtected` |
| Middleware.MatchesSegment | src/middleware.ts:46 | one `/<prefix>/:path*` pattern: the path is the prefix itself or starts with the prefix followed by `/`; `Middleware.PrefixNotSegment` shows it refuses `/reader` and accepts `/read/abc` |
| Middleware.MatchedIsProtected | src/middleware.ts:26-47 | every path the matcher routes to the middleware passes the middleware's prefix test |
| Middleware.Gate | src/middleware.ts:26-47 | for a request as served, the matcher first, a redirect goes only to "/onboarding" and happens exactly when there is a user, the path is a protected prefix or lies below one, and onboarding is not complete |
| Middleware.SignedOutPasses | src/middleware.ts:28 | without a user every path passes |
| Middleware.CompletedPasses | src/middleware.ts:30-40 | a user whose onboarding is complete is never redirected |
| Middleware.PrefixNotSegment | src/middleware.ts:26-47 | the prefix test alone would gate "/reader" like "/read", but the matcher never routes "/reader" to the middleware, so it passes. "/read/abc" is gated. "/onboarding" is gated by neither, so the redirect cannot loop |
| Onboarding.StepsShape | src/app/onboarding/page.tsx:17-80 | there are six steps. Step 0 has no secondary button, step 1 exits, and steps 2 to 5 go back |
| Onboarding.Next | src/app/onboarding/page.tsx:84-92 | before the last step the primary button advances by one. On the last step it ensures the profile, completes onboarding and goes to "/start", keeping the index |
| Onboarding.StepBack | src/app/onboarding/page.tsx:102 | going back from step 0 stays at 0, otherwise moves one step down |
| Onboarding.SecondaryAction | src/app/onboarding/page.tsx:95-104 | the secondary button does nothing without a secondary, goes to "/" on exit keeping the index, and steps back otherwise; the index stays in range |
| Onboarding.BackUndoesNext | src/app/onboarding/page.tsx:84-104 | on a middle step, going forward then back returns to the same step with no effects |
| Onboarding.BackNeverClamps | src/app/onboarding/page.tsx:101-103 | back is only offered where the index is positive, so it always moves exactly one step |
| Onboarding.SessionStaysInRange | src/app/onboarding/page.tsx:82-104 | any sequence of presses keeps the index within the six steps, and completion only follows a primary press |
| Onboarding.StraightThrough | src/app/onboarding/page.tsx:84-92 | five primary presses reach the last step, and the sixth completes onboarding |
| PostBody.ShouldTruncate | src/components/PostBody.tsx:16 | truncation applies exactly when it is enabled and the text is longer than the limit; its consequences are stated in `PostBody.Shown` and `PostBody.ToggleCaption` |
| PostBody.Shown | src/components/PostBody.tsx:18-21 | the text is shown whole unless truncation applies and the body is closed. Then it is a prefix of at most `limit` characters, without trailing whitespace, followed by "…". Only whitespace is dropped before `limit` |
| PostBody.ShownLength | src/components/PostBody.tsx:20 | a truncated display has at most `limit` + 1 characters and is no longer than the text |
| PostBody.ToggleCaption | src/components/PostBody.tsx:29-37 | the toggle exists exactly when truncation applies, and reads "View less" exactly when open |
| PostBody.OpenShowsAll | src/components/PostBody.tsx:18-21 | an opened body shows the whole text, and a short body is the same opened or closed |
| Read.IsEdited | src/app/read/page.tsx:30-35 | the edited test on the two timestamps; `Read.EditedCases` states it |
| Read.EditedCases | src/app/read/page.tsx:30-35 | a post is edited exactly when one timestamp is more than a minute after the other, in either direction |
| Read.IsImage | src/app/read/page.tsx:37-39 | an image is rendered for a non-empty URL typed "image"; `Read.MediaExclusive` states its relation to the video test |
| Read.IsVideo | src/app/read/page.tsx:41-43 | a video is rendered for a non-empty URL typed "video"; `Read.MediaExclusive` states its relation to the image test |
| Read.MediaExclusive | src/app/read/page.tsx:37-43 | image and video are never both rendered, both need a non-empty URL, and a URL with an allowed type renders one of them |
| Read.Label | src/app/read/page.tsx:45-53 | Today exactly from today's midnight, Yesterday exactly between yesterday's and today's midnights, Earlier otherwise |
| Read.LabelMonotone | src/app/read/page.tsx:45-53 | a later time never gets a later-ranked label |
| Read.AddPost | src/app/read/page.tsx:76-79 | one turn of the loop adds at most one section, and the last section then carries the post's label |
| Read.Sections | src/app/read/page.tsx:74-80 | the loop makes no more sections than posts, and at least one for a non-empty feed |
| Read.AddPostGrouped | src/app/read/page.tsx:76-79 | one turn of the loop keeps every section non-empty and single-labelled, with neighbours labelled differently |
| Read.AddPostFlatten | src/app/read/page.tsx:76-79 | one turn of the loop appends the post to the concatenated sections |
| Read.SectionsGrouped | src/app/read/page.tsx:74-80 | every section is non-empty, holds only posts of its label, and differs in label from its neighbour |
| Read.SectionsFlatten | src/app/read/page.tsx:74-80 | concatenating the sections gives back the feed in order |
| Read.SectionsCorrect | src/app/read/page.tsx:74-80 | the sections are well grouped and give back the feed in order |
| Read.AddPostAdvances | src/app/read/page.tsx:76-79 | a post ranked no earlier than the last section keeps the labels advancing |
| Read.NewestFirstAdvances | src/app/read/page.tsx:69-80 | in a newest-first feed the section labels strictly advance through Today, Yesterday, Earlier |
| Read.AdvanceBound | src/app/read/page.tsx:45-53 | strictly advancing labels make at most three sections |
| Read.NewestFirstAtMostThree | src/app/read/page.tsx:69-80 | a newest-first feed has at most three sections, each label in at most one |
| Read.BuildSections | src/app/read/page.tsx:74-80 | the section-building loop yields well-grouped sections that concatenate back to the feed |
| Read.IsMine | src/app/read/page.tsx:130 | a post is the viewer's own for a signed-in viewer who wrote it; `Read.ControlsFor` states what follows from it |
| Read.ControlsFor | src/app/read/page.tsx:130-206 | menu and "You" badge exactly for a signed-in author's own post, acknowledgement buttons exactly otherwise, "Edited" exactly for an edited post |
| Read.SignedOutSeesAcks | src/app/read/page.tsx:130 | a signed-out viewer sees acknowledgement buttons and no menu on every post |
| Write.ExpiresAtToUi | src/app/write/page.tsx:24-36 | no expiry shows "none". Up to 7 days shows "7", past dates included. Up to 14 shows "14", and anything later shows "30" |
| Write.ExpiryRoundTrip | src/app/write/page.tsx:24-36 | a post stored with an expiry choice and loaded straight away shows that choice |
| Write.ClientTier | src/app/write/page.tsx:95 | the page holds "plus" exactly when the tier service said "plus", and "free" otherwise |
| Write.MaxChars | src/app/write/page.tsx:48 | the page's limit is 2000 for "plus" and 600 otherwise, the same as the server's for every tier |
| Write.Remaining | src/app/write/page.tsx:71 | remaining plus the untrimmed length is the limit, and remaining is negative exactly when the text is over the limit |
| Write.PickImage | src/app/write/page.tsx:190-220 | no file clears the picked image. A non-image or an image over 10 MB only sets its error. An accepted image becomes the only media |
| Write.PickVideo | src/app/write/page.tsx:222-252 | no file clears the picked video. A non-video or a video over 25 MB only sets its error. An accepted video becomes the only media |
| Write.PickMedia | src/app/write/page.tsx:254-269 | no file only clears the error. An image type goes to the image picker, a video type to the video picker, and anything else only sets an error |
| Write.ClearAllMedia | src/app/write/page.tsx:184-188 | clearing drops the picked files and the existing media |
| Write.LoadEdit | src/app/write/page.tsx:142-159 | loading a post fills the form with its fields, null as empty, and its expiry choice. Its media becomes the existing media, and picked files are dropped |
| Write.OneMediaPreserved | src/app/write/page.tsx:210-251 | every picker operation, clearing and loading keep at most one media source attached |
| Write.RejectedPickKeepsMedia | src/app/write/page.tsx:200-208 | a rejected image pick changes only the error message |
| Write.LimitsInclusive | src/app/write/page.tsx:12-13 | a file of exactly 10 MB or 25 MB is taken, and one byte more is refused |
| Write.AttachedType | src/app/write/page.tsx:76-77 | under the one-media rule, the attached type is the picked video's, else the picked image's, else the existing type |
| Write.Final | src/app/write/page.tsx:348-360 | the final URL is present exactly when the final type is, and is non-empty. The priority is uploaded video, then uploaded image, then existing media with both columns set |
| Write.RequestBody | src/app/write/page.tsx:369-375 | the JSON carries the text and the expiry name. The topic is present exactly when non-empty, and each media field exactly when set |
| Write.MediaReadBack | src/app/api/posts/route.ts:29-30 | the server reads back the media URL and type the page sent |
| Write.BodyReadBack | src/app/api/posts/route.ts:23 | the server reads back the trimmed body the page sent |
| Write.TopicReadBack | src/app/api/posts/route.ts:24 | the server reads back the trimmed topic the page sent, and an empty one as null |
| Write.TextReadBack | src/app/api/posts/route.ts:23-27 | the server reads back the body, topic and expiry name the page sent |
| Write.RequestBodyReadBack | src/app/write/page.tsx:366-376 | the server's normalisation of the page's request gives back exactly the fields the page meant |
| Write.RequestBodyValid | src/app/write/page.tsx:327-340 | a request whose text passes the page's checks passes the server's validation for any server limit at least the page's |
| Write.SentMedia | src/app/write/page.tsx:345-351 | the sent media pairs a non-empty URL with a type, and a picked, uploaded video wins |
| Write.AttachedIsSent | src/app/write/page.tsx:345-360 | the final media type agrees with `attachedType` (lines 76-77): once the picked file is uploaded, or when only existing media with a URL is kept, the media type sent is the one the "Attached:" label showed |
| Write.Submit | src/app/write/page.tsx:319-376 | submit is blocked exactly while loading. It refuses an empty body, a body over the limit and a topic over 32, each exactly when the earlier checks pass, and refuses with the upload's error exactly when those checks pass but a picked file could not be uploaded. A draft that passes every check with no failed upload is always sent: PATCH to `/api/posts/<id>` exactly when an edit id is present, otherwise POST to `/api/posts`, with the trimmed fields and the final media |
| Write.SentRequestValidates | src/app/write/page.tsx:319-376 | whatever the page sends passes the posts route's validation when the page's limit is not above the server's |
| Write.SentRequestCreates | src/app/write/page.tsx:319-376 | a new post, with no edit id, goes as POST to "/api/posts", and a page that read the author's tier correctly always gets it created there with the trimmed body the author typed |

## Left out

- Supabase queries, RLS and the admin client are left out. Query results
  and the write failures of the posts, acknowledgements and profile routes
  are parameters (`Query`, `Option<string>`). The
  middleware's profile-query error is folded into a missing profile
  (`completed == None`), which the code treats the same way.
- The Resend transport is reduced to the set of receivers it rejects in a
  run. The thrown error's message is not modelled: a send error names the
  receiver. A failure of the release itself is ignored, as in the code.
- Date and time arithmetic is left out because it is clock and time-zone
  bound. This covers `todayRangeUtc`, `todayDateUtc`, `setDate` and
  `toISOString` in the posts route, the local midnights in
  `groupLabelLocal`, and the float `Math.round` in `expiresAtToUi`. The day
  number, millisecond timestamps, midnights and rounded day count are
  inputs.
- Write.ExpiresAtToUi: an unparseable stored date (`NaN` days, which the
  code maps to "30") is outside the integer input.
- Posts.ExpiryDays: the stored expiry is the day count, not the timestamp
  `setDate` computes.
- Digest.Compose: the fixed header, footer and inline styling of the text
  and html bodies are the same in every message and are not modelled. The
  message holds its subject and its item lines.
- Digest.Reserve: the route counts ANY failed reservation insert as
  already sent, a database outage included. The model's reservation fails
  only when the key is already in the ledger, so it does not promise
  anything about a run whose ledger writes fail for another reason.
- Concurrency between overlapping digest runs is left out. The database's
  unique constraint makes reserve a single atomic set insert, which is how
  it is modelled.
- Lengths are `seq<char>` lengths, not JavaScript's UTF-16 code units.
- Invalid JSON in the posts route throws, uncaught, and the route is not
  modelled for it. The acknowledgements route's invalid-JSON answer is
  modelled.
- The `Js.JsVal` `Other` case abstracts numbers, booleans, arrays and
  objects by their truthiness and `String(v)` text. So an empty array given
  as a media URL is truthy and reads as the empty string, exactly as the
  code does.
- Posts.CreatePost: an auth error is answered like a missing user (401), as
  the code does; it reads only `user`.
- Profile.Upsert: a newly created row is given `onboarding_completed =
  false` and a null tier. These are the database's column defaults, which
  are not part of this model.
- Write.Submit: picked files, previews and object URLs are reduced to the
  fields the checks read. The upload is an input (`Storage`) that either
  gives the public URLs or fails. The response handling after the request
  (error display, form reset, navigation) is browser I/O and is not
  modelled. The tier request and the edit-post request are reduced to
  their results (`Write.ClientTier`, `Write.LoadEdit`); their error
  branches are not modelled.
- Write.SentRequestCreates: an edit goes as PATCH to `/api/posts/<id>`.
  src/app/api/posts/[id]/route.ts is not part of this model, so nothing is
  promised about what an edit stores.
- Middleware.Gate: the matcher is reduced to "the prefix itself or a path
  below it". Next.js's own routing details (locale prefixes, static assets,
  data routes) are not part of this model.
- The rendering of every page and component is left out. So are the Stripe
  routes, the other API routes, and the components outside the files named
  above.
