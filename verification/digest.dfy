/** The daily digest job (src/app/api/digest/send/route.ts): group today's
    acknowledgements by receiver, look up e-mail addresses, reserve one send
    per receiver per day in a ledger, compose a quiet message and hand it to
    the e-mail transport, releasing the reservation and stopping the batch
    if the transport fails.

    The ledger (`digest_sends`) is a set of `(receiver, day)` keys whose
    uniqueness the database enforces; reserving is one atomic set insert.
    The transport is an oracle: the set of receivers it rejects in this run. */
module Digest {

  import opened Common
  import opened Seqs
  import opened Acknowledgements

  /** A row of today's acknowledgement items (`receiver_id`, `kind`); the
      query already restricted them to the current UTC day. */
  datatype AckRow = AckRow(receiver: UserId, kind: Kind)

  /** A row of the profiles query. */
  datatype ProfileRow = ProfileRow(userId: UserId, email: Option<string>)

  /** The calendar day of the run, as a day number. */
  type Day = nat

  /** A ledger key: one receiver on one day. */
  datatype Key = Key(receiver: UserId, day: Day)

  // ---------------------------------------------------------------------------
  // Authorisation
  // ---------------------------------------------------------------------------

  /** `isAuthorized`: the request must carry the configured secret, either as
      `Authorization: Bearer <secret>` or as the `token` query parameter. An
      unset or empty secret authorises nobody. */
  function IsAuthorized(secret: Option<string>, authorization: Option<string>, token: Option<string>): (ok: bool)
    ensures secret.None? || secret == Some("") ==> !ok
    ensures ok <==>
      Present(secret) && (authorization == Some("Bearer " + secret.value) || token == secret)
  {
    match secret
    case None => false
    case Some(s) =>
      if s == [] then false
      else if authorization == Some("Bearer " + s) then true
      else token == Some(s)
  }

  /** Either channel alone lets the cron job in, but only with the exact
      secret: the secret sent bare in the header, or a different secret in
      both places, is refused. */
  lemma SecretChannels(s: string, other: string)
    requires s != [] && other != s
    ensures IsAuthorized(Some(s), Some("Bearer " + s), None)
    ensures IsAuthorized(Some(s), None, Some(s))
    ensures !IsAuthorized(Some(s), Some(s), None)
    ensures !IsAuthorized(Some(s), Some("Bearer " + other), Some(other))
  {
    assert |"Bearer " + s| != |s|;
    assert ("Bearer " + other)[7..] == other && ("Bearer " + s)[7..] == s;
  }

  // ---------------------------------------------------------------------------
  // Composer
  // ---------------------------------------------------------------------------

  /** `line`: one fixed sentence per kind, with no counts and no names. */
  function Line(k: Kind): (s: string)
    ensures s in Sentences
  {
    match k
    case Read => "Someone read your writing."
    case Resonated => "Something you wrote resonated with someone."
    case ThankYou => "Someone appreciated that you shared."
  }

  const Sentences: set<string> := {
    "Someone read your writing.",
    "Something you wrote resonated with someone.",
    "Someone appreciated that you shared."
  }

  /** Different kinds never share a sentence. */
  lemma LineInjective(a: Kind, b: Kind)
    ensures Line(a) == Line(b) <==> a == b
  {
    if a != b {
      assert Line(a)[..5] != Line(b)[..5] || |Line(a)| != |Line(b)|;
    }
  }

  const Subject: string := "Your Stillvo digest"
  const OverflowSentence: string := "A few more acknowledgements arrived quietly."

  /** The largest number of kind lines a message carries, and the item count
      above which the overflow line is added. */
  const MaxLines: nat := 10

  /** A bulleted line of the plain-text body. */
  function Bullet(s: string): string {
    "• " + s
  }

  /** A line of the html body: the bulleted line inside its `<div>`. */
  function Div(l: string): string {
    "<div style=\"margin:6px 0; color:#222;\">" + l + "</div>"
  }

  /** The content of a digest e-mail: its subject and the item lines of the
      plain-text and html bodies. The fixed header, footer and styling that
      surround the lines are the same in every message and are left out. */
  datatype Message = Message(subject: string, text: seq<string>, html: seq<string>)

  /** The bulleted kind lines: distinct kinds in first-occurrence order, at
      most `MaxLines` of them. */
  function KindLines(items: seq<Kind>): (ls: seq<string>)
    ensures |ls| == |Take(Dedup(items), MaxLines)|
    ensures forall i :: 0 <= i < |ls| ==> ls[i] == Bullet(Line(Dedup(items)[i]))
  {
    var kinds := Take(Dedup(items), MaxLines);
    seq(|kinds|, i requires 0 <= i < |kinds| => Bullet(Line(kinds[i])))
  }

  /** Builds the message for one receiver's items. The plain-text and html
      bodies each test the pre-dedup item count for the overflow line, as the
      source does. */
  function Compose(items: seq<Kind>): (m: Message)
    ensures m.subject == Subject
  {
    var lines := KindLines(items);
    var text := lines + (if |items| > MaxLines then [Bullet(OverflowSentence)] else []);
    var html := seq(|lines|, i requires 0 <= i < |lines| => Div(lines[i]))
      + (if |items| > MaxLines then [Div(Bullet(OverflowSentence))] else []);
    Message(Subject, text, html)
  }

  /** A list of kinds without repeats has at most three entries. */
  lemma KindsBound(ks: seq<Kind>)
    requires NoDup(ks)
    ensures |ks| <= 3
  {
    var all: set<Kind> := {Read, Resonated, ThankYou};
    forall i | 0 <= i < |ks| ensures ks[i] in all {
      assert ks[i].Read? || ks[i].Resonated? || ks[i].ThankYou?;
    }
    NoDupBound(ks, all);
  }

  /** The cap of ten lines never removes a kind: there are only three. */
  lemma {:induction false} CapNeverBinds(items: seq<Kind>)
    ensures Take(Dedup(items), MaxLines) == Dedup(items)
    ensures |Dedup(items)| <= 3
  {
    KindsBound(Dedup(items));
  }

  /** The composed message: one line per distinct kind, in the order each kind
      first arrived, then the overflow line exactly when more than ten items
      arrived; the html body carries the same lines in the same order. */
  lemma {:induction false} ComposeContent(items: seq<Kind>)
    ensures var m := Compose(items);
      var kinds := Dedup(items);
      && |m.text| == |kinds| + (if |items| > MaxLines then 1 else 0)
      && (forall i :: 0 <= i < |kinds| ==> m.text[i] == Bullet(Line(kinds[i])))
      && (|items| > MaxLines <==> Bullet(OverflowSentence) in m.text)
      && (|items| > MaxLines ==> m.text[|m.text| - 1] == Bullet(OverflowSentence))
      && |m.html| == |m.text|
      && (forall i :: 0 <= i < |m.text| ==> m.html[i] == Div(m.text[i]))
      && |m.text| <= 4
  {
    CapNeverBinds(items);
    var m := Compose(items);
    var kinds := Dedup(items);
    forall i | 0 <= i < |kinds|
      ensures m.text[i] != Bullet(OverflowSentence)
    {
      assert m.text[i] == Bullet(Line(kinds[i]));
      BulletOverflowIsNoKindLine(kinds[i]);
    }
  }

  /** No kind's line reads like the overflow line. */
  lemma BulletOverflowIsNoKindLine(k: Kind)
    ensures Bullet(Line(k)) != Bullet(OverflowSentence)
  {
    assert |OverflowSentence| == 44;
    match k
    case Read => assert |Line(k)| == 26;
    case Resonated => assert |Line(k)| == 43;
    case ThankYou => assert |Line(k)| == 36;
  }

  /** Repeated kinds give one line: `[read, read, resonated, read]` gives the
      `read` line then the `resonated` line. */
  lemma DedupExample()
    ensures Compose([Read, Read, Resonated, Read]).text
      == [Bullet(Line(Read)), Bullet(Line(Resonated))]
  {
    assert [Read, Read, Resonated, Read][..3] == [Read, Read, Resonated];
    assert [Read, Read, Resonated][..2] == [Read, Read];
    assert [Read, Read][..1] == [Read];
  }

  // ---------------------------------------------------------------------------
  // Grouping and e-mail lookup
  // ---------------------------------------------------------------------------

  /** One receiver's items, in arrival order. */
  datatype Group = Group(receiver: UserId, items: seq<Kind>)

  function Receivers(rows: seq<AckRow>): (us: seq<UserId>)
    ensures |us| == |rows|
    ensures forall i :: 0 <= i < |rows| ==> us[i] == rows[i].receiver
  {
    seq(|rows|, i requires 0 <= i < |rows| => rows[i].receiver)
  }

  /** The kinds of `u`'s rows, in arrival order. */
  function KindsFor(rows: seq<AckRow>, u: UserId): seq<Kind> {
    if rows == [] then []
    else
      var last := rows[|rows| - 1];
      KindsFor(rows[..|rows| - 1], u) + (if last.receiver == u then [last.kind] else [])
  }

  /** Files one row into the groups: onto its receiver's list if there is
      one, otherwise as a new group at the end (a `Map` keeps insertion order). */
  function AddRow(gs: seq<Group>, r: AckRow): (res: seq<Group>)
    ensures |res| == |gs| + (if r.receiver in GroupReceivers(gs) then 0 else 1)
  {
    if r.receiver in GroupReceivers(gs) then
      seq(|gs|, i requires 0 <= i < |gs| =>
        if gs[i].receiver == r.receiver then gs[i].(items := gs[i].items + [r.kind]) else gs[i])
    else gs + [Group(r.receiver, [r.kind])]
  }

  /** The grouping loop of the handler, row by row. */
  function GroupByReceiver(rows: seq<AckRow>): (gs: seq<Group>)
    ensures |gs| <= |rows|
    ensures rows != [] ==> gs != []
  {
    if rows == [] then [] else AddRow(GroupByReceiver(rows[..|rows| - 1]), rows[|rows| - 1])
  }

  function GroupReceivers(gs: seq<Group>): (us: seq<UserId>)
    ensures |us| == |gs|
    ensures forall i :: 0 <= i < |gs| ==> us[i] == gs[i].receiver
  {
    seq(|gs|, i requires 0 <= i < |gs| => gs[i].receiver)
  }

  /** Filing a row adds its receiver at the end when it is new, and keeps the
      receivers otherwise. */
  lemma AddRowReceivers(gs: seq<Group>, r: AckRow)
    ensures GroupReceivers(AddRow(gs, r))
         == if r.receiver in GroupReceivers(gs) then GroupReceivers(gs) else GroupReceivers(gs) + [r.receiver]
  {
  }

  /** Grouping yields one group per distinct receiver, in first-seen order. */
  lemma {:induction false} GroupingReceivers(rows: seq<AckRow>)
    ensures GroupReceivers(GroupByReceiver(rows)) == Dedup(Receivers(rows))
  {
    if rows != [] {
      var p := rows[..|rows| - 1];
      var r := rows[|rows| - 1];
      GroupingReceivers(p);
      AddRowReceivers(GroupByReceiver(p), r);
      assert Receivers(rows)[..|rows| - 1] == Receivers(p);
      assert Receivers(rows)[|rows| - 1] == r.receiver;
    }
  }

  /** Each group holds exactly its receiver's kinds, in arrival order. */
  lemma {:induction false} GroupingItems(rows: seq<AckRow>)
    ensures forall i :: 0 <= i < |GroupByReceiver(rows)| ==>
      GroupByReceiver(rows)[i].items == KindsFor(rows, GroupByReceiver(rows)[i].receiver)
  {
    if rows != [] {
      var p := rows[..|rows| - 1];
      var r := rows[|rows| - 1];
      GroupingItems(p);
      var gs := GroupByReceiver(p);
      var gs' := GroupByReceiver(rows);
      assert gs' == AddRow(gs, r);
      if r.receiver in GroupReceivers(gs) {
        forall i | 0 <= i < |gs'| ensures gs'[i].items == KindsFor(rows, gs'[i].receiver) {
          assert KindsFor(rows, gs[i].receiver) == KindsFor(p, gs[i].receiver) + (if r.receiver == gs[i].receiver then [r.kind] else []);
        }
      } else {
        GroupingReceivers(p);
        KindsForAbsent(p, r.receiver);
        forall i | 0 <= i < |gs'| ensures gs'[i].items == KindsFor(rows, gs'[i].receiver) {
          if i < |gs| {
            assert gs'[i] == gs[i];
            assert gs[i].receiver != r.receiver;
          }
        }
      }
    }
  }

  /** Grouping yields one group per distinct receiver, in first-seen order,
      holding exactly that receiver's kinds in arrival order. */
  lemma GroupingCorrect(rows: seq<AckRow>)
    ensures GroupReceivers(GroupByReceiver(rows)) == Dedup(Receivers(rows))
    ensures forall i :: 0 <= i < |GroupByReceiver(rows)| ==>
      GroupByReceiver(rows)[i].items == KindsFor(rows, GroupByReceiver(rows)[i].receiver)
  {
    GroupingReceivers(rows);
    GroupingItems(rows);
  }

  /** A receiver with no rows has no kinds. */
  lemma {:induction false} KindsForAbsent(rows: seq<AckRow>, u: UserId)
    requires u !in Dedup(Receivers(rows))
    ensures KindsFor(rows, u) == []
  {
    if rows != [] {
      var p := rows[..|rows| - 1];
      assert Receivers(rows)[|rows| - 1] == rows[|rows| - 1].receiver;
      assert Receivers(rows)[..|rows| - 1] == Receivers(p);
      forall i | 0 <= i < |Receivers(p)| ensures Receivers(p)[i] != u {
        assert Receivers(p)[i] == Receivers(rows)[i];
      }
      KindsForAbsent(p, u);
    }
  }

  /** Every group holds at least one item. */
  lemma {:induction false} GroupsNonEmpty(rows: seq<AckRow>)
    ensures forall i :: 0 <= i < |GroupByReceiver(rows)| ==> GroupByReceiver(rows)[i].items != []
  {
    if rows != [] {
      GroupsNonEmpty(rows[..|rows| - 1]);
    }
  }

  /** `emailById`: built row by row, keeping a row's e-mail only when it is
      non-empty; a later row for the same user overrides an earlier one. */
  function EmailById(profiles: seq<ProfileRow>): (m: map<UserId, string>)
    ensures forall u :: u in m ==> m[u] != []
  {
    if profiles == [] then map[]
    else
      var m := EmailById(profiles[..|profiles| - 1]);
      var p := profiles[|profiles| - 1];
      if Present(p.email) then m[p.userId := p.email.value] else m
  }

  /** A user has an address exactly when one of their rows has a non-empty
      e-mail, and it is the last such row's. */
  lemma {:induction false} EmailByIdLast(profiles: seq<ProfileRow>, u: UserId)
    ensures u in EmailById(profiles) <==>
      exists i :: 0 <= i < |profiles| && profiles[i].userId == u && HasEmail(profiles[i])
    ensures u in EmailById(profiles) ==> exists i ::
      && 0 <= i < |profiles| && profiles[i].userId == u && HasEmail(profiles[i])
      && EmailById(profiles)[u] == profiles[i].email.value
      && (forall j :: i < j < |profiles| && profiles[j].userId == u ==> !HasEmail(profiles[j]))
  {
    if profiles != [] {
      var ps := profiles[..|profiles| - 1];
      EmailByIdLast(ps, u);
      var p := profiles[|profiles| - 1];
      if u in EmailById(ps) && !(p.userId == u && HasEmail(p)) {
        var i :| && 0 <= i < |ps| && ps[i].userId == u && HasEmail(ps[i])
          && EmailById(ps)[u] == ps[i].email.value
          && (forall j :: i < j < |ps| && ps[j].userId == u ==> !HasEmail(ps[j]));
        assert profiles[i] == ps[i];
      }
      if exists i :: 0 <= i < |ps| && ps[i].userId == u && HasEmail(ps[i]) {
        var i :| 0 <= i < |ps| && ps[i].userId == u && HasEmail(ps[i]);
        assert profiles[i] == ps[i];
      }
      if exists i :: 0 <= i < |profiles| && profiles[i].userId == u && HasEmail(profiles[i]) {
        var i :| 0 <= i < |profiles| && profiles[i].userId == u && HasEmail(profiles[i]);
        if i < |ps| { assert ps[i] == profiles[i]; }
      }
    }
  }

  /** `if (p.email)`: a non-null, non-empty address. */
  predicate HasEmail(p: ProfileRow) {
    Present(p.email)
  }

  // ---------------------------------------------------------------------------
  // Ledger
  // ---------------------------------------------------------------------------

  /** Inserting into `digest_sends`: `None` when the key is already there (the
      unique violation), otherwise the ledger with the key added. */
  function Reserve(ledger: set<Key>, k: Key): (r: Option<set<Key>>)
    ensures r.None? <==> k in ledger
    ensures r.Some? ==> r.value == ledger + {k} && k !in ledger
  {
    if k in ledger then None else Some(ledger + {k})
  }

  /** Deleting the key; deleting a missing key is not an error. */
  function Release(ledger: set<Key>, k: Key): (r: set<Key>)
    ensures k !in r
    ensures forall k' :: k' in ledger && k' != k ==> k' in r
    ensures r <= ledger
  {
    ledger - {k}
  }

  /** Reserving and then releasing a fresh key restores the ledger. */
  lemma ReserveReleaseRestores(ledger: set<Key>, k: Key)
    requires k !in ledger
    ensures Release(Reserve(ledger, k).value, k) == ledger
  {
  }

  // ---------------------------------------------------------------------------
  // Dispatcher
  // ---------------------------------------------------------------------------

  /** A message handed to the transport and accepted by it. */
  datatype Delivery = Delivery(receiver: UserId, to: string, message: Message)

  datatype Counters = Counters(sent: nat, skippedAlreadySent: nat, skippedNoEmail: nat)

  /** How the loop over receivers ended. */
  datatype Stop = Finished | TransportFailed(receiver: UserId)

  datatype Batch = Batch(stop: Stop, counters: Counters, ledger: set<Key>, deliveries: seq<Delivery>)

  function DeliveredReceivers(ds: seq<Delivery>): (us: seq<UserId>)
    ensures |us| == |ds|
    ensures forall i :: 0 <= i < |ds| ==> us[i] == ds[i].receiver
  {
    seq(|ds|, i requires 0 <= i < |ds| => ds[i].receiver)
  }

  /** The ledger keys of a run's messages. */
  function KeysOf(ds: seq<Delivery>, day: Day): set<Key> {
    if ds == [] then {} else {Key(ds[0].receiver, day)} + KeysOf(ds[1..], day)
  }

  /** The items of `u`'s group. */
  function GroupItems(groups: seq<Group>, u: UserId): seq<Kind> {
    if groups == [] then []
    else if groups[0].receiver == u then groups[0].items
    else GroupItems(groups[1..], u)
  }

  /** The loop over receivers, in grouping order. A receiver without an
      address is counted and skipped; one whose key is already in the ledger
      is counted and skipped; otherwise the key is reserved and the message
      sent, and a failed send releases the key and ends the batch. */
  function Dispatch(groups: seq<Group>, emails: map<UserId, string>, day: Day,
                    ledger: set<Key>, rejects: set<UserId>): (b: Batch)
    ensures b.counters.sent == |b.deliveries| <= |groups|
    ensures b.stop.Finished? ==>
      b.counters.sent + b.counters.skippedAlreadySent + b.counters.skippedNoEmail == |groups|
  {
    if groups == [] then Batch(Finished, Counters(0, 0, 0), ledger, [])
    else
      var g := groups[0];
      var k := Key(g.receiver, day);
      if g.receiver !in emails then
        var b := Dispatch(groups[1..], emails, day, ledger, rejects);
        b.(counters := b.counters.(skippedNoEmail := b.counters.skippedNoEmail + 1))
      else
        match Reserve(ledger, k)
        case None =>
          var b := Dispatch(groups[1..], emails, day, ledger, rejects);
          b.(counters := b.counters.(skippedAlreadySent := b.counters.skippedAlreadySent + 1))
        case Some(reserved) =>
          if g.receiver in rejects then
            Batch(TransportFailed(g.receiver), Counters(0, 0, 0), Release(reserved, k), [])
          else
            var b := Dispatch(groups[1..], emails, day, reserved, rejects);
            b.(counters := b.counters.(sent := b.counters.sent + 1),
               deliveries := [Delivery(g.receiver, emails[g.receiver], Compose(g.items))] + b.deliveries)
  }

  /** The ledger only ever gains the keys of the messages actually sent:
      skipped receivers leave it alone, and a failed send's key is released. */
  lemma {:induction false} DispatchLedger(groups: seq<Group>, emails: map<UserId, string>, day: Day,
                                          ledger: set<Key>, rejects: set<UserId>)
    ensures var b := Dispatch(groups, emails, day, ledger, rejects);
      b.ledger == ledger + KeysOf(b.deliveries, day)
  {
    if groups != [] {
      var g := groups[0];
      var k := Key(g.receiver, day);
      if g.receiver !in emails || k in ledger {
        DispatchLedger(groups[1..], emails, day, ledger, rejects);
      } else if g.receiver !in rejects {
        DispatchLedger(groups[1..], emails, day, ledger + {k}, rejects);
        var b := Dispatch(groups, emails, day, ledger, rejects);
        assert b.deliveries[1..] == Dispatch(groups[1..], emails, day, ledger + {k}, rejects).deliveries;
      }
    }
  }

  /** A message goes to a receiver of the batch who has an address, at that
      address, whose key was not in the ledger and whom the transport
      accepted, and is composed from the receiver's items. */
  predicate DeliveryOk(d: Delivery, groups: seq<Group>, emails: map<UserId, string>, day: Day,
                       ledger: set<Key>, rejects: set<UserId>) {
    && d.receiver in GroupReceivers(groups)
    && d.receiver in emails && d.to == emails[d.receiver]
    && Key(d.receiver, day) !in ledger
    && d.receiver !in rejects
    && d.message == Compose(GroupItems(groups, d.receiver))
  }

  /** A message that is sound for the rest of the batch is sound for the
      whole batch, as long as it does not go to the first receiver. */
  lemma DeliveryOkCons(d: Delivery, groups: seq<Group>, emails: map<UserId, string>, day: Day,
                       ledger: set<Key>, ledger': set<Key>, rejects: set<UserId>)
    requires groups != [] && d.receiver != groups[0].receiver && ledger <= ledger'
    requires DeliveryOk(d, groups[1..], emails, day, ledger', rejects)
    ensures DeliveryOk(d, groups, emails, day, ledger, rejects)
  {
    assert GroupReceivers(groups) == [groups[0].receiver] + GroupReceivers(groups[1..]);
  }

  /** Every message of a batch is sound. */
  lemma {:induction false} DispatchDeliveryFacts(groups: seq<Group>, emails: map<UserId, string>, day: Day,
                                                 ledger: set<Key>, rejects: set<UserId>)
    ensures forall d :: d in Dispatch(groups, emails, day, ledger, rejects).deliveries ==>
      DeliveryOk(d, groups, emails, day, ledger, rejects)
  {
    if groups != [] {
      var g := groups[0];
      var k := Key(g.receiver, day);
      var rest := groups[1..];
      var ds := Dispatch(groups, emails, day, ledger, rejects).deliveries;
      if g.receiver !in emails || k in ledger {
        DispatchDeliveryFacts(rest, emails, day, ledger, rejects);
        assert ds == Dispatch(rest, emails, day, ledger, rejects).deliveries;
        forall d | d in ds ensures DeliveryOk(d, groups, emails, day, ledger, rejects) {
          DeliveryOkCons(d, groups, emails, day, ledger, ledger, rejects);
        }
      } else if g.receiver !in rejects {
        var reserved := ledger + {k};
        DispatchDeliveryFacts(rest, emails, day, reserved, rejects);
        var ds' := Dispatch(rest, emails, day, reserved, rejects).deliveries;
        var first := Delivery(g.receiver, emails[g.receiver], Compose(g.items));
        assert ds == [first] + ds';
        assert GroupReceivers(groups)[0] == g.receiver;
        forall d | d in ds ensures DeliveryOk(d, groups, emails, day, ledger, rejects) {
          if d != first {
            assert d in ds';
            DeliveryOkCons(d, groups, emails, day, ledger, reserved, rejects);
          }
        }
      }
    }
  }

  /** No receiver gets two messages in one batch. */
  lemma NoDupCons(x: UserId, s: seq<UserId>)
    requires NoDup(s) && x !in s
    ensures NoDup([x] + s)
  {
    var t := [x] + s;
    forall i, j | 0 <= i < j < |t| ensures t[i] != t[j] {
      assert t[j] == s[j - 1];
      if i > 0 { assert t[i] == s[i - 1]; }
    }
  }

  /** A message to a receiver whose key the rest of the batch could not
      reserve adds no repeat. */
  lemma ConsDistinct(first: Delivery, ds: seq<Delivery>, day: Day, reserved: set<Key>)
    requires NoDup(DeliveredReceivers(ds)) && Key(first.receiver, day) in reserved
    requires forall d :: d in ds ==> Key(d.receiver, day) !in reserved
    ensures NoDup(DeliveredReceivers([first] + ds))
  {
    assert DeliveredReceivers([first] + ds) == [first.receiver] + DeliveredReceivers(ds);
    forall i | 0 <= i < |ds| ensures DeliveredReceivers(ds)[i] != first.receiver {
      assert ds[i] in ds;
    }
    NoDupCons(first.receiver, DeliveredReceivers(ds));
  }

  lemma {:induction false} DispatchDistinct(groups: seq<Group>, emails: map<UserId, string>, day: Day,
                                            ledger: set<Key>, rejects: set<UserId>)
    requires NoDup(GroupReceivers(groups))
    ensures NoDup(DeliveredReceivers(Dispatch(groups, emails, day, ledger, rejects).deliveries))
  {
    if groups != [] {
      var g := groups[0];
      var k := Key(g.receiver, day);
      var rest := groups[1..];
      assert GroupReceivers(rest) == GroupReceivers(groups)[1..];
      if g.receiver !in emails || k in ledger {
        DispatchDistinct(rest, emails, day, ledger, rejects);
      } else if g.receiver !in rejects {
        var reserved := ledger + {k};
        DispatchDistinct(rest, emails, day, reserved, rejects);
        DispatchDeliveryFacts(rest, emails, day, reserved, rejects);
        var ds' := Dispatch(rest, emails, day, reserved, rejects).deliveries;
        var first := Delivery(g.receiver, emails[g.receiver], Compose(g.items));
        assert Dispatch(groups, emails, day, ledger, rejects).deliveries == [first] + ds';
        ConsDistinct(first, ds', day, reserved);
      }
    }
  }

  /** Every message of a batch is sound, and no receiver gets two. */
  lemma DispatchDeliveries(groups: seq<Group>, emails: map<UserId, string>, day: Day,
                           ledger: set<Key>, rejects: set<UserId>)
    requires NoDup(GroupReceivers(groups))
    ensures var ds := Dispatch(groups, emails, day, ledger, rejects).deliveries;
      && NoDup(DeliveredReceivers(ds))
      && forall i :: 0 <= i < |ds| ==> DeliveryOk(ds[i], groups, emails, day, ledger, rejects)
  {
    var ds := Dispatch(groups, emails, day, ledger, rejects).deliveries;
    DispatchDeliveryFacts(groups, emails, day, ledger, rejects);
    DispatchDistinct(groups, emails, day, ledger, rejects);
    forall i | 0 <= i < |ds| ensures DeliveryOk(ds[i], groups, emails, day, ledger, rejects) {
      assert ds[i] in ds;
    }
  }

  /** A transport failure names a receiver of the batch who had an address
      and a free key, and leaves that key out of the ledger. */
  lemma {:induction false} DispatchFailure(groups: seq<Group>, emails: map<UserId, string>, day: Day,
                                           ledger: set<Key>, rejects: set<UserId>)
    ensures var b := Dispatch(groups, emails, day, ledger, rejects);
      b.stop.TransportFailed? ==>
        && Key(b.stop.receiver, day) !in b.ledger
        && Key(b.stop.receiver, day) !in ledger
        && b.stop.receiver in emails && b.stop.receiver in rejects
        && b.stop.receiver in GroupReceivers(groups)
  {
    if groups != [] {
      var g := groups[0];
      var k := Key(g.receiver, day);
      assert GroupReceivers(groups) == [g.receiver] + GroupReceivers(groups[1..]);
      if g.receiver !in emails || k in ledger {
        DispatchFailure(groups[1..], emails, day, ledger, rejects);
      } else if g.receiver !in rejects {
        DispatchFailure(groups[1..], emails, day, ledger + {k}, rejects);
      }
    }
  }

  /** A transport failure ends the batch: the failed receiver is the `j`th of
      the batch, and the messages and the ledger are exactly those of
      dispatching the receivers before it, which completed. Nobody after it
      is attempted. */
  lemma {:induction false} DispatchStopsAtFailure(groups: seq<Group>, emails: map<UserId, string>, day: Day,
                                                  ledger: set<Key>, rejects: set<UserId>)
    ensures var b := Dispatch(groups, emails, day, ledger, rejects);
      b.stop.TransportFailed? ==> exists j :: StoppedAt(groups, emails, day, ledger, rejects, b, j)
  {
    if groups != [] {
      var g := groups[0];
      var k := Key(g.receiver, day);
      if g.receiver !in emails || k in ledger {
        DispatchStopsAtFailure(groups[1..], emails, day, ledger, rejects);
        StopsAfterFirst(groups, emails, day, ledger, ledger, rejects);
      } else if g.receiver in rejects {
        var b := Dispatch(groups, emails, day, ledger, rejects);
        assert groups[..0] == [];
        assert StoppedAt(groups, emails, day, ledger, rejects, b, 0);
      } else {
        DispatchStopsAtFailure(groups[1..], emails, day, ledger + {k}, rejects);
        StopsAfterFirst(groups, emails, day, ledger, ledger + {k}, rejects);
      }
    }
  }

  /** When the first group does not fail and the batch continues from
      `after`, a stop in the rest is a stop of the whole batch one place later. */
  lemma StopsAfterFirst(groups: seq<Group>, emails: map<UserId, string>, day: Day,
                        ledger: set<Key>, after: set<Key>, rejects: set<UserId>)
    requires groups != []
    requires var g := groups[0]; var k := Key(g.receiver, day);
      if g.receiver !in emails || k in ledger then after == ledger
      else g.receiver !in rejects && after == ledger + {k}
    requires var b' := Dispatch(groups[1..], emails, day, after, rejects);
      b'.stop.TransportFailed? ==> exists j :: StoppedAt(groups[1..], emails, day, after, rejects, b', j)
    ensures var b := Dispatch(groups, emails, day, ledger, rejects);
      b.stop.TransportFailed? ==> exists j :: StoppedAt(groups, emails, day, ledger, rejects, b, j)
  {
    var rest := groups[1..];
    var b := Dispatch(groups, emails, day, ledger, rejects);
    var b' := Dispatch(rest, emails, day, after, rejects);
    if b.stop.TransportFailed? {
      assert b.stop == b'.stop;
      var j :| StoppedAt(rest, emails, day, after, rejects, b', j);
      assert groups[..j + 1][0] == groups[0] && groups[..j + 1][1..] == rest[..j];
      assert StoppedAt(groups, emails, day, ledger, rejects, b, j + 1);
    }
  }

  /** `b` is the batch that stopped at the `j`th receiver: the receivers
      before it completed, and `b` carries exactly their messages and ledger. */
  predicate StoppedAt(groups: seq<Group>, emails: map<UserId, string>, day: Day,
                      ledger: set<Key>, rejects: set<UserId>, b: Batch, j: int) {
    && 0 <= j < |groups| && b.stop == TransportFailed(groups[j].receiver)
    && var before := Dispatch(groups[..j], emails, day, ledger, rejects);
    && before.stop.Finished?
    && b.deliveries == before.deliveries
    && b.ledger == before.ledger
  }

  /** The number of groups whose receiver has no address. */
  function NoEmailCount(groups: seq<Group>, emails: map<UserId, string>): (n: nat)
    ensures n <= |groups|
  {
    if groups == [] then 0
    else (if groups[0].receiver !in emails then 1 else 0) + NoEmailCount(groups[1..], emails)
  }

  /** On normal completion `skippedNoEmail` is the number of receivers
      without an address, whatever the ledger and the transport did, and
      every other receiver was either sent to or skipped as already sent. */
  lemma {:induction false} DispatchCounters(groups: seq<Group>, emails: map<UserId, string>, day: Day,
                                            ledger: set<Key>, rejects: set<UserId>)
    ensures var b := Dispatch(groups, emails, day, ledger, rejects);
      b.stop.Finished? ==>
        && b.counters.skippedNoEmail == NoEmailCount(groups, emails)
        && b.counters.sent + b.counters.skippedAlreadySent == |groups| - NoEmailCount(groups, emails)
  {
    if groups != [] {
      var k := Key(groups[0].receiver, day);
      if groups[0].receiver !in emails || k in ledger {
        DispatchCounters(groups[1..], emails, day, ledger, rejects);
      } else if groups[0].receiver !in rejects {
        DispatchCounters(groups[1..], emails, day, ledger + {k}, rejects);
      }
    }
  }

  /** Every receiver of `groups` that has an address and a free key is among
      the receivers of `ds`. */
  predicate ReachesAll(groups: seq<Group>, emails: map<UserId, string>, day: Day, ledger: set<Key>, ds: seq<Delivery>) {
    forall u :: u in GroupReceivers(groups) && u in emails && Key(u, day) !in ledger ==>
      u in DeliveredReceivers(ds)
  }

  /** With a transport that accepts everything, the batch completes and sends
      to exactly the receivers that have an address and a free key. */
  lemma {:induction false} DispatchAllAccepted(groups: seq<Group>, emails: map<UserId, string>, day: Day,
                                               ledger: set<Key>)
    ensures var b := Dispatch(groups, emails, day, ledger, {});
      b.stop.Finished? && ReachesAll(groups, emails, day, ledger, b.deliveries)
  {
    if groups != [] {
      var g := groups[0];
      var k := Key(g.receiver, day);
      var rest := groups[1..];
      var b := Dispatch(groups, emails, day, ledger, {});
      if g.receiver !in emails || k in ledger {
        DispatchAllAccepted(rest, emails, day, ledger);
        assert b.deliveries == Dispatch(rest, emails, day, ledger, {}).deliveries;
        ReachesAllSkip(groups, emails, day, ledger, b.deliveries);
      } else {
        DispatchAllAccepted(rest, emails, day, ledger + {k});
        var b' := Dispatch(rest, emails, day, ledger + {k}, {});
        assert b.deliveries == [Delivery(g.receiver, emails[g.receiver], Compose(g.items))] + b'.deliveries;
        ReachesAllSend(groups, emails, day, ledger, b.deliveries[0], b'.deliveries);
      }
    }
  }

  /** A skipped first group leaves nobody to reach that the rest does not. */
  lemma ReachesAllSkip(groups: seq<Group>, emails: map<UserId, string>, day: Day, ledger: set<Key>, ds: seq<Delivery>)
    requires groups != []
    requires groups[0].receiver !in emails || Key(groups[0].receiver, day) in ledger
    requires ReachesAll(groups[1..], emails, day, ledger, ds)
    ensures ReachesAll(groups, emails, day, ledger, ds)
  {
    assert GroupReceivers(groups) == [groups[0].receiver] + GroupReceivers(groups[1..]);
  }

  /** Sending to the first group and reaching the rest reaches them all. */
  lemma ReachesAllSend(groups: seq<Group>, emails: map<UserId, string>, day: Day, ledger: set<Key>,
                       d: Delivery, ds: seq<Delivery>)
    requires groups != [] && d.receiver == groups[0].receiver
    requires ReachesAll(groups[1..], emails, day, ledger + {Key(groups[0].receiver, day)}, ds)
    ensures ReachesAll(groups, emails, day, ledger, [d] + ds)
  {
    assert GroupReceivers(groups) == [d.receiver] + GroupReceivers(groups[1..]);
    assert DeliveredReceivers([d] + ds) == [d.receiver] + DeliveredReceivers(ds);
  }

  /** A receiver without an address never has its ledger key touched. */
  lemma NoEmailKeyUntouched(groups: seq<Group>, emails: map<UserId, string>, day: Day,
                            ledger: set<Key>, rejects: set<UserId>, u: UserId)
    requires u !in emails
    ensures Key(u, day) in Dispatch(groups, emails, day, ledger, rejects).ledger <==> Key(u, day) in ledger
  {
    var ds := Dispatch(groups, emails, day, ledger, rejects).deliveries;
    DispatchLedger(groups, emails, day, ledger, rejects);
    DispatchDeliveryFacts(groups, emails, day, ledger, rejects);
    KeysOfMembership(ds, day, u);
    forall i | 0 <= i < |ds| ensures DeliveredReceivers(ds)[i] != u {
      assert ds[i] in ds;
    }
  }

  // ---------------------------------------------------------------------------
  // The handler
  // ---------------------------------------------------------------------------

  /** The job's configuration and trigger request. */
  datatype Config = Config(cronSecret: Option<string>, resendKey: Option<string>, fromAddress: Option<string>)
  datatype Trigger = Trigger(authorization: Option<string>, token: Option<string>)

  datatype Reply =
    | Unauthorized
    | MissingConfig
    | QueryError(message: string)
    | NoItems
    | Summary(sent: nat, skippedAlreadySent: nat, skippedNoEmail: nat)
    | SendError(receiver: UserId)

  function Status(r: Reply): (code: int)
    ensures code == 200 <==> r.NoItems? || r.Summary?
    ensures code == 401 <==> r == Unauthorized
    ensures code == 500 <==> r.MissingConfig? || r.QueryError? || r.SendError?
  {
    match r
    case Unauthorized => 401
    case MissingConfig => 500
    case QueryError(_) => 500
    case SendError(_) => 500
    case NoItems => 200
    case Summary(_, _, _) => 200
  }

  /** One run: the reply, the ledger afterwards and the messages sent. */
  datatype Run = Run(reply: Reply, ledger: set<Key>, deliveries: seq<Delivery>)

  /** The handler. `acks` and `profiles` are the two queries' results, `day`
      the current UTC day, `ledger` the `digest_sends` table before the run,
      `rejects` the receivers for whom the transport throws. */
  function RunDigest(config: Config, trigger: Trigger, acks: Query<seq<AckRow>>, profiles: Query<seq<ProfileRow>>,
                     day: Day, ledger: set<Key>, rejects: set<UserId>): (r: Run)
    ensures !r.reply.Summary? && !r.reply.SendError? ==> r.ledger == ledger && r.deliveries == []
    ensures !IsAuthorized(config.cronSecret, trigger.authorization, trigger.token) ==> r.reply == Unauthorized
  {
    if !IsAuthorized(config.cronSecret, trigger.authorization, trigger.token) then Run(Unauthorized, ledger, [])
    else if config.resendKey.None? || config.resendKey == Some("")
         || config.fromAddress.None? || config.fromAddress == Some("") then Run(MissingConfig, ledger, [])
    else
      match acks
      case QueryFailed(m) => Run(QueryError(m), ledger, [])
      case Rows(rows) =>
        if rows == [] then Run(NoItems, ledger, [])
        else
          match profiles
          case QueryFailed(m) => Run(QueryError(m), ledger, [])
          case Rows(ps) =>
            var b := Dispatch(GroupByReceiver(rows), EmailById(ps), day, ledger, rejects);
            match b.stop
            case Finished =>
              Run(Summary(b.counters.sent, b.counters.skippedAlreadySent, b.counters.skippedNoEmail), b.ledger, b.deliveries)
            case TransportFailed(u) => Run(SendError(u), b.ledger, b.deliveries)
  }

  /** Whether the handler gets past its checks to the loop over receivers. */
  predicate Proceeds(config: Config, trigger: Trigger, acks: Query<seq<AckRow>>, profiles: Query<seq<ProfileRow>>) {
    && IsAuthorized(config.cronSecret, trigger.authorization, trigger.token)
    && Present(config.resendKey)
    && Present(config.fromAddress)
    && acks.Rows? && acks.rows != [] && profiles.Rows?
  }

  /** The handler answers 401 exactly for an unauthorised trigger, and gets
      to the loop over receivers exactly when it answers with a summary or a
      send error. */
  lemma RunStatus(config: Config, trigger: Trigger, acks: Query<seq<AckRow>>, profiles: Query<seq<ProfileRow>>,
                  day: Day, ledger: set<Key>, rejects: set<UserId>)
    ensures var r := RunDigest(config, trigger, acks, profiles, day, ledger, rejects);
      && (Status(r.reply) == 401 <==> !IsAuthorized(config.cronSecret, trigger.authorization, trigger.token))
      && (r.reply.Summary? || r.reply.SendError? <==> Proceeds(config, trigger, acks, profiles))
      && (r.reply.NoItems? <==>
            && IsAuthorized(config.cronSecret, trigger.authorization, trigger.token)
            && Present(config.resendKey) && Present(config.fromAddress)
            && acks == Rows([]))
  {
  }

  /** Zero rows: the reply is "nothing today", with no ledger change and no
      message sent. */
  lemma NoItemsShortCircuit(config: Config, trigger: Trigger, profiles: Query<seq<ProfileRow>>,
                            day: Day, ledger: set<Key>, rejects: set<UserId>)
    requires IsAuthorized(config.cronSecret, trigger.authorization, trigger.token)
    requires Present(config.resendKey)
    requires Present(config.fromAddress)
    ensures var r := RunDigest(config, trigger, Rows([]), profiles, day, ledger, rejects);
      r.reply == NoItems && r.ledger == ledger && r.deliveries == []
  {
  }
  /** A key is in `KeysOf` exactly when its receiver got a message. */
  lemma {:induction false} KeysOfMembership(ds: seq<Delivery>, day: Day, u: UserId)
    ensures Key(u, day) in KeysOf(ds, day) <==> u in DeliveredReceivers(ds)
  {
    if ds != [] {
      KeysOfMembership(ds[1..], day, u);
      assert DeliveredReceivers(ds) == [ds[0].receiver] + DeliveredReceivers(ds[1..]);
    }
  }

  /** In a batch of distinct receivers, the items looked up for a receiver
      are those of its group. */
  lemma {:induction false} GroupItemsAt(groups: seq<Group>, j: nat)
    requires NoDup(GroupReceivers(groups)) && j < |groups|
    ensures GroupItems(groups, groups[j].receiver) == groups[j].items
  {
    if j > 0 {
      assert GroupReceivers(groups)[0] != GroupReceivers(groups)[j];
      assert GroupReceivers(groups[1..]) == GroupReceivers(groups)[1..];
      GroupItemsAt(groups[1..], j - 1);
    }
  }

  /** Each message of a run goes to one of the day's receivers and lists
      exactly that receiver's acknowledgement kinds. */
  lemma RunMessages(config: Config, trigger: Trigger, acks: Query<seq<AckRow>>,
                    profiles: Query<seq<ProfileRow>>, day: Day, ledger: set<Key>, rejects: set<UserId>)
    requires Proceeds(config, trigger, acks, profiles)
    ensures var r := RunDigest(config, trigger, acks, profiles, day, ledger, rejects);
      forall i :: 0 <= i < |r.deliveries| ==>
        && r.deliveries[i].receiver in Dedup(Receivers(acks.rows))
        && r.deliveries[i].message == Compose(KindsFor(acks.rows, r.deliveries[i].receiver))
  {
    var gs := GroupByReceiver(acks.rows);
    var emails := EmailById(profiles.rows);
    GroupingCorrect(acks.rows);
    DispatchDeliveries(gs, emails, day, ledger, rejects);
    var r := RunDigest(config, trigger, acks, profiles, day, ledger, rejects);
    RunIsDispatch(config, trigger, acks, profiles, day, ledger, rejects);
    forall i | 0 <= i < |r.deliveries|
      ensures r.deliveries[i].message == Compose(KindsFor(acks.rows, r.deliveries[i].receiver))
    {
      var u := r.deliveries[i].receiver;
      assert DeliveryOk(r.deliveries[i], gs, emails, day, ledger, rejects);
      var j :| 0 <= j < |gs| && GroupReceivers(gs)[j] == u;
      GroupItemsAt(gs, j);
    }
  }

  /** A run that reaches the loop answers with a summary or a send error; a
      send error leaves the failed receiver's key free, and a summary counts
      every receiver once. */
  lemma RunReply(config: Config, trigger: Trigger, acks: Query<seq<AckRow>>,
                 profiles: Query<seq<ProfileRow>>, day: Day, ledger: set<Key>, rejects: set<UserId>)
    requires Proceeds(config, trigger, acks, profiles)
    ensures var r := RunDigest(config, trigger, acks, profiles, day, ledger, rejects);
      var receivers := Dedup(Receivers(acks.rows));
      && (r.reply.Summary? || r.reply.SendError?)
      && (r.reply.SendError? ==> Key(r.reply.receiver, day) !in r.ledger && r.reply.receiver in receivers)
      && (r.reply.Summary? ==>
            && r.reply.sent + r.reply.skippedAlreadySent + r.reply.skippedNoEmail == |receivers|
            && r.reply.sent == |r.deliveries|)
  {
    var gs := GroupByReceiver(acks.rows);
    var emails := EmailById(profiles.rows);
    GroupingReceivers(acks.rows);
    DispatchFailure(gs, emails, day, ledger, rejects);
    DispatchCounters(gs, emails, day, ledger, rejects);
  }

  /** A send error aborts the run: it is answered after dispatching exactly
      the receivers grouped before the failed one, and sends to nobody
      grouped after it. */
  lemma RunStopsAtFailure(config: Config, trigger: Trigger, acks: Query<seq<AckRow>>,
                          profiles: Query<seq<ProfileRow>>, day: Day, ledger: set<Key>, rejects: set<UserId>)
    ensures var r := RunDigest(config, trigger, acks, profiles, day, ledger, rejects);
      r.reply.SendError? ==>
        && Proceeds(config, trigger, acks, profiles)
        && exists j :: RunStoppedAt(GroupByReceiver(acks.rows), EmailById(profiles.rows), day, ledger, rejects, r, j)
  {
    if Proceeds(config, trigger, acks, profiles) {
      var gs := GroupByReceiver(acks.rows);
      var emails := EmailById(profiles.rows);
      var b := Dispatch(gs, emails, day, ledger, rejects);
      DispatchStopsAtFailure(gs, emails, day, ledger, rejects);
      if b.stop.TransportFailed? {
        var r := RunDigest(config, trigger, acks, profiles, day, ledger, rejects);
        assert r == Run(SendError(b.stop.receiver), b.ledger, b.deliveries);
        var j :| StoppedAt(gs, emails, day, ledger, rejects, b, j);
        assert RunStoppedAt(gs, emails, day, ledger, rejects, r, j);
      }
    }
  }

  /** Run `r` answered a send error for group `j`, having made exactly the
      deliveries and reservations of dispatching the groups before it. */
  predicate RunStoppedAt(groups: seq<Group>, emails: map<UserId, string>, day: Day,
                         ledger: set<Key>, rejects: set<UserId>, r: Run, j: int) {
    && 0 <= j < |groups| && r.reply == SendError(groups[j].receiver)
    && var before := Dispatch(groups[..j], emails, day, ledger, rejects);
    && r.deliveries == before.deliveries
    && r.ledger == before.ledger
  }

  /** The guarantees of one run that reaches the loop over receivers. */
  lemma RunInvariants(config: Config, trigger: Trigger, acks: Query<seq<AckRow>>,
                      profiles: Query<seq<ProfileRow>>, day: Day, ledger: set<Key>, rejects: set<UserId>)
    requires Proceeds(config, trigger, acks, profiles)
    ensures var r := RunDigest(config, trigger, acks, profiles, day, ledger, rejects);
      var receivers := Dedup(Receivers(acks.rows));
      && (r.reply.Summary? || r.reply.SendError?)
      && (forall i :: 0 <= i < |r.deliveries| ==>
            && r.deliveries[i].receiver in receivers
            && r.deliveries[i].message == Compose(KindsFor(acks.rows, r.deliveries[i].receiver)))
      && (r.reply.SendError? ==> Key(r.reply.receiver, day) !in r.ledger && r.reply.receiver in receivers)
      && (r.reply.Summary? ==>
            && r.reply.sent + r.reply.skippedAlreadySent + r.reply.skippedNoEmail == |receivers|
            && r.reply.sent == |r.deliveries|)
  {
    RunMessages(config, trigger, acks, profiles, day, ledger, rejects);
    RunReply(config, trigger, acks, profiles, day, ledger, rejects);
  }

  /** Whatever the inputs, a run adds to the ledger exactly the keys of the
      messages it sent, sends at most one message per receiver, and sends
      none to a receiver whose key was already in the ledger. */
  lemma RunLedger(config: Config, trigger: Trigger, acks: Query<seq<AckRow>>,
                  profiles: Query<seq<ProfileRow>>, day: Day, ledger: set<Key>, rejects: set<UserId>)
    ensures var r := RunDigest(config, trigger, acks, profiles, day, ledger, rejects);
      && r.ledger == ledger + KeysOf(r.deliveries, day)
      && NoDup(DeliveredReceivers(r.deliveries))
      && forall i :: 0 <= i < |r.deliveries| ==> Key(r.deliveries[i].receiver, day) !in ledger
  {
    if Proceeds(config, trigger, acks, profiles) {
      var gs := GroupByReceiver(acks.rows);
      var emails := EmailById(profiles.rows);
      GroupingCorrect(acks.rows);
      DispatchLedger(gs, emails, day, ledger, rejects);
      DispatchDeliveries(gs, emails, day, ledger, rejects);
      RunIsDispatch(config, trigger, acks, profiles, day, ledger, rejects);
    }
  }

  /** A run past its checks leaves the ledger and the messages of dispatching
      the grouped receivers. */
  lemma RunIsDispatch(config: Config, trigger: Trigger, acks: Query<seq<AckRow>>,
                      profiles: Query<seq<ProfileRow>>, day: Day, ledger: set<Key>, rejects: set<UserId>)
    requires Proceeds(config, trigger, acks, profiles)
    ensures var r := RunDigest(config, trigger, acks, profiles, day, ledger, rejects);
      var b := Dispatch(GroupByReceiver(acks.rows), EmailById(profiles.rows), day, ledger, rejects);
      r.ledger == b.ledger && r.deliveries == b.deliveries
  {
  }

  /** At most one digest per receiver per day: when a second run starts from
      the ledger the first one left, no receiver gets a message from both,
      whatever either run read. */
  lemma AtMostOncePerDay(config: Config, trigger: Trigger, day: Day, ledger: set<Key>,
                         acks1: Query<seq<AckRow>>, profiles1: Query<seq<ProfileRow>>, rejects1: set<UserId>,
                         acks2: Query<seq<AckRow>>, profiles2: Query<seq<ProfileRow>>, rejects2: set<UserId>)
    ensures var r1 := RunDigest(config, trigger, acks1, profiles1, day, ledger, rejects1);
      var r2 := RunDigest(config, trigger, acks2, profiles2, day, r1.ledger, rejects2);
      forall i, j :: 0 <= i < |r1.deliveries| && 0 <= j < |r2.deliveries| ==>
        r1.deliveries[i].receiver != r2.deliveries[j].receiver
  {
    var r1 := RunDigest(config, trigger, acks1, profiles1, day, ledger, rejects1);
    var r2 := RunDigest(config, trigger, acks2, profiles2, day, r1.ledger, rejects2);
    RunLedger(config, trigger, acks1, profiles1, day, ledger, rejects1);
    RunLedger(config, trigger, acks2, profiles2, day, r1.ledger, rejects2);
    forall i, j | 0 <= i < |r1.deliveries| && 0 <= j < |r2.deliveries|
      ensures r1.deliveries[i].receiver != r2.deliveries[j].receiver
    {
      var u := r1.deliveries[i].receiver;
      assert DeliveredReceivers(r1.deliveries)[i] == u;
      KeysOfMembership(r1.deliveries, day, u);
    }
  }

  /** Replaying a completed batch on the ledger it produced sends nothing:
      everyone it sent to, or skipped as already sent, is skipped as already
      sent, and the no-address count repeats. */
  lemma {:induction false} DispatchReplay(groups: seq<Group>, emails: map<UserId, string>, day: Day,
                                          ledger: set<Key>, rejects: set<UserId>, rejects2: set<UserId>)
    requires Dispatch(groups, emails, day, ledger, rejects).stop.Finished?
    ensures var b := Dispatch(groups, emails, day, ledger, rejects);
      Dispatch(groups, emails, day, b.ledger, rejects2)
        == Batch(Finished, Counters(0, b.counters.sent + b.counters.skippedAlreadySent, b.counters.skippedNoEmail),
                 b.ledger, [])
  {
    if groups != [] {
      var g := groups[0];
      var k := Key(g.receiver, day);
      var rest := groups[1..];
      if g.receiver !in emails || k in ledger {
        DispatchReplay(rest, emails, day, ledger, rejects, rejects2);
        DispatchLedger(rest, emails, day, ledger, rejects);
      } else {
        DispatchReplay(rest, emails, day, ledger + {k}, rejects, rejects2);
        DispatchLedger(rest, emails, day, ledger + {k}, rejects);
      }
    }
  }

  /** Idempotence: a second run on the same day, over the same items and
      profiles, after a first run that completed, sends nothing and changes
      nothing, and reports the first run's sends as already sent. */
  lemma SecondRunSendsNothing(config: Config, trigger: Trigger, acks: Query<seq<AckRow>>,
                              profiles: Query<seq<ProfileRow>>, day: Day, ledger: set<Key>,
                              rejects: set<UserId>, rejects2: set<UserId>)
    requires RunDigest(config, trigger, acks, profiles, day, ledger, rejects).reply.Summary?
    ensures var r1 := RunDigest(config, trigger, acks, profiles, day, ledger, rejects);
      var r2 := RunDigest(config, trigger, acks, profiles, day, r1.ledger, rejects2);
      && r2.reply == Summary(0, r1.reply.sent + r1.reply.skippedAlreadySent, r1.reply.skippedNoEmail)
      && r2.ledger == r1.ledger && r2.deliveries == []
  {
    DispatchReplay(GroupByReceiver(acks.rows), EmailById(profiles.rows), day, ledger, rejects, rejects2);
  }

  /** Compensation: after a run that failed to send to `u`, a later run the
      same day over the same items and profiles, with a transport that
      accepts, sends to `u`. */
  lemma RetryAfterFailure(config: Config, trigger: Trigger, acks: Query<seq<AckRow>>,
                          profiles: Query<seq<ProfileRow>>, day: Day, ledger: set<Key>, rejects: set<UserId>)
    requires RunDigest(config, trigger, acks, profiles, day, ledger, rejects).reply.SendError?
    ensures var r1 := RunDigest(config, trigger, acks, profiles, day, ledger, rejects);
      var r2 := RunDigest(config, trigger, acks, profiles, day, r1.ledger, {});
      r2.reply.Summary? && r1.reply.receiver in DeliveredReceivers(r2.deliveries)
  {
    var gs := GroupByReceiver(acks.rows);
    var emails := EmailById(profiles.rows);
    var r1 := RunDigest(config, trigger, acks, profiles, day, ledger, rejects);
    GroupingCorrect(acks.rows);
    DispatchFailure(gs, emails, day, ledger, rejects);
    DispatchAllAccepted(gs, emails, day, r1.ledger);
  }
}
