/** The reading feed (src/app/read/page.tsx): the newest posts, grouped into
    consecutive "Today", "Yesterday" and "Earlier" sections, with per-post
    badges and ownership gating. Times are integer milliseconds since the
    epoch; the local midnights the page computes from the clock are
    parameters. */
module Read {

  import opened Common
  import Posts

  /** A post as the feed selects it. */
  datatype FeedPost = FeedPost(
    id: PostId,
    author: UserId,
    body: string,
    topic: Option<string>,
    createdAt: int,
    updatedAt: int,
    mediaUrl: Option<string>,
    mediaType: Option<string>)

  /** The grace period within which an update does not count as an edit. */
  const EditGrace: int := 60000

  /** `isEdited`: the update and creation times differ by more than a minute,
      in either direction. */
  predicate IsEdited(p: FeedPost) {
    var d := p.updatedAt - p.createdAt;
    (if d < 0 then -d else d) > EditGrace
  }

  /** An edit is recognised whichever timestamp is later. */
  lemma EditedCases(p: FeedPost)
    ensures IsEdited(p) <==> p.updatedAt > p.createdAt + EditGrace || p.createdAt > p.updatedAt + EditGrace
    ensures p.updatedAt == p.createdAt ==> !IsEdited(p)
  {
  }

  /** `isImage`: a non-empty media URL typed as an image. */
  predicate IsImage(p: FeedPost) {
    Present(p.mediaUrl) && p.mediaType == Some("image")
  }

  /** `isVideo`: a non-empty media URL typed as a video. */
  predicate IsVideo(p: FeedPost) {
    Present(p.mediaUrl) && p.mediaType == Some("video")
  }

  /** A post renders at most one media element, and only with a URL. */
  lemma MediaExclusive(p: FeedPost)
    ensures !(IsImage(p) && IsVideo(p))
    ensures IsImage(p) || IsVideo(p) ==> Present(p.mediaUrl)
    ensures Present(p.mediaUrl) && p.mediaType.Some? && p.mediaType.value in Posts.AllowedMedia ==> IsImage(p) || IsVideo(p)
  {
  }

  datatype DayLabel = Today | Yesterday | Earlier

  /** The order in which the labels follow each other in a newest-first feed. */
  function Rank(l: DayLabel): nat {
    match l
    case Today => 0
    case Yesterday => 1
    case Earlier => 2
  }

  /** The start of the viewer's local day and of the day before. */
  datatype Clock = Clock(startToday: int, startYesterday: int)

  /** `groupLabelLocal`. */
  function Label(t: int, c: Clock): (l: DayLabel)
    ensures l == Today <==> t >= c.startToday
    ensures l == Yesterday <==> c.startYesterday <= t < c.startToday
    ensures l == Earlier <==> t < c.startToday && t < c.startYesterday
  {
    if t >= c.startToday then Today
    else if t >= c.startYesterday then Yesterday
    else Earlier
  }

  /** Yesterday starts before today. */
  predicate ClockOk(c: Clock) {
    c.startYesterday <= c.startToday
  }

  /** A later time never gets a later-ranked label. */
  lemma LabelMonotone(t1: int, t2: int, c: Clock)
    requires ClockOk(c) && t1 >= t2
    ensures Rank(Label(t1, c)) <= Rank(Label(t2, c))
  {
  }

  function LabelOf(p: FeedPost, c: Clock): DayLabel {
    Label(p.createdAt, c)
  }

  datatype Section = Section(day: DayLabel, posts: seq<FeedPost>)

  /** One turn of the section-building loop: join the last section when the
      label matches, otherwise open a new one. */
  function AddPost(sections: seq<Section>, p: FeedPost, c: Clock): (r: seq<Section>)
    ensures |sections| <= |r| <= |sections| + 1
    ensures r != [] && r[|r| - 1].day == LabelOf(p, c)
  {
    var l := LabelOf(p, c);
    if |sections| > 0 && sections[|sections| - 1].day == l then
      var last := sections[|sections| - 1];
      sections[..|sections| - 1] + [Section(l, last.posts + [p])]
    else
      sections + [Section(l, [p])]
  }

  /** The sections the loop builds from the feed. */
  function Sections(posts: seq<FeedPost>, c: Clock): (r: seq<Section>)
    ensures |r| <= |posts|
    ensures posts != [] ==> r != []
  {
    if posts == [] then [] else AddPost(Sections(posts[..|posts| - 1], c), posts[|posts| - 1], c)
  }

  /** The posts of the sections, in order. */
  function Flatten(sections: seq<Section>): seq<FeedPost> {
    if sections == [] then [] else Flatten(sections[..|sections| - 1]) + sections[|sections| - 1].posts
  }

  /** A section is non-empty and holds only posts carrying its label. */
  predicate SectionOk(s: Section, c: Clock) {
    s.posts != [] && forall j :: 0 <= j < |s.posts| ==> LabelOf(s.posts[j], c) == s.day
  }

  /** Every section is sound and no two neighbours share a label. */
  predicate WellGrouped(sections: seq<Section>, c: Clock) {
    && (forall i :: 0 <= i < |sections| ==> SectionOk(sections[i], c))
    && (forall i :: 0 < i < |sections| ==> sections[i - 1].day != sections[i].day)
  }

  lemma FlattenAppend(a: seq<Section>, s: Section)
    ensures Flatten(a + [s]) == Flatten(a) + s.posts
  {
    assert (a + [s])[..|a|] == a;
  }

  /** One turn of the loop keeps the sections well grouped. */
  lemma AddPostGrouped(sections: seq<Section>, p: FeedPost, c: Clock)
    requires WellGrouped(sections, c)
    ensures WellGrouped(AddPost(sections, p, c), c)
  {
    var l := LabelOf(p, c);
    var r := AddPost(sections, p, c);
    var n := |sections|;
    if n > 0 && sections[n - 1].day == l {
      var last := sections[n - 1];
      var s' := Section(l, last.posts + [p]);
      assert SectionOk(s', c) by {
        assert SectionOk(last, c);
        forall j | 0 <= j < |s'.posts| ensures LabelOf(s'.posts[j], c) == l {
          if j < |last.posts| { assert s'.posts[j] == last.posts[j]; }
        }
      }
      assert r == sections[..n - 1] + [s'];
      forall i | 0 <= i < |r| ensures SectionOk(r[i], c) {
        if i < n - 1 { assert r[i] == sections[i]; }
      }
      forall i | 0 < i < |r| ensures r[i - 1].day != r[i].day {
        assert r[i - 1] == sections[i - 1];
        if i < n - 1 { assert r[i] == sections[i]; }
      }
    } else {
      var s' := Section(l, [p]);
      assert SectionOk(s', c);
      assert r == sections + [s'];
      forall i | 0 <= i < |r| ensures SectionOk(r[i], c) {
        if i < n { assert r[i] == sections[i]; }
      }
      forall i | 0 < i < |r| ensures r[i - 1].day != r[i].day {
        assert r[i - 1] == sections[i - 1];
        if i < n { assert r[i] == sections[i]; }
      }
    }
  }

  /** One turn of the loop extends the flattening by the post. */
  lemma AddPostFlatten(sections: seq<Section>, p: FeedPost, c: Clock)
    ensures Flatten(AddPost(sections, p, c)) == Flatten(sections) + [p]
  {
    var l := LabelOf(p, c);
    var n := |sections|;
    if n > 0 && sections[n - 1].day == l {
      var init := sections[..n - 1];
      var last := sections[n - 1];
      assert sections == init + [last];
      FlattenAppend(init, last);
      FlattenAppend(init, Section(l, last.posts + [p]));
    } else {
      FlattenAppend(sections, Section(l, [p]));
    }
  }

  /** The feed's sections are well grouped. */
  lemma {:induction false} SectionsGrouped(posts: seq<FeedPost>, c: Clock)
    ensures WellGrouped(Sections(posts, c), c)
  {
    if posts != [] {
      var n := |posts| - 1;
      var prev := Sections(posts[..n], c);
      SectionsGrouped(posts[..n], c);
      assert Sections(posts, c) == AddPost(prev, posts[n], c);
      AddPostGrouped(prev, posts[n], c);
    }
  }

  /** The feed's sections give back the feed in order. */
  lemma {:induction false} SectionsFlatten(posts: seq<FeedPost>, c: Clock)
    ensures Flatten(Sections(posts, c)) == posts
  {
    if posts != [] {
      var n := |posts| - 1;
      var prev := Sections(posts[..n], c);
      SectionsFlatten(posts[..n], c);
      assert Sections(posts, c) == AddPost(prev, posts[n], c);
      AddPostFlatten(prev, posts[n], c);
      assert posts[..n] + [posts[n]] == posts;
    }
  }

  /** The feed's sections are well grouped and give back the feed in order. */
  lemma SectionsCorrect(posts: seq<FeedPost>, c: Clock)
    ensures WellGrouped(Sections(posts, c), c)
    ensures Flatten(Sections(posts, c)) == posts
  {
    SectionsGrouped(posts, c);
    SectionsFlatten(posts, c);
  }

  /** The feed is ordered newest first, as the query asks. */
  predicate NewestFirst(posts: seq<FeedPost>) {
    forall i, j :: 0 <= i < j < |posts| ==> posts[i].createdAt >= posts[j].createdAt
  }

  /** Section labels strictly advance through Today, Yesterday, Earlier. */
  predicate LabelsAdvance(sections: seq<Section>) {
    forall i, j :: 0 <= i < j < |sections| ==> Rank(sections[i].day) < Rank(sections[j].day)
  }

  /** The last post of the flattening is the last post of the last section. */
  lemma FlattenLast(sections: seq<Section>)
    requires |sections| > 0 && sections[|sections| - 1].posts != []
    ensures var f := Flatten(sections); var q := sections[|sections| - 1].posts;
      |f| > 0 && f[|f| - 1] == q[|q| - 1]
  {
  }

  /** A post whose label ranks no earlier than the last section's keeps the
      labels advancing. */
  lemma AddPostAdvances(sections: seq<Section>, p: FeedPost, c: Clock)
    requires LabelsAdvance(sections)
    requires |sections| > 0 ==> Rank(sections[|sections| - 1].day) <= Rank(LabelOf(p, c))
    ensures LabelsAdvance(AddPost(sections, p, c))
  {
    var l := LabelOf(p, c);
    var n := |sections|;
    var r := AddPost(sections, p, c);
    if n > 0 && sections[n - 1].day == l {
      assert r == sections[..n - 1] + [Section(l, sections[n - 1].posts + [p])];
      forall i, j | 0 <= i < j < |r| ensures Rank(r[i].day) < Rank(r[j].day) {
        assert r[i].day == sections[i].day;
        assert r[j].day == sections[j].day;
      }
    } else {
      assert r == sections + [Section(l, [p])];
      forall i, j | 0 <= i < j < |r| ensures Rank(r[i].day) < Rank(r[j].day) {
        assert r[i] == sections[i];
        if j < n {
          assert r[j] == sections[j];
        } else if i < n - 1 {
          assert Rank(sections[i].day) < Rank(sections[n - 1].day);
        }
      }
    }
  }

  /** In a newest-first feed each section's label ranks after the one
      before. */
  lemma {:induction false} NewestFirstAdvances(posts: seq<FeedPost>, c: Clock)
    requires ClockOk(c) && NewestFirst(posts)
    ensures LabelsAdvance(Sections(posts, c))
  {
    if posts != [] {
      var n := |posts| - 1;
      var prev := Sections(posts[..n], c);
      assert NewestFirst(posts[..n]);
      NewestFirstAdvances(posts[..n], c);
      NextPostRanksLater(posts, c);
      AddPostAdvances(prev, posts[n], c);
    }
  }

  /** The next post of a newest-first feed ranks no earlier than the last
      section built so far. */
  lemma NextPostRanksLater(posts: seq<FeedPost>, c: Clock)
    requires ClockOk(c) && NewestFirst(posts) && posts != []
    ensures var n := |posts| - 1; var prev := Sections(posts[..n], c);
      |prev| > 0 ==> Rank(prev[|prev| - 1].day) <= Rank(LabelOf(posts[n], c))
  {
    var n := |posts| - 1;
    var prev := Sections(posts[..n], c);
    if |prev| > 0 {
      SectionsCorrect(posts[..n], c);
      var last := prev[|prev| - 1];
      assert SectionOk(last, c);
      FlattenLast(prev);
      var before := last.posts[|last.posts| - 1];
      assert before == posts[n - 1];
      LabelMonotone(before.createdAt, posts[n].createdAt, c);
    }
  }

  /** Strictly advancing labels cannot make more than three sections. */
  lemma {:induction false} AdvanceBound(sections: seq<Section>)
    requires LabelsAdvance(sections)
    ensures |sections| <= 3
    ensures forall i :: 0 <= i < |sections| ==> Rank(sections[i].day) >= i
  {
    if sections != [] {
      var n := |sections| - 1;
      assert LabelsAdvance(sections[..n]);
      AdvanceBound(sections[..n]);
      if n > 0 {
        assert Rank(sections[n - 1].day) < Rank(sections[n].day);
      }
    }
  }

  /** A newest-first feed shows each label in at most one section, so at most
      three sections. */
  lemma NewestFirstAtMostThree(posts: seq<FeedPost>, c: Clock)
    requires ClockOk(c) && NewestFirst(posts)
    ensures |Sections(posts, c)| <= 3
    ensures forall i, j :: 0 <= i < j < |Sections(posts, c)| ==> Sections(posts, c)[i].day != Sections(posts, c)[j].day
  {
    NewestFirstAdvances(posts, c);
    AdvanceBound(Sections(posts, c));
  }

  /** The section-building loop itself. */
  method BuildSections(posts: seq<FeedPost>, c: Clock) returns (sections: seq<Section>)
    ensures WellGrouped(sections, c)
    ensures Flatten(sections) == posts
  {
    sections := [];
    var i := 0;
    while i < |posts|
      invariant 0 <= i <= |posts|
      invariant sections == Sections(posts[..i], c)
    {
      assert posts[..i + 1][..i] == posts[..i];
      sections := AddPost(sections, posts[i], c);
      i := i + 1;
    }
    assert posts[..i] == posts;
    SectionsCorrect(posts, c);
  }

  /** `isMine`: a signed-in viewer who wrote the post. */
  predicate IsMine(viewer: Option<UserId>, p: FeedPost) {
    Present(viewer) && p.author == viewer.value
  }

  /** What the feed renders around a post: the "You" badge, the post menu,
      the acknowledgement buttons and the "Edited" badge. */
  datatype Controls = Controls(youBadge: bool, menu: bool, ackButtons: bool, editedBadge: bool)

  function ControlsFor(viewer: Option<UserId>, p: FeedPost): (r: Controls)
    ensures r.menu <==> Present(viewer) && p.author == viewer.value
    ensures r.ackButtons <==> !r.menu
    ensures r.youBadge == r.menu
    ensures r.editedBadge == IsEdited(p)
  {
    var mine := IsMine(viewer, p);
    Controls(mine, mine, !mine, IsEdited(p))
  }

  /** A signed-out viewer sees acknowledgement buttons on every post and no
      menu. */
  lemma SignedOutSeesAcks(p: FeedPost)
    ensures ControlsFor(None, p).ackButtons && !ControlsFor(None, p).menu
  {
  }
}
