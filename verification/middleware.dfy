/** The onboarding gate (src/middleware.ts): a signed-in user who has not
    finished onboarding is sent to `/onboarding` from the app's pages. The
    exported matcher decides which requests reach the middleware at all;
    the middleware's own prefix test then decides on those. */
module Middleware {

  import opened Common
  import opened Text

  /** `protectedPaths`. */
  const ProtectedPaths: seq<string> := ["/start", "/read", "/write", "/digest"]

  /** `protectedPaths.some(p => pathname.startsWith(p))`: a plain prefix test,
      which on its own accepts `/reader` and `/digest-old` too. */
  predicate IsProtected(path: string) {
    exists i :: 0 <= i < |ProtectedPaths| && StartsWith(path, ProtectedPaths[i])
  }

  datatype Response = PassThrough | RedirectTo(target: string)

  /** The decision. `completed` is the `onboarding_completed` column of the
      user's profile, `None` when the profile is missing or unreadable; a
      null column is `Some(false)`. */
  function Decide(user: Option<UserId>, path: string, completed: Option<bool>): (r: Response)
    ensures r.RedirectTo? ==> r.target == "/onboarding"
    ensures r.RedirectTo? <==> user.Some? && IsProtected(path) && completed != Some(true)
  {
    if user.None? then PassThrough
    else if IsProtected(path) && !completed.GetOr(false) then RedirectTo("/onboarding")
    else PassThrough
  }

  /** Without a signed-in user every request passes, whatever the path. */
  lemma SignedOutPasses(path: string, completed: Option<bool>)
    ensures Decide(None, path, completed) == PassThrough
  {
  }

  /** A user whose onboarding is complete is never redirected. */
  lemma CompletedPasses(user: UserId, path: string)
    ensures Decide(Some(user), path, Some(true)) == PassThrough
  {
  }

  /** `config.matcher`: `"/read/:path*"` and its siblings match the prefix
      itself and any path below it, segment by segment. */
  predicate Matched(path: string) {
    exists i :: 0 <= i < |ProtectedPaths| && MatchesSegment(path, ProtectedPaths[i])
  }

  /** `path` is `p` or lies below `p`. */
  predicate MatchesSegment(path: string, p: string) {
    path == p || StartsWith(path, p + "/")
  }

  /** Every path the matcher routes to the middleware passes its prefix test. */
  lemma MatchedIsProtected(path: string)
    requires Matched(path)
    ensures IsProtected(path)
  {
    var i :| 0 <= i < |ProtectedPaths| && MatchesSegment(path, ProtectedPaths[i]);
    var p := ProtectedPaths[i];
    if path != p {
      assert path[..|p|] == (p + "/")[..|p|] == p;
    }
  }

  /** A request as the app serves it: the matcher first, then the middleware. */
  function Gate(user: Option<UserId>, path: string, completed: Option<bool>): (r: Response)
    ensures r.RedirectTo? ==> r.target == "/onboarding"
    ensures r.RedirectTo? <==> user.Some? && Matched(path) && completed != Some(true)
  {
    if Matched(path) then
      MatchedIsProtected(path);
      Decide(user, path, completed)
    else PassThrough
  }

  /** The prefix test alone is not a path-segment test and would gate
      `/reader` like `/read`; the matcher never routes `/reader` to the
      middleware, so it passes. `/onboarding` is gated by neither, so the
      redirect cannot loop, while `/read/abc` is gated. */
  lemma PrefixNotSegment(user: UserId)
    ensures Decide(Some(user), "/reader", None) == RedirectTo("/onboarding")
    ensures Gate(Some(user), "/reader", None) == PassThrough
    ensures Gate(Some(user), "/read/abc", None) == RedirectTo("/onboarding")
    ensures Gate(Some(user), "/onboarding", None) == PassThrough
  {
    assert StartsWith("/reader", ProtectedPaths[1]);
    forall i | 0 <= i < |ProtectedPaths| ensures !MatchesSegment("/reader", ProtectedPaths[i]) {
      var p := ProtectedPaths[i];
      assert "/reader"[1] != p[1] || "/reader"[|p|] != '/';
    }
    assert MatchesSegment("/read/abc", ProtectedPaths[1]) by {
      assert "/read/abc"[..6] == ProtectedPaths[1] + "/";
    }
    var o := "/onboarding";
    forall i | 0 <= i < |ProtectedPaths| ensures !StartsWith(o, ProtectedPaths[i]) {
      var p := ProtectedPaths[i];
      assert o[1] != p[1];
    }
    forall i | 0 <= i < |ProtectedPaths| ensures !MatchesSegment(o, ProtectedPaths[i]) {
      var p := ProtectedPaths[i];
      assert o[1] != p[1];
    }
  }
}
