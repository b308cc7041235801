/** The collapsible post text (src/components/PostBody.tsx): long posts show
    a prefix ending in an ellipsis until the reader opens them. */
module PostBody {

  import opened Common
  import opened Text

  /** `limit`'s default. */
  const DefaultLimit: nat := 320

  const Ellipsis: char := '\U{2026}'

  /** `shouldTruncate`. */
  predicate ShouldTruncate(text: string, truncate: bool, limit: nat) {
    truncate && |text| > limit
  }

  /** `shown`: the whole text unless truncation applies and the body is
      closed; then the first `limit` characters, trailing whitespace dropped,
      and an ellipsis. */
  function Shown(text: string, truncate: bool, limit: nat, open: bool): (r: string)
    ensures !ShouldTruncate(text, truncate, limit) || open ==> r == text
    ensures ShouldTruncate(text, truncate, limit) && !open ==>
      && |r| >= 1 && r[|r| - 1] == Ellipsis
      && var head := r[..|r| - 1];
      && IsPrefix(head, text) && |head| <= limit
      && (head == [] || !IsSpace(head[|head| - 1]))
      && (forall i :: |head| <= i < limit ==> IsSpace(text[i]))
  {
    if !ShouldTruncate(text, truncate, limit) || open then text
    else
      var head := TrimEnd(text[..limit]);
      assert (head + [Ellipsis])[..|head|] == head;
      head + [Ellipsis]
  }

  /** A truncated display is never longer than the limit plus the ellipsis,
      and no longer than the text it stands for. */
  lemma ShownLength(text: string, truncate: bool, limit: nat, open: bool)
    ensures |Shown(text, truncate, limit, open)| <= if ShouldTruncate(text, truncate, limit) && !open then limit + 1 else |text|
    ensures ShouldTruncate(text, truncate, limit) && !open ==> |Shown(text, truncate, limit, open)| <= |text|
  {
  }

  /** The toggle button's caption, when there is a button at all. */
  function ToggleCaption(text: string, truncate: bool, limit: nat, open: bool): (c: Option<string>)
    ensures c.Some? <==> ShouldTruncate(text, truncate, limit)
    ensures c.Some? ==> (c.value == "View less" <==> open) && (c.value == "View more" <==> !open)
  {
    if !ShouldTruncate(text, truncate, limit) then None
    else if open then Some("View less") else Some("View more")
  }

  /** Opening a truncated body shows all of it; a body short enough is the
      same open or closed. */
  lemma OpenShowsAll(text: string, truncate: bool, limit: nat)
    ensures Shown(text, truncate, limit, true) == text
    ensures !ShouldTruncate(text, truncate, limit) ==> Shown(text, truncate, limit, false) == text
  {
  }
}
