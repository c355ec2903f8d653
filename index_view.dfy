/**
 The values the page's two views compute from the comment index and an article:
 the comment thread and its count, the empty-thread message, and the tag row of a
 catalog card. All are read on demand from the single index; nothing is cached.
 */
module IndexView {
  import opened BlogData

  /** The thread shown under an article: its entry in the index, oldest first, or
      nothing when the index has no entry for it. */
  function CommentsOf(m: CommentIndex, id: string): (cs: seq<Comment>)
    ensures id in m ==> cs == m[id]
    ensures id !in m ==> cs == []
  {
    if id in m then m[id] else []
  }

  /** `comments[id]?.length || 0`: the count shown in the detail header and on the
      catalog card. It is the number of comments in the thread the detail view lists. */
  function CommentCount(m: CommentIndex, id: string): (n: nat)
    ensures n == |CommentsOf(m, id)|
    ensures n == 0 <==> id !in m || m[id] == []
  {
    if id !in m then 0
    else if |m[id]| == 0 then 0
    else |m[id]|
  }

  /** `!comments[id] || comments[id].length === 0`: whether the detail view shows the
      "no comments yet" message. It shows exactly when the count is zero, that is,
      exactly when the thread lists nothing. */
  predicate ShowsEmptyState(m: CommentIndex, id: string)
    ensures ShowsEmptyState(m, id) <==> CommentCount(m, id) == 0
    ensures ShowsEmptyState(m, id) <==> CommentsOf(m, id) == []
  {
    id !in m || |m[id]| == 0
  }

  /** The tag row of a catalog card: the tags shown, and the `+N` badge if any. */
  datatype TagRow = TagRow(shown: seq<string>, badge: Option<nat>)

  /** `tags.slice(0, 2)` followed by `+{tags.length - 2}` when `tags.length > 2`.
      The first two tags (all of them when there are fewer) are shown in order, the
      badge appears exactly when tags are hidden, and it counts them. */
  function CardTags(tags: seq<string>): (r: TagRow)
    ensures |r.shown| == if |tags| < 2 then |tags| else 2
    ensures r.shown == tags[..|r.shown|]
    ensures r.badge.Some? <==> |tags| > 2
    ensures r.badge.Some? ==> r.badge.value > 0 && |r.shown| + r.badge.value == |tags|
    ensures r.badge.None? ==> r.shown == tags
  {
    var shown := if |tags| < 2 then tags else tags[..2];
    TagRow(shown, if |tags| > 2 then Some(|tags| - 2) else None)
  }
}
