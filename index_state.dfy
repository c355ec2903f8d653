/**
 The view state of the blog page and its four transitions, as pure functions.
 The page holds a nullable selected article, a draft comment and the comment
 index; each user action replaces that state by a new one, atomically.
 The class in IndexPage is proved against `Step`.
 */
module IndexState {
  import opened BlogData
  import opened IndexView
  import opened JsString

  /** The author label of comments written on this page. */
  const ViewerAuthor: string := "Вы"
  /** The timestamp label of a comment just written. */
  const JustNow: string := "только что"

  datatype ViewState = ViewState(selected: Option<Article>, draft: string, comments: CommentIndex)

  /** The user actions: open an article from the catalog, go back to the catalog,
      edit the draft, press "send". `newId` is the identifier the page would take
      from the clock for the new comment. */
  datatype Action =
    | SelectArticle(article: Article)
    | ClearSelection
    | EditDraft(text: string)
    | SubmitComment(newId: string)

  /** The state the page starts in: catalog view, empty draft, seeded index. */
  function Initial(): (s: ViewState)
    ensures s.selected.None? && s.draft == ""
    ensures s.comments.Keys == {"1", "2", "3"}
    ensures forall i :: 0 <= i < |MockArticles| ==>
      CommentsOf(s.comments, MockArticles[i].id) == MockArticles[i].comments
  {
    ViewState(None, "", SeedIndex())
  }

  /** The comment a successful submit creates from the draft, kept verbatim. */
  function NewComment(newId: string, draft: string): (c: Comment)
    ensures c.id == newId && c.content == draft
    ensures c.author == "Вы" && c.timestamp == "только что" && c.avatar.None?
  {
    Comment(newId, ViewerAuthor, draft, JustNow, None)
  }

  /** The index after appending `c` to the thread of `id`, a missing thread counting
      as empty: the thread of `id` gains `c` at its end, every other thread is kept,
      and the count of `id` goes up by one. */
  function AddComment(m: CommentIndex, id: string, c: Comment): (r: CommentIndex)
    ensures r.Keys == m.Keys + {id}
    ensures |r[id]| == CommentCount(m, id) + 1 && r[id][|r[id]| - 1] == c
    ensures r[id][..|r[id]| - 1] == CommentsOf(m, id)
    ensures id !in m ==> r[id] == [c]
    ensures forall k :: k in m && k != id ==> r[k] == m[k]
    ensures CommentCount(r, id) == CommentCount(m, id) + 1
  {
    var r := m[id := CommentsOf(m, id) + [c]];
    assert r[id][..|r[id]| - 1] == CommentsOf(m, id);
    r
  }

  /** The guard of the submit handler: the trimmed draft is non-empty and an article
      is selected. */
  predicate Accepts(s: ViewState)
    ensures Accepts(s) <==> !IsBlank(s.draft) && s.selected.Some?
  {
    Trim(s.draft) != [] && s.selected.Some?
  }

  /** Pressing "send". A blank draft or a missing selection changes nothing; otherwise
      the draft, untrimmed, is appended as a new comment to the selected article's
      thread and the draft is cleared. The selection never changes. */
  function Submitted(s: ViewState, newId: string): (r: ViewState)
    ensures IsBlank(s.draft) ==> r == s
    ensures s.selected.None? ==> r == s
    ensures r.selected == s.selected
    ensures !IsBlank(s.draft) && s.selected.Some? ==>
      && r.draft == ""
      && r.comments == AddComment(s.comments, s.selected.value.id, NewComment(newId, s.draft))
  {
    if !Accepts(s) then s
    else s.(comments := AddComment(s.comments, s.selected.value.id, NewComment(newId, s.draft)), draft := "")
  }

  /** One user action. Only a submit touches the comment index, and then only by
      appending; only editing and submitting touch the draft, so a draft survives
      going back to the catalog and opening another article. */
  function Step(s: ViewState, a: Action): (r: ViewState)
    ensures !a.SubmitComment? ==> r.comments == s.comments
    ensures a.SelectArticle? || a.ClearSelection? ==> r.draft == s.draft
    ensures a.SelectArticle? ==> r.selected == Some(a.article)
    ensures a.ClearSelection? ==> r.selected == None
    ensures a.EditDraft? ==> r.selected == s.selected && r.draft == a.text
    ensures s.comments.Keys <= r.comments.Keys
    ensures forall k :: k in s.comments ==> s.comments[k] <= r.comments[k]
  {
    match a
    case SelectArticle(article) => s.(selected := Some(article))
    case ClearSelection => s.(selected := None)
    case EditDraft(text) => s.(draft := text)
    case SubmitComment(newId) => Submitted(s, newId)
  }

  /** The state after a session of actions, taken one at a time in order. */
  function Run(s: ViewState, acts: seq<Action>): ViewState
    decreases |acts|
  {
    if acts == [] then s else Run(Step(s, acts[0]), acts[1..])
  }

  /** How many of the actions are submits the guard accepts for article `id`. */
  function AcceptedSubmits(s: ViewState, acts: seq<Action>, id: string): nat
    decreases |acts|
  {
    if acts == [] then 0
    else
      (if acts[0].SubmitComment? && Accepts(s) && s.selected.value.id == id then 1 else 0)
      + AcceptedSubmits(Step(s, acts[0]), acts[1..], id)
  }

  /** Comments are never edited, removed or reordered: over any session every thread
      keeps its entry, and what it held before is a prefix of what it holds after. */
  lemma {:induction false} RunOnlyAppends(s: ViewState, acts: seq<Action>)
    ensures s.comments.Keys <= Run(s, acts).comments.Keys
    ensures forall k :: k in s.comments ==> s.comments[k] <= Run(s, acts).comments[k]
    decreases |acts|
  {
    if acts != [] {
      var t := Step(s, acts[0]);
      RunOnlyAppends(t, acts[1..]);
      forall k | k in s.comments ensures s.comments[k] <= Run(s, acts).comments[k] {
        assert s.comments[k] <= t.comments[k];
        assert t.comments[k] <= Run(t, acts[1..]).comments[k];
      }
    }
  }

  /** Each article's count grows by exactly the number of accepted submits made while
      it was selected; nothing else changes it. */
  lemma {:induction false} CountTracksSubmits(s: ViewState, acts: seq<Action>, id: string)
    ensures CommentCount(Run(s, acts).comments, id) == CommentCount(s.comments, id) + AcceptedSubmits(s, acts, id)
    decreases |acts|
  {
    if acts != [] {
      var t := Step(s, acts[0]);
      CountTracksSubmits(t, acts[1..], id);
      if acts[0].SubmitComment? && Accepts(s) {
        assert CommentCount(t.comments, id)
          == CommentCount(s.comments, id) + (if s.selected.value.id == id then 1 else 0);
      }
    }
  }

  /** Over any session from the start, the catalog's seeded index entries stay in the
      index, and each seeded comment list is still at the head of its article's thread. */
  lemma SeededThreadsPersist(acts: seq<Action>)
    ensures SeedIndex().Keys <= Run(Initial(), acts).comments.Keys
    ensures forall i :: 0 <= i < |MockArticles| ==>
      MockArticles[i].comments <= CommentsOf(Run(Initial(), acts).comments, MockArticles[i].id)
  {
    RunOnlyAppends(Initial(), acts);
    forall i | 0 <= i < |MockArticles|
      ensures MockArticles[i].comments <= CommentsOf(Run(Initial(), acts).comments, MockArticles[i].id)
    {
      assert MockArticles[i].id in SeedIndex();
    }
  }

  /** A draft is not tied to the article it was typed for: typing, going back to the
      catalog, opening article `b` and sending posts the draft under `b`. */
  lemma DraftFollowsSelection(s: ViewState, text: string, b: Article, newId: string)
    requires !IsBlank(text)
    ensures Run(s, [EditDraft(text), ClearSelection, SelectArticle(b), SubmitComment(newId)]).comments
      == AddComment(s.comments, b.id, NewComment(newId, text))
  {
    var acts := [EditDraft(text), ClearSelection, SelectArticle(b), SubmitComment(newId)];
    var s1 := Step(s, acts[0]);
    var s2 := Step(s1, acts[1]);
    var s3 := Step(s2, acts[2]);
    assert Run(s, acts) == Run(s1, acts[1..]);
    assert Run(s1, acts[1..]) == Run(s2, acts[2..]);
    assert Run(s2, acts[2..]) == Run(s3, acts[3..]);
    assert Run(s3, acts[3..]) == Step(s3, acts[3]);
  }

  /** Opening the third article, which has no comments, typing "hello" and sending
      gives it a one-comment thread and a count of one, and empties the draft. */
  lemma FirstCommentOnThirdArticle(newId: string)
    ensures var s := Run(Initial(), [SelectArticle(MockArticles[2]), EditDraft("hello"), SubmitComment(newId)]);
      && CommentsOf(s.comments, "3") == [Comment(newId, "Вы", "hello", "только что", None)]
      && CommentCount(s.comments, "3") == 1
      && CommentCount(s.comments, "1") == 2
      && s.draft == ""
  {
    var acts := [SelectArticle(MockArticles[2]), EditDraft("hello"), SubmitComment(newId)];
    var s1 := Step(Initial(), acts[0]);
    var s2 := Step(s1, acts[1]);
    assert !IsWs("hello"[0]);
    assert Run(Initial(), acts) == Run(s1, acts[1..]);
    assert Run(s1, acts[1..]) == Run(s2, acts[2..]);
    assert Run(s2, acts[2..]) == Step(s2, acts[2]);
  }
}
