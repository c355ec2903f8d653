/**
 The `Index` page component as an object: its three pieces of state are fields
 that only its four handlers change, each in one atomic step that agrees with
 `IndexState.Step`.
 */
module IndexPage {
  import opened BlogData
  import opened IndexView
  import opened IndexState
  import opened JsString

  class Index {
    /** The open article; `None` is the catalog view. */
    var selectedArticle: Option<Article>
    /** The text in the comment composer. */
    var newComment: string
    /** The comment index shown by both views. */
    var comments: CommentIndex

    /** The page's state as a value. */
    function State(): ViewState
      reads this
    {
      ViewState(selectedArticle, newComment, comments)
    }

    /** The page on first render: catalog view, empty draft, index seeded from the
        catalog's own comments. */
    constructor ()
      ensures State() == Initial()
      ensures forall i :: 0 <= i < |MockArticles| ==>
        CommentsOf(comments, MockArticles[i].id) == MockArticles[i].comments
    {
      selectedArticle := None;
      newComment := "";
      comments := SeedIndex();
    }

    /** Clicking a catalog card: opens `article`, keeping the draft and the index. */
    method Select(article: Article)
      modifies this
      ensures selectedArticle == Some(article)
      ensures newComment == old(newComment) && comments == old(comments)
      ensures State() == Step(old(State()), SelectArticle(article))
    {
      selectedArticle := Some(article);
    }

    /** The back button: returns to the catalog, keeping the draft and the index. */
    method Clear()
      modifies this
      ensures selectedArticle == None
      ensures newComment == old(newComment) && comments == old(comments)
      ensures State() == Step(old(State()), ClearSelection)
    {
      selectedArticle := None;
    }

    /** Typing in the composer: the draft becomes `text`, exactly as typed. */
    method UpdateDraft(text: string)
      modifies this
      ensures newComment == text
      ensures selectedArticle == old(selectedArticle) && comments == old(comments)
      ensures State() == Step(old(State()), EditDraft(text))
    {
      newComment := text;
    }

    /** The send button. A blank draft or no open article: nothing changes. Otherwise
        the draft, untrimmed, becomes a comment by the viewer appended at the end of
        the open article's thread (an absent thread counting as empty), every other
        thread is kept, the count of that article goes up by one, and the draft is
        emptied. `newId` stands for the clock-derived identifier. */
    method Submit(newId: string)
      modifies this
      ensures selectedArticle == old(selectedArticle)
      ensures IsBlank(old(newComment)) || old(selectedArticle).None? ==>
        comments == old(comments) && newComment == old(newComment)
      ensures !IsBlank(old(newComment)) && old(selectedArticle).Some? ==>
        var id := old(selectedArticle).value.id;
        && comments.Keys == old(comments).Keys + {id}
        && comments[id] == CommentsOf(old(comments), id) + [Comment(newId, ViewerAuthor, old(newComment), JustNow, None)]
        && (forall k :: k in old(comments) && k != id ==> comments[k] == old(comments)[k])
        && CommentCount(comments, id) == CommentCount(old(comments), id) + 1
        && newComment == ""
      ensures State() == Step(old(State()), SubmitComment(newId))
    {
      ghost var before := State();
      if Trim(newComment) == [] || selectedArticle.None? {
        return;
      }
      var article := selectedArticle.value;
      var comment := NewComment(newId, newComment);
      comments := AddComment(comments, article.id, comment);
      newComment := "";
      assert State() == Submitted(before, newId);
    }
  }

  /** A visit: open the third article, write, send, go back. The catalog card of the
      third article then counts one comment and the first still counts two. */
  method CommentOnThirdArticle(newId: string) returns (count3: nat, count1: nat)
    ensures count3 == 1 && count1 == 2
  {
    var page := new Index();
    page.Select(MockArticles[2]);
    page.UpdateDraft("hello");
    assert !IsBlank(page.newComment) by { assert !IsWs(page.newComment[0]); }
    page.Submit(newId);
    page.Clear();
    count3 := CommentCount(page.comments, "3");
    count1 := CommentCount(page.comments, "1");
  }
}
