/**
 The records the blog page works with and the fixed catalog it starts from.
 Articles and their seeded comments are built once and never change; only the
 comment index held by the page grows.
 */
module BlogData {

  datatype Option<+T> = None | Some(value: T)

  /** A comment under an article; `avatar` is an optional picture reference. */
  datatype Comment = Comment(id: string, author: string, content: string, timestamp: string, avatar: Option<string>)

  /** An article of the catalog, reduced to what the page's logic reads: its identifier,
      its ordered tag labels and the comments it is seeded with. */
  datatype Article = Article(id: string, tags: seq<string>, comments: seq<Comment>)

  /** The comment index: article identifier to its comments, oldest first. */
  type CommentIndex = map<string, seq<Comment>>

  /** The three articles of the catalog, in display order. */
  const MockArticles: seq<Article> := [
    Article("1", ["React", "JavaScript", "Frontend"], [
      Comment("1", "Мария К.", "Отличная статья! Особенно понравился раздел про Suspense.", "1 час назад", None),
      Comment("2", "Дмитрий С.", "Можете рассказать больше про Server Components?", "30 мин назад", None)
    ]),
    Article("2", ["Design", "UI/UX", "Figma"], [
      Comment("3", "Сергей П.", "Очень актуальная тема. У нас в команде как раз внедряем дизайн-систему.", "12 часов назад", None)
    ]),
    Article("3", ["TypeScript", "JavaScript", "Types"], [])
  ]

  /** The initial comment index: each catalog article's identifier mapped to the
      comments it is seeded with. */
  function SeedIndex(): (m: CommentIndex)
    ensures m.Keys == set i | 0 <= i < |MockArticles| :: MockArticles[i].id
    ensures forall i :: 0 <= i < |MockArticles| ==> m[MockArticles[i].id] == MockArticles[i].comments
  {
    map["1" := MockArticles[0].comments, "2" := MockArticles[1].comments, "3" := MockArticles[2].comments]
  }
}
