# Blog page view state, in Dafny

A model of the logic of the `Index` page of a small blog front end. The page shows
either a catalog of three fixed articles or one selected article with its comment
thread and a comment composer. Its state has three parts: the selected article
(absent in the catalog view), the draft text of the composer, and the comment
index, a map from article identifier to that article's comments, oldest first,
seeded from the catalog. Four handlers change the state: opening an article,
going back, typing, and sending a comment. Sending is guarded: the trimmed draft
must be non-empty and an article must be open. When it goes through, the untrimmed
draft becomes a comment by "Вы" stamped "только что" at the end of the open
article's thread, a missing thread counting as empty, and the draft is emptied.
The views read the comment count, the empty-thread test and the catalog card's tag
row (two tags and a `+N` badge) from that state.

Layout:

- `js_string.dfy` (module `JsString`): `String.prototype.trim` over the ECMAScript
  WhiteSpace and LineTerminator code points, and the fact that trimming leaves
  nothing exactly when the string is blank.
- `blog_data.dfy` (module `BlogData`): comments, articles, the catalog and the
  seeded comment index.
- `index_view.dfy` (module `IndexView`): the derived values the views show.
- `index_state.dfy` (module `IndexState`): the state as a value, one pure
  transition per action (`Step`), sessions of actions (`Run`) and the lemmas
  about them.
- `index_page.dfy` (module `IndexPage`): the component as a class whose fields
  are the three pieces of state and whose four methods are the handlers, each
  proved to agree with `Step`.

The draft is one page-wide value. Opening or leaving an article never touches the draft, so a draft typed under one article is still in
the composer under the next one and is posted there. The model follows the code
(`IndexState.DraftFollowsSelection`).

## Model

| member | source | states |
|---|---|---|
| `JsString.FirstNonWs` | src/pages/Index.tsx:101 | the start of the trimmed text: every character skipped is white space, and the character found, if any, is not |
| `JsString.EndOfNonWs` | src/pages/Index.tsx:101 | the end of the trimmed text: every character skipped backwards is white space, and the one just below the end, if above the start, is not |
| `JsString.Trim` | src/pages/Index.tsx:101 | the trimmed draft is the draft's middle, between a blank prefix and a blank suffix, and neither starts nor ends with white space; it is empty (so `!draft.trim()` holds) exactly when every character of the draft is white space |
| `BlogData.SeedIndex` | src/pages/Index.tsx:94-98 | the initial index has exactly the catalog's identifiers as keys, each mapped to that article's seeded comments |
| `IndexView.CommentsOf` | src/pages/Index.tsx:210 | the thread listed under an article is its entry in the index, oldest first, and nothing when the entry is missing (the same reading as the empty-array default at line 112) |
| `IndexView.CommentCount` | src/pages/Index.tsx:182 | the count in the detail header and on the card (line 318), the entry's length or 0, equals the number of comments the detail thread lists, and is zero exactly when the entry is missing or empty |
| `IndexView.ShowsEmptyState` | src/pages/Index.tsx:228 | the "no comments yet" message shows exactly when the count is zero, and exactly when the thread lists nothing |
| `IndexView.CardTags` | src/pages/Index.tsx:304-313 | a card shows the first `min(2, n)` tags in order; a `+N` badge shows exactly when `n > 2`, with `N = n - 2 > 0`, so shown tags plus `N` is `n`; with no badge all tags are shown |
| `IndexState.Initial` | src/pages/Index.tsx:92-98 | the first render has no article open, an empty draft, and an index keyed by exactly "1", "2", "3", each holding that catalog article's seeded comments |
| `IndexState.NewComment` | src/pages/Index.tsx:103-108 | the comment a send creates carries the given identifier, the draft verbatim as content, author "Вы", timestamp "только что" and no avatar |
| `IndexState.Accepts` | src/pages/Index.tsx:101 | the send guard passes exactly when the draft is not all white space and an article is open |
| `IndexState.AddComment` | src/pages/Index.tsx:110-113 | appending a comment adds the article's key if missing, puts the comment at the end of that thread with the earlier comments unchanged and in order, yields a one-comment thread for a missing key, keeps every other entry, and raises that article's count by one |
| `IndexState.Submitted` | src/pages/Index.tsx:100-116 | sending with a blank draft or no open article leaves the state unchanged; otherwise the untrimmed draft is appended as the viewer's "just now" comment to the open article's thread and the draft becomes empty; the selection never changes |
| `IndexState.Step` | src/pages/Index.tsx:92-116 | each action (open at line 270, back at 127, type at 191, send at 100-116) is one transition; only sending changes the index and only by appending; opening and going back keep the draft; opening selects that article, going back clears the selection, typing sets the draft verbatim |
| `IndexState.RunOnlyAppends` | src/pages/Index.tsx:110-113 | over any session every thread keeps its key and its earlier comments as a prefix: comments are never removed, edited or reordered |
| `IndexState.CountTracksSubmits` | src/pages/Index.tsx:100-116 | over any session an article's count grows by exactly the number of accepted sends made while it was open |
| `IndexState.SeededThreadsPersist` | src/pages/Index.tsx:94-98 | over any session from the first render, every catalog article keeps an entry and its seeded comments stay at the head of its thread |
| `IndexState.DraftFollowsSelection` | src/pages/Index.tsx:93 | a draft typed, then left via the back button, is posted under whichever article is opened next |
| `IndexState.FirstCommentOnThirdArticle` | src/pages/Index.tsx:77-98 | opening the third article (no comments), typing "hello" and sending yields a thread of exactly that one comment, a count of one, the first article still at two, and an empty draft |
| `IndexPage.Index.constructor` | src/pages/Index.tsx:92-98 | the page starts in the catalog view with an empty draft and each article's seeded comments in the index |
| `IndexPage.Index.Select` | src/pages/Index.tsx:270 | clicking a card opens that article and keeps the draft and the index |
| `IndexPage.Index.Clear` | src/pages/Index.tsx:127 | the back button returns to the catalog and keeps the draft and the index |
| `IndexPage.Index.UpdateDraft` | src/pages/Index.tsx:191 | typing sets the draft to the text as typed and changes nothing else |
| `IndexPage.Index.Submit` | src/pages/Index.tsx:100-116 | `handleAddComment`: no-op on a blank draft or without an open article; otherwise appends the viewer's comment with the untrimmed draft at the end of the open article's thread, keeps all other threads, raises the count by one, empties the draft, and keeps the selection |
| `IndexPage.CommentOnThirdArticle` | src/pages/Index.tsx:318 | after opening the third article, sending "hello" and going back, the catalog cards count one comment for the third article and two for the first |

## Left out

- Markup, styling, images, icons, animation delays and the UI components (cards, badges, avatars, separators): presentation only.
- Article title, excerpt, body, author, timestamp, read time and image: display text that no logic reads; `Article` keeps the identifier, the tags and the seeded comments.
- The search box: it has no handler and no logic.
- `Date.now().toString()` for the new comment's identifier: the clock is replaced by the `newId` parameter of `Submit`, and no uniqueness is claimed (two sends in the same millisecond would share an identifier).
- React's batched and asynchronous state updates and the handler's reads of state captured at render time: each handler is one atomic transition.
- The button's `disabled` state (line 198): it repeats the guard of `handleAddComment` in the interface.
- The avatar fallback `author.slice(0, 2)` (line 215): display only.
- Lookups of identifiers that name properties inherited by every JavaScript object (such as `constructor`): the index is modelled as a plain map; the catalog's identifiers are "1" to "3", so the page never meets such a key.
- The white-space set of `trim` follows the Unicode space separators as currently assigned; a JavaScript engine built on an older Unicode version may trim a slightly different set.
