# Blog page: article collection, search filter and edit workflow

A model of the logic under the React blog page in `main.js`: the `App` component's
article collection (add, delete, edit, search query), the `Feed` component's search
filter, the create/edit `Form` and the per-article `Article` card state.

- `wrappers.dfy` — `Option`, for absent props and callbacks that do not fire.
- `text.dfy` — `String.prototype.indexOf` (`Text.IndexOf`), checked against a plain
  definition of "is a substring of" (`Text.Contains`).
- `sequences.dfy` — `Array.prototype.filter` (`Sequences.Filter`), with a subsequence
  predicate and a lemma that its contract determines its result.
- `articles.dfy` — the `Article` record and the pure collection operations: delete
  (`RemoveById`), edit (`ReplaceById`) and the feed filter (`FeedFilter`), with their lemmas.
- `components.dfy` — the stateful components as classes: `App` (fields `articles`,
  `filterStr`, and a ghost count of local-storage writes), `Form` (buffers `title`, `text`)
  and `ArticleView` (the `Article` card: `isFullSize`, `isEditing`). A callback prop a
  handler invokes (`onSubmit`, `onEdit`, `onDelete`) is an out-parameter holding the value
  it is invoked with; `None` means the callback is not invoked.
- `scenarios.dfy` — clients wiring the components as `App.render` does: publishing
  through the form, searching, deleting, editing through a card, a rejected submission,
  and the repeated-id case below.

Three behaviours of the code shape the model:

- Ids are not unique. A new article gets `id = articles.length` (main.js:286). While only
  adds happen that id is fresh (`Articles.AddWithLengthId`), but after a delete it can
  repeat an id: exactly when the new length equals an id still present, as when the
  article with the highest id survives a delete (`Articles.LengthIdCollidesAfterDelete`,
  `Scenarios.RepeatedIdAfterDelete`). So delete
  removes every article carrying the id and edit replaces every one; deleting an id
  shrinks the collection by the number of articles carrying it (`Articles.RemoveByIdLength`),
  which is one only when exactly one does.
- Submission is refused only for an empty title or text; nothing is trimmed, so `" "` is
  accepted (main.js:135).
- `componentDidUpdate` saves whenever the `articles` array is a new reference
  (main.js:273-277). `addArticle`, `deleteArticle` and `editArticle` always build a new
  array, so each of them saves, even when a delete or edit matched nothing; `handleSearch`
  never saves. `App.saveCount` counts exactly that.

## Model

| member | source | states |
|---|---|---|
| Text.IndexOf | main.js:97-98 | `indexOf` returns -1 exactly when the query is not a substring; otherwise an index where it occurs, with no occurrence before it |
| Text.EmptyQueryFoundAtZero | main.js:97-98 | the empty query is found in every string, at index 0 |
| Sequences.Filter | main.js:96-99 | `filter` returns a subsequence of its input holding every copy of each element that passes and none that fails; when every element passes it returns the input |
| Sequences.FilterCharacterized | main.js:96-99 | any subsequence with exactly those element counts equals the filter result, so the contract of `Filter` fixes both contents and order |
| Sequences.SubsequenceMultiset | main.js:96-99 | a subsequence never holds more copies of an element than its source |
| Articles.RemoveById | main.js:238-242 | delete keeps, in order, exactly the articles whose id differs, with their multiplicities; none with the id remains; with no article carrying the id the collection is unchanged |
| Articles.RemoveByIdLength | main.js:238-242 | delete shrinks the collection by the number of articles carrying the id, and leaves it unchanged iff there are none |
| Articles.RemoveByIdIdempotent | main.js:238-242 | deleting the same id twice is deleting it once |
| Articles.ReplaceById | main.js:244-253 | edit keeps the length; every position whose id equals the edited article's becomes it, every other position is unchanged |
| Articles.ReplaceByIdFrame | main.js:244-253 | edit keeps every id in its position, changes nothing when no id matches, and leaves no other article with the edited id |
| Articles.ReplaceByIdIdempotent | main.js:244-253 | editing twice with the same article is editing once |
| Articles.RemoveAfterReplace | main.js:238-253 | deleting an id after editing it gives the same collection as deleting it directly |
| Articles.RemoveAfterAdd | main.js:232-242 | deleting the id of a just-added article removes it and every older article sharing that id, nothing else |
| Articles.Matches | main.js:97-98 | an article passes the feed's test iff the query is a substring of its title or of its text |
| Articles.FeedFilter | main.js:95-99 | the feed shows an order-preserving subsequence of the collection; an article appears iff the query is a substring of its title or of its text, with all its copies |
| Articles.FeedFilterEmptyQuery | main.js:95-99 | the empty query shows the whole collection in order |
| Components.App.constructor | main.js:221-224 | the page starts with no articles, an empty query and nothing saved |
| Components.App.NextId | main.js:284-287 | the creation form's id is the collection length (its freshness is stated by the two lemmas below) |
| Articles.AddWithLengthId | main.js:232-236 | while every id is below the collection length, the length is carried by no article, and adding an article with that id keeps every id below the new length |
| Articles.LengthIdCollidesAfterDelete | main.js:238-242 | when the article with id `length - 1` survives the removal of one other article, the next length-derived id equals its id |
| Components.App.Visible | main.js:288-290 | the feed receives the articles matching the current query, as a subsequence of the collection |
| Components.App.AddArticle | main.js:232-236 | the new article comes first, followed by the old collection unchanged and in order; length grows by one; the query is kept; one save |
| Components.App.DeleteArticle | main.js:238-242 | the collection becomes the delete result: no article with the id remains, length drops by their number; the query is kept; one save |
| Components.App.EditArticle | main.js:244-253 | the collection becomes the edit result: same length, same ids in place; the query is kept; one save |
| Components.App.HandleSearch | main.js:255-259 | the query becomes the given string; the collection is unchanged and nothing is saved |
| Components.Form.constructor | main.js:120-127 | the buffers start as the `title`/`text` props, or empty when absent; the mode is the prop |
| Components.Form.HandleSubmit | main.js:133-145 | with an empty title or text nothing is submitted and both buffers are unchanged; otherwise exactly one article `{title, text, id: articleId}` from the pre-submit buffers is submitted and both buffers become empty, in either mode |
| Components.Form.ResetForm | main.js:147-152 | both buffers become empty |
| Components.Form.HandleChange | main.js:154-158 | typing into one input replaces that buffer and leaves the other alone |
| Components.ArticleView.constructor | main.js:4-9 | a card starts collapsed and not editing, so not drawn at full size |
| Components.ArticleView.ShowsFull | main.js:44 | a card is drawn at full size iff it is expanded or being edited |
| Components.ArticleView.HandleClick | main.js:16-20 | Read More / Read Less negates `isFullSize` and leaves `isEditing` alone |
| Components.ArticleView.HandleDelete | main.js:22-24 | Remove hands the card's own id to `onDelete` |
| Components.ArticleView.HandleEdit | main.js:26-28 | Edit sets `isEditing`, keeps `isFullSize`, and the card is then drawn at full size (main.js:44) |
| Components.ArticleView.HandleSave | main.js:30-33 | the edited article is handed to `onEdit` unchanged, then `isEditing` is cleared and the full-size display falls back to `isFullSize` (main.js:44) |
| Scenarios.PublishTwo | main.js:284-287 | publishing "Hi"/"World" then "A"/"B" through the creation form yields `[{A,B,1}, {Hi,World,0}]` with two saves |
| Scenarios.SearchWor | main.js:95-99 | on that collection the query "Wor" shows only `{Hi,World,0}` |
| Scenarios.DeleteThenEdit | main.js:30-33 | after publishing both, deleting id 1 and editing article 0 to "Hi2" through its card and edit form leaves `[{Hi2,World,0}]`, four saves, the card out of editing and the form cleared |
| Scenarios.RejectEmptyTitle | main.js:133-137 | submitting the creation form with an empty title and text "something" publishes nothing, saves nothing, and keeps "something" in the text buffer |
| Scenarios.RepeatedIdAfterDelete | main.js:284-287 | adding two articles, deleting id 0 and adding a third gives two articles both with id 1 |
| Scenarios.RepeatedIdEditAndDelete | main.js:244-253 | on that collection an edit of id 1 replaces both articles, and a delete of id 1 then empties the collection |

## Left out

- Loading and saving (`saveToLocalStorage`, `componentDidMount`, main.js:261-271): browser
  storage and `JSON.stringify`/`JSON.parse` are I/O and a foreign serializer; only the number
  of writes is kept, as `App.saveCount`, and the write after a successful load is not counted.
  `JSON.parse` of malformed stored text would throw in the code rather than fall back to an
  empty collection; that path is not modelled.
- Markdown rendering with `Remarkable` and the injected HTML (main.js:41, 56): external library.
- JSX markup, CSS classes, button labels, `ReactDOM.render`, `document.querySelector`
  (main.js:1, 43-91, 101-116, 160-188, 204-214, 279-302): presentation only. The only part of
  the markup kept is which state draws a card at full size (`ArticleView.ShowsFull`).
- The `Search` component (main.js:191-215): it echoes the typed value and forwards it to
  `handleSearch`; only the forwarded string is modelled, as the argument of `App.HandleSearch`.
- The buttons shown only while not editing (main.js:61-81): the handlers are modelled as
  callable in any state, which is what the handler code itself allows.
- The card's `title`/`text` props only feed rendering and the edit form's initial buffers;
  `ArticleView` keeps only the id, and the scenarios pass the props to `Form` directly.
- `e.preventDefault()` (main.js:134) and React's asynchronous, batched `setState`: each handler
  is one synchronous field update.
- React keys: with repeated ids two cards share a `key` (main.js:106); how React then reuses
  card state is framework behaviour, not modelled.
- Character encoding: `Text.IndexOf` works on Dafny characters (Unicode scalar values) where JavaScript compares
  UTF-16 code units; whether a query occurs is the same for well-formed strings, the index
  returned can differ, and only whether it is -1 is used.
