/**
 * The three stateful components of the page. Each React handler is a synchronous update of
 * the component's fields; a callback prop it would invoke (`onSubmit`, `onEdit`, `onDelete`)
 * is an out-parameter carrying the value it would be invoked with.
 */
module Components {
  import opened Wrappers
  import opened Text
  import opened Sequences
  import opened Articles

  /** The page's root component: the article collection and the current search query. */
  class App {
    var articles: seq<Article>
    var filterStr: string
    /** How many times `componentDidUpdate` has written the collection to local storage. */
    ghost var saveCount: nat

    constructor ()
      ensures articles == [] && filterStr == "" && saveCount == 0
    {
      articles := [];
      filterStr := "";
      saveCount := 0;
    }

    /**
     * The id the creation form hands to a new article: the collection length. See
     * `Articles.AddWithLengthId` and `Articles.LengthIdCollidesAfterDelete` for when it is fresh.
     */
    function NextId(): Id
      reads this
    {
      |articles|
    }

    /** What the feed shows: the articles matching the query, in collection order. */
    function Visible(): (r: seq<Article>)
      reads this
      ensures IsSubsequence(r, articles)
      ensures forall a :: a in r <==> a in articles && (Contains(a.title, filterStr) || Contains(a.text, filterStr))
    {
      FeedFilter(articles, filterStr)
    }

    /**
     * Prepends the new article. The new array is a new reference, so the collection is
     * saved; the query is untouched.
     */
    method AddArticle(a: Article)
      modifies this
      ensures articles == [a] + old(articles)
      ensures articles[0] == a && articles[1..] == old(articles) && |articles| == |old(articles)| + 1
      ensures filterStr == old(filterStr) && saveCount == old(saveCount) + 1
    {
      articles := [a] + articles;
      saveCount := saveCount + 1;
    }

    /** Removes every article carrying `id`; saves even when none did. */
    method DeleteArticle(id: Id)
      modifies this
      ensures articles == RemoveById(old(articles), id)
      ensures |articles| == |old(articles)| - CountId(old(articles), id)
      ensures forall a :: a in articles ==> a.id != id
      ensures filterStr == old(filterStr) && saveCount == old(saveCount) + 1
    {
      RemoveByIdLength(articles, id);
      articles := RemoveById(articles, id);
      saveCount := saveCount + 1;
    }

    /** Replaces every article carrying `e.id` by `e`; saves even when none did. */
    method EditArticle(e: Article)
      modifies this
      ensures articles == ReplaceById(old(articles), e)
      ensures |articles| == |old(articles)|
      ensures forall i :: 0 <= i < |articles| ==> articles[i].id == old(articles)[i].id
      ensures filterStr == old(filterStr) && saveCount == old(saveCount) + 1
    {
      ReplaceByIdFrame(articles, e);
      articles := ReplaceById(articles, e);
      saveCount := saveCount + 1;
    }

    /** Sets the query. The collection keeps its reference, so nothing is saved. */
    method HandleSearch(str: string)
      modifies this
      ensures filterStr == str
      ensures articles == old(articles) && saveCount == old(saveCount)
    {
      filterStr := str;
    }
  }

  /** The two inputs of the form, named by their `name` attribute. */
  datatype Field = TitleField | TextField

  /** The create/edit form: two text buffers and the mode it was opened in. */
  class Form {
    var title: string
    var text: string
    var isEditMode: bool

    /** An absent `title`/`text` prop starts the buffer empty. */
    constructor (titleProp: Option<string>, textProp: Option<string>, isEditModeProp: bool)
      ensures title == titleProp.GetOr("") && text == textProp.GetOr("")
      ensures isEditMode == isEditModeProp
    {
      title := titleProp.GetOr("");
      text := textProp.GetOr("");
      isEditMode := isEditModeProp;
    }

    /**
     * Submits the form with the `articleId` prop current at that moment. An empty title or
     * text rejects the submission and leaves the buffers as they were; otherwise `onSubmit`
     * receives the buffers and the id, and the buffers are cleared, in either mode.
     */
    method HandleSubmit(articleId: Id) returns (submitted: Option<Article>)
      modifies this
      ensures old(title) == "" || old(text) == "" ==>
        submitted == None && title == old(title) && text == old(text)
      ensures old(title) != "" && old(text) != "" ==>
        submitted == Some(Article(old(title), old(text), articleId)) && title == "" && text == ""
      ensures isEditMode == old(isEditMode)
    {
      if title == "" || text == "" {
        submitted := None;
        return;
      }
      submitted := Some(Article(title, text, articleId));
      ResetForm();
    }

    /** Empties both buffers. */
    method ResetForm()
      modifies this
      ensures title == "" && text == "" && isEditMode == old(isEditMode)
    {
      title, text := "", "";
    }

    /** Typing into one input replaces that buffer only. */
    method HandleChange(field: Field, value: string)
      modifies this
      ensures field == TitleField ==> title == value && text == old(text)
      ensures field == TextField ==> text == value && title == old(title)
      ensures isEditMode == old(isEditMode)
    {
      match field
      case TitleField => title := value;
      case TextField => text := value;
    }
  }

  /** One article card: collapsed or expanded, and viewing or editing. */
  class ArticleView {
    const id: Id
    var isFullSize: bool
    var isEditing: bool

    constructor (id: Id)
      ensures this.id == id && !isFullSize && !isEditing && !ShowsFull()
    {
      this.id := id;
      isFullSize, isEditing := false, false;
    }

    /** The card is drawn at full size while expanded or while being edited. */
    predicate ShowsFull()
      reads this
    {
      isFullSize || isEditing
    }

    /** Read More / Read Less: flips the size and nothing else. */
    method HandleClick()
      modifies this
      ensures isFullSize == !old(isFullSize) && isEditing == old(isEditing)
    {
      isFullSize := !isFullSize;
    }

    /** Remove: hands the card's id to `onDelete`; the card's own state does not change. */
    method HandleDelete() returns (deleted: Id)
      ensures deleted == id
    {
      deleted := id;
    }

    /** Edit: enters editing, which draws the card at full size whatever its size flag. */
    method HandleEdit()
      modifies this
      ensures isEditing && isFullSize == old(isFullSize)
      ensures ShowsFull()
    {
      isEditing := true;
    }

    /**
     * The edit form's submit: hands the edited article to `onEdit`, then leaves editing;
     * the card falls back to the size it had before.
     */
    method HandleSave(article: Article) returns (edited: Article)
      modifies this
      ensures edited == article
      ensures !isEditing && isFullSize == old(isFullSize)
      ensures ShowsFull() == old(isFullSize)
    {
      edited := article;
      isEditing := false;
    }
  }
}
