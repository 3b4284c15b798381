/**
 * Clients of the components, wired the way `App.render` wires them: the creation form gets
 * `articleId = articles.length`, each card's edit form gets the card's id, and a callback
 * value coming out of one component goes into the `App` handler it is bound to.
 */
module Scenarios {
  import opened Wrappers
  import opened Articles
  import opened Components

  /** Publishing two articles through the creation form, newest first. */
  method PublishTwo() returns (app: App)
    ensures app.articles == [Article("A", "B", 1), Article("Hi", "World", 0)]
    ensures fresh(app) && app.filterStr == "" && app.saveCount == 2
  {
    app := new App();
    var form := new Form(None, None, false);
    form.HandleChange(TitleField, "Hi");
    form.HandleChange(TextField, "World");
    var sent := form.HandleSubmit(app.NextId());
    assert sent == Some(Article("Hi", "World", 0));
    assert form.title == "" && form.text == "";
    app.AddArticle(sent.value);

    form.HandleChange(TitleField, "A");
    form.HandleChange(TextField, "B");
    sent := form.HandleSubmit(app.NextId());
    app.AddArticle(sent.value);
  }

  /** Searching "Wor" keeps only the article whose text contains it. */
  lemma SearchWor()
    ensures FeedFilter([Article("A", "B", 1), Article("Hi", "World", 0)], "Wor") == [Article("Hi", "World", 0)]
  {
  }

  /** After publishing both, the query "Wor" shows only the first article. */
  method SearchAfterPublish() {
    var app := PublishTwo();
    app.HandleSearch("Wor");
    SearchWor();
    assert app.Visible() == [Article("Hi", "World", 0)];
  }

  /** Deleting id 1, then editing article 0 through its card and the card's edit form. */
  method DeleteThenEdit() returns (app: App, card: ArticleView, editForm: Form)
    ensures app.articles == [Article("Hi2", "World", 0)] && app.saveCount == 4
    ensures !card.isEditing && editForm.title == "" && editForm.text == ""
  {
    app := PublishTwo();
    app.DeleteArticle(1);
    assert app.articles == [Article("Hi", "World", 0)];

    card := new ArticleView(0);
    card.HandleEdit();
    editForm := new Form(Some("Hi"), Some("World"), true);
    editForm.HandleChange(TitleField, "Hi2");
    var sent := editForm.HandleSubmit(card.id);
    var edited := card.HandleSave(sent.value);
    app.EditArticle(edited);
  }

  /** An empty title rejects the submission: nothing is published, the text stays typed. */
  method RejectEmptyTitle() returns (app: App, form: Form)
    ensures app.articles == [] && app.saveCount == 0
    ensures form.title == "" && form.text == "something"
  {
    app := new App();
    form := new Form(None, None, false);
    form.HandleChange(TextField, "something");
    var sent := form.HandleSubmit(app.NextId());
    assert sent == None;
  }

  /** Ids taken from the collection length repeat after this delete. */
  method RepeatedIdAfterDelete() returns (app: App)
    ensures fresh(app)
    ensures app.articles == [Article("third", "3", 1), Article("second", "2", 1)]
  {
    app := new App();
    app.AddArticle(Article("first", "1", app.NextId()));
    app.AddArticle(Article("second", "2", app.NextId()));
    app.DeleteArticle(0);
    assert app.articles == [Article("second", "2", 1)];
    app.AddArticle(Article("third", "3", app.NextId()));
  }

  /** A later edit, then a delete, of the repeated id reaches both articles. */
  method RepeatedIdEditAndDelete() returns (edited: seq<Article>, deleted: seq<Article>)
    ensures edited == [Article("edited", "e", 1), Article("edited", "e", 1)]
    ensures deleted == []
  {
    var app := RepeatedIdAfterDelete();
    app.EditArticle(Article("edited", "e", 1));
    edited := app.articles;
    app.DeleteArticle(1);
    deleted := app.articles;
  }
}
