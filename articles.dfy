/**
 * The article collection of the blog page and the pure operations `App` applies to it:
 * deletion (`articles.filter`), editing (`articles.map`) and the feed's search filter.
 * Ids are NOT assumed unique: deletion removes every article carrying the id and
 * editing replaces every one.
 */
module Articles {
  import opened Text
  import opened Sequences

  /** Ids are JavaScript numbers compared with `===`; new ones come from the collection length. */
  type Id = int

  datatype Article = Article(title: string, text: string, id: Id)

  /** How many articles of `s` carry `id`. */
  function CountId(s: seq<Article>, id: Id): nat {
    if s == [] then 0 else (if s[0].id == id then 1 else 0) + CountId(s[1..], id)
  }

  /** `articles.filter(article => article.id !== id)`: drops every article carrying `id`. */
  function RemoveById(s: seq<Article>, id: Id): (r: seq<Article>)
    ensures IsSubsequence(r, s)
    ensures forall a :: multiset(r)[a] == if a.id != id then multiset(s)[a] else 0
    ensures forall a :: a in r <==> a in s && a.id != id
    ensures (forall a :: a in s ==> a.id != id) ==> r == s
  {
    Filter(s, (a: Article) => a.id != id)
  }

  /** Deleting an id shrinks the collection by the number of articles carrying it. */
  lemma {:induction false} RemoveByIdLength(s: seq<Article>, id: Id)
    ensures |RemoveById(s, id)| == |s| - CountId(s, id)
    ensures CountId(s, id) == 0 <==> RemoveById(s, id) == s
  {
    if s != [] {
      RemoveByIdLength(s[1..], id);
      assert s == [s[0]] + s[1..];
    }
  }

  /** Every id is a position-sized number below the collection length. */
  predicate IdsBelowLength(s: seq<Article>) {
    forall a :: a in s ==> 0 <= a.id < |s|
  }

  /**
   * While only adds happen, the length-derived id is fresh: the empty collection has every
   * id below its length, an add with id `|s|` keeps that so, and then `|s|` is carried by
   * no article yet.
   */
  lemma AddWithLengthId(s: seq<Article>, title: string, text: string)
    requires IdsBelowLength(s)
    ensures forall a :: a in s ==> a.id != |s|
    ensures IdsBelowLength([Article(title, text, |s|)] + s)
    ensures IdsBelowLength([])
  {
  }

  /**
   * A delete can make the length-derived id collide: when the article with the highest
   * id `|s| - 1` survives the removal of a single other article, the next id is its id.
   */
  lemma LengthIdCollidesAfterDelete(s: seq<Article>, id: Id, b: Article)
    requires CountId(s, id) == 1
    requires b in s && b.id == |s| - 1 && b.id != id
    ensures b in RemoveById(s, id) && b.id == |RemoveById(s, id)|
  {
    RemoveByIdLength(s, id);
  }

  /** Deleting is idempotent: a second delete of the same id changes nothing. */
  lemma RemoveByIdIdempotent(s: seq<Article>, id: Id)
    ensures RemoveById(RemoveById(s, id), id) == RemoveById(s, id)
  {
  }

  /**
   * `articles.map(article => article.id === e.id ? e : article)`: every article carrying
   * `e.id` becomes `e`, every other one stays where it was.
   */
  function ReplaceById(s: seq<Article>, e: Article): (r: seq<Article>)
    ensures |r| == |s|
    ensures forall i :: 0 <= i < |s| ==> r[i] == if s[i].id == e.id then e else s[i]
  {
    if s == [] then [] else [if s[0].id == e.id then e else s[0]] + ReplaceById(s[1..], e)
  }

  /** Editing keeps every id in place, and with no article carrying `e.id` it changes nothing. */
  lemma ReplaceByIdFrame(s: seq<Article>, e: Article)
    ensures forall i :: 0 <= i < |s| ==> ReplaceById(s, e)[i].id == s[i].id
    ensures (forall a :: a in s ==> a.id != e.id) ==> ReplaceById(s, e) == s
    ensures forall a :: a in ReplaceById(s, e) && a.id == e.id ==> a == e
  {
  }

  /** Editing is idempotent. */
  lemma ReplaceByIdIdempotent(s: seq<Article>, e: Article)
    ensures ReplaceById(ReplaceById(s, e), e) == ReplaceById(s, e)
  {
  }

  /** Deleting an id after editing it gives what deleting it alone gives. */
  lemma {:induction false} RemoveAfterReplace(s: seq<Article>, e: Article)
    ensures RemoveById(ReplaceById(s, e), e.id) == RemoveById(s, e.id)
  {
    if s != [] {
      RemoveAfterReplace(s[1..], e);
      var r := ReplaceById(s, e);
      assert r == [r[0]] + ReplaceById(s[1..], e);
      assert r[0].id == e.id <==> s[0].id == e.id;
    }
  }

  /**
   * Adding an article and deleting its id drops every article with that id, the new one
   * and any older one that happens to share it.
   */
  lemma RemoveAfterAdd(s: seq<Article>, a: Article)
    ensures RemoveById([a] + s, a.id) == RemoveById(s, a.id)
  {
    assert ([a] + s)[1..] == s;
  }

  /** The feed's test (main.js:97-98): the query occurs in the title or in the text. */
  predicate Matches(a: Article, q: string)
    ensures Matches(a, q) <==> Contains(a.title, q) || Contains(a.text, q)
  {
    IndexOf(a.title, q) != -1 || IndexOf(a.text, q) != -1
  }

  /** The articles the feed shows for query `q`, in collection order. */
  function FeedFilter(s: seq<Article>, q: string): (r: seq<Article>)
    ensures IsSubsequence(r, s)
    ensures forall a :: a in r <==> a in s && (Contains(a.title, q) || Contains(a.text, q))
    ensures forall a :: multiset(r)[a] == if Matches(a, q) then multiset(s)[a] else 0
  {
    Filter(s, (a: Article) => Matches(a, q))
  }

  /** The empty query shows the whole collection, in order. */
  lemma FeedFilterEmptyQuery(s: seq<Article>)
    ensures FeedFilter(s, "") == s
  {
    forall a | a in s ensures Matches(a, "") {
      EmptyQueryFoundAtZero(a.title);
    }
  }
}
