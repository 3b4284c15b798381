/**
 * The substring search the feed relies on: `String.prototype.indexOf`, which returns the
 * index of the first occurrence of the query, or -1 when there is none.
 */
module Text {

  /** `q` occurs in `s` starting at index `i`. */
  predicate OccursAt(s: string, q: string, i: int) {
    0 <= i && i + |q| <= |s| && s[i..i + |q|] == q
  }

  /** `q` is a substring of `s`: the reference definition `indexOf` is checked against. */
  ghost predicate Contains(s: string, q: string) {
    exists i :: OccursAt(s, q, i)
  }

  /** `s.indexOf(q, from)` for `from` within `s`: the first occurrence of `q` at or after `from`, or -1. */
  function IndexFrom(s: string, q: string, from: nat): (r: int)
    requires from <= |s|
    ensures r == -1 || (from <= r && OccursAt(s, q, r))
    ensures r == -1 ==> forall j :: from <= j ==> !OccursAt(s, q, j)
    ensures r != -1 ==> forall j :: from <= j < r ==> !OccursAt(s, q, j)
    decreases |s| - from
  {
    if from + |q| > |s| then -1
    else if s[from..from + |q|] == q then from
    else
      assert |q| > 0;
      IndexFrom(s, q, from + 1)
  }

  /** `s.indexOf(q)`: -1 exactly when `q` is not a substring of `s`, else its first position. */
  function IndexOf(s: string, q: string): (r: int)
    ensures r == -1 <==> !Contains(s, q)
    ensures r != -1 ==> OccursAt(s, q, r) && forall j :: 0 <= j < r ==> !OccursAt(s, q, j)
  {
    IndexFrom(s, q, 0)
  }

  /** Every string contains the empty string, at index 0. */
  lemma EmptyQueryFoundAtZero(s: string)
    ensures IndexOf(s, "") == 0
  {
    assert OccursAt(s, "", 0);
  }
}
