/**
 * `Array.prototype.filter`, used both to delete articles and to select the articles the
 * feed shows, with the properties that pin its result down.
 */
module Sequences {

  /** `r` can be obtained from `s` by deleting elements, keeping the order of the rest. */
  ghost predicate IsSubsequence<T>(r: seq<T>, s: seq<T>)
    decreases |s|
  {
    if s == [] then r == []
    else (r != [] && r[0] == s[0] && IsSubsequence(r[1..], s[1..])) || IsSubsequence(r, s[1..])
  }

  /** `s.filter(p)`: the elements satisfying `p`, every copy of them, in their original order. */
  function Filter<T(!new)>(s: seq<T>, p: T -> bool): (r: seq<T>)
    ensures IsSubsequence(r, s)
    ensures forall x :: multiset(r)[x] == if p(x) then multiset(s)[x] else 0
    ensures forall x :: x in r <==> x in s && p(x)
    ensures (forall x :: x in s ==> p(x)) ==> r == s
  {
    if s == [] then []
    else
      assert s == [s[0]] + s[1..];
      if p(s[0]) then [s[0]] + Filter(s[1..], p) else Filter(s[1..], p)
  }

  /** A subsequence never holds more copies of an element than the sequence it comes from. */
  lemma {:induction false} SubsequenceMultiset<T>(r: seq<T>, s: seq<T>)
    requires IsSubsequence(r, s)
    ensures multiset(r) <= multiset(s)
    decreases |s|
  {
    if s != [] {
      assert s == [s[0]] + s[1..];
      if r != [] && r[0] == s[0] && IsSubsequence(r[1..], s[1..]) {
        assert r == [r[0]] + r[1..];
        SubsequenceMultiset(r[1..], s[1..]);
      } else {
        SubsequenceMultiset(r, s[1..]);
      }
    }
  }

  /**
   * The contract of Filter determines its result: any subsequence of `s` that holds every
   * copy of the elements satisfying `p` and nothing else IS `Filter(s, p)`.
   */
  lemma {:induction false} FilterCharacterized<T(!new)>(r: seq<T>, s: seq<T>, p: T -> bool)
    requires IsSubsequence(r, s)
    requires forall x :: multiset(r)[x] == if p(x) then multiset(s)[x] else 0
    ensures r == Filter(s, p)
    decreases |s|
  {
    if s != [] {
      var x, tail := s[0], s[1..];
      assert s == [x] + tail;
      if IsSubsequence(r, tail) {
        SubsequenceMultiset(r, tail);
      }
      if p(x) {
        assert r != [] && r[0] == x && IsSubsequence(r[1..], tail);
        assert r == [x] + r[1..];
        forall y ensures multiset(r[1..])[y] == if p(y) then multiset(tail)[y] else 0 {
          assert multiset(r) == multiset([x]) + multiset(r[1..]);
        }
        FilterCharacterized(r[1..], tail, p);
      } else {
        assert r != [] ==> r[0] in multiset(r);
        assert IsSubsequence(r, tail);
        forall y ensures multiset(r)[y] == if p(y) then multiset(tail)[y] else 0 {
          assert p(y) ==> y != x;
        }
        FilterCharacterized(r, tail, p);
      }
    }
  }
}
