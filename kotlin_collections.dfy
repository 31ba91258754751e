/** Kotlin's `distinct()` on lists, with the facts about it the merge of images and annotations needs. */
module KotlinCollections {

  /** No element occurs twice. */
  ghost predicate NoDuplicates<T>(s: seq<T>) {
    forall i, j :: 0 <= i < j < |s| ==> s[i] != s[j]
  }

  /** The position of the first occurrence of `x` in `s`. */
  function FirstIndexOf<T(==)>(s: seq<T>, x: T): (i: nat)
    requires x in s
    ensures i < |s| && s[i] == x && x !in s[..i]
  {
    if s[0] == x then 0
    else
      var i := FirstIndexOf(s[1..], x);
      assert s[..i + 1] == [s[0]] + s[1..][..i];
      i + 1
  }

  /**
   * Kotlin's `distinct()`: the elements of `s`, each once, at the place of its
   * first occurrence (built as a LinkedHashSet, so order is kept).
   */
  function Distinct<T(==)>(s: seq<T>): (r: seq<T>)
    ensures forall i :: 0 <= i < |r| ==> r[i] in s
    ensures forall i :: 0 <= i < |s| ==> s[i] in r
    ensures NoDuplicates(r)
    ensures |r| <= |s|
  {
    if s == [] then []
    else
      var d := Distinct(s[..|s| - 1]);
      var x := s[|s| - 1];
      assert s == s[..|s| - 1] + [x];
      if x in d then d else d + [x]
  }

  lemma FirstIndexOfExtended<T>(s: seq<T>, y: T, x: T)
    requires x in s
    ensures FirstIndexOf(s + [y], x) == FirstIndexOf(s, x)
  {
    var i, j := FirstIndexOf(s + [y], x), FirstIndexOf(s, x);
    assert (s + [y])[j] == x;
  }

  /** `distinct()` keeps the elements in the order of their first occurrences. */
  lemma {:induction false} DistinctKeepsFirstOccurrenceOrder<T>(s: seq<T>, i: nat, j: nat)
    requires i < j < |Distinct(s)|
    ensures FirstIndexOf(s, Distinct(s)[i]) < FirstIndexOf(s, Distinct(s)[j])
  {
    var p, x := s[..|s| - 1], s[|s| - 1];
    var d := Distinct(p);
    assert s == p + [x];
    var a, b := Distinct(s)[i], Distinct(s)[j];
    if j < |d| {
      assert a == d[i] && b == d[j];
      DistinctKeepsFirstOccurrenceOrder(p, i, j);
      FirstIndexOfExtended(p, x, a);
      FirstIndexOfExtended(p, x, b);
    } else {
      assert x !in d && b == x && a == d[i];
      assert x !in p;
      FirstIndexOfExtended(p, x, a);
      assert FirstIndexOf(s, b) == |p|;
    }
  }

  /** A list without duplicates is its own `distinct()`. */
  lemma {:induction false} DistinctOfDistinct<T>(s: seq<T>)
    requires NoDuplicates(s)
    ensures Distinct(s) == s
  {
    if s != [] {
      var p := s[..|s| - 1];
      assert NoDuplicates(p);
      DistinctOfDistinct(p);
      assert s[|s| - 1] !in p;
      assert s == p + [s[|s| - 1]];
    }
  }
}
