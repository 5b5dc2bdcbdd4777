/** `select ... where p`: the rows of a table that satisfy a predicate. A select with no
    `order by` returns them in some order; the model uses the table's insertion order. */
module Query {

  /** The rows of `s` satisfying `p`, each as often as the table holds it, kept in
      insertion order (the recursion on the tail). */
  function Filter<T(!new)>(s: seq<T>, p: T -> bool): (r: seq<T>)
    ensures |r| <= |s|
    ensures forall i :: 0 <= i < |r| ==> p(r[i])
    ensures forall x :: x in r <==> x in s && p(x)
  {
    if s == [] then []
    else
      assert s == [s[0]] + s[1..];
      var rest := Filter(s[1..], p);
      if p(s[0]) then [s[0]] + rest else rest
  }

  /** Filtering keeps every relation that held between earlier and later rows. */
  lemma {:induction false} FilterPairwise<T(!new)>(s: seq<T>, p: T -> bool, rel: (T, T) -> bool)
    requires forall i, j :: 0 <= i < j < |s| ==> rel(s[i], s[j])
    ensures forall i, j :: 0 <= i < j < |Filter(s, p)| ==> rel(Filter(s, p)[i], Filter(s, p)[j])
  {
    if s != [] {
      assert s == [s[0]] + s[1..];
      FilterPairwise(s[1..], p, rel);
      var rest := Filter(s[1..], p);
      forall y | y in rest ensures rel(s[0], y) {
        var k :| 0 <= k < |s[1..]| && s[1..][k] == y;
        assert s[k + 1] == y;
      }
    }
  }

  /** A filter that every row passes returns the table itself. */
  lemma {:induction false} FilterKeepsAll<T(!new)>(s: seq<T>, p: T -> bool)
    requires forall i :: 0 <= i < |s| ==> p(s[i])
    ensures Filter(s, p) == s
  {
    if s != [] {
      FilterKeepsAll(s[1..], p);
    }
  }

  /** A filter that no row passes returns nothing. */
  lemma {:induction false} FilterKeepsNone<T(!new)>(s: seq<T>, p: T -> bool)
    requires forall i :: 0 <= i < |s| ==> !p(s[i])
    ensures Filter(s, p) == []
  {
    if s != [] {
      FilterKeepsNone(s[1..], p);
    }
  }

  /** A select returns each matching row as often as the table holds it, and no other row. */
  lemma {:induction false} FilterMultiplicity<T(!new)>(s: seq<T>, p: T -> bool)
    ensures forall x :: multiset(Filter(s, p))[x] == if p(x) then multiset(s)[x] else 0
  {
    if s != [] {
      assert s == [s[0]] + s[1..];
      FilterMultiplicity(s[1..], p);
    }
  }

  /** A select returns no row exactly when no row of the table matches. */
  lemma FilterEmptyIff<T(!new)>(s: seq<T>, p: T -> bool)
    ensures |Filter(s, p)| == 0 <==> forall i :: 0 <= i < |s| ==> !p(s[i])
  {
  }

  /** The indices of the rows of `s` that satisfy `p`. */
  ghost function Matching<T>(s: seq<T>, p: T -> bool): set<int>
  {
    set i | 0 <= i < |s| && p(s[i])
  }

  /** Filtering a table with one more row at the end. */
  lemma {:induction false} FilterSnoc<T(!new)>(s: seq<T>, x: T, p: T -> bool)
    ensures Filter(s + [x], p) == Filter(s, p) + if p(x) then [x] else []
  {
    var tail := if p(x) then [x] else [];
    if s == [] {
      assert s + [x] == [x];
    } else {
      var t := s + [x];
      assert t[0] == s[0];
      assert t[1..] == s[1..] + [x];
      FilterSnoc(s[1..], x, p);
      var head := if p(s[0]) then [s[0]] else [];
      assert Filter(t, p) == head + Filter(t[1..], p);
      assert Filter(s, p) == head + Filter(s[1..], p);
      assert head + (Filter(s[1..], p) + tail) == (head + Filter(s[1..], p)) + tail;
    }
  }

  /** The matching indices of a table with one more row at the end. */
  lemma MatchingSnoc<T>(s: seq<T>, x: T, p: T -> bool)
    ensures Matching(s + [x], p) == Matching(s, p) + if p(x) then {|s|} else {}
  {
    var t := s + [x];
    assert forall i :: 0 <= i < |s| ==> t[i] == s[i];
  }

  /** The length of a filter is the number of rows that satisfy its predicate. */
  lemma {:induction false} FilterCount<T(!new)>(s: seq<T>, p: T -> bool)
    ensures |Filter(s, p)| == |Matching(s, p)|
  {
    if s == [] {
      assert Matching(s, p) == {};
    } else {
      var front, x := s[..|s| - 1], s[|s| - 1];
      assert s == front + [x];
      FilterCount(front, p);
      FilterSnoc(front, x, p);
      MatchingSnoc(front, x, p);
      assert |front| !in Matching(front, p);
    }
  }
}
