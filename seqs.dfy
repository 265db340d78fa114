/**
 * The array operations the source leans on, stated once: `Array.prototype.filter` and the
 * stable `Array.prototype.sort` with a comparator, together with what they guarantee.
 */
module Seqs {

  /** `a` can be obtained from `b` by deleting elements: order is preserved. */
  ghost predicate IsSubsequence<T>(a: seq<T>, b: seq<T>)
    decreases |b|
  {
    a == [] || (b != [] && if a[0] == b[0] then IsSubsequence(a[1..], b[1..]) else IsSubsequence(a, b[1..]))
  }

  lemma {:induction false} SubsequenceOfSelf<T>(s: seq<T>)
    ensures IsSubsequence(s, s)
  {
    if s != [] {
      SubsequenceOfSelf(s[1..]);
    }
  }

  /** No element occurs twice. */
  ghost predicate Distinct<T>(s: seq<T>) {
    forall i, j :: 0 <= i < j < |s| ==> s[i] != s[j]
  }

  /** `s.filter(p)`: exactly the elements of `s` that satisfy `p`, each occurrence kept, order preserved. */
  function Filter<T(!new)>(p: T -> bool, s: seq<T>): (r: seq<T>)
    ensures |r| <= |s|
    ensures forall x :: x in r <==> x in s && p(x)
    ensures IsSubsequence(r, s)
  {
    if s == [] then []
    else
      assert s == [s[0]] + s[1..];
      if p(s[0]) then [s[0]] + Filter(p, s[1..]) else Filter(p, s[1..])
  }

  lemma {:induction false} FilterAppend<T(!new)>(p: T -> bool, a: seq<T>, b: seq<T>)
    ensures Filter(p, a + b) == Filter(p, a) + Filter(p, b)
  {
    if a == [] {
      assert a + b == b;
    } else {
      calc {
        Filter(p, a + b);
        { assert (a + b)[0] == a[0]; }
        if p(a[0]) then [a[0]] + Filter(p, (a + b)[1..]) else Filter(p, (a + b)[1..]);
        { assert (a + b)[1..] == a[1..] + b; }
        if p(a[0]) then [a[0]] + Filter(p, a[1..] + b) else Filter(p, a[1..] + b);
        { FilterAppend(p, a[1..], b); }
        if p(a[0]) then [a[0]] + (Filter(p, a[1..]) + Filter(p, b)) else Filter(p, a[1..]) + Filter(p, b);
        Filter(p, a) + Filter(p, b);
      }
    }
  }

  /** `Filter` with a predicate that holds everywhere changes nothing. */
  lemma {:induction false} FilterAll<T(!new)>(p: T -> bool, s: seq<T>)
    requires forall x :: x in s ==> p(x)
    ensures Filter(p, s) == s
  {
    if s != [] {
      FilterAll(p, s[1..]);
    }
  }

  lemma {:induction false} FilterKeepsDistinct<T(!new)>(p: T -> bool, s: seq<T>)
    requires Distinct(s)
    ensures Distinct(Filter(p, s))
  {
    if s != [] {
      FilterKeepsDistinct(p, s[1..]);
    }
  }

  /** `s.map(f)`. */
  function Map<A, B>(f: A -> B, s: seq<A>): (r: seq<B>)
    ensures |r| == |s|
    ensures forall i :: 0 <= i < |s| ==> r[i] == f(s[i])
  {
    if s == [] then [] else [f(s[0])] + Map(f, s[1..])
  }

  /** A `forEach` over `s` that records what each call of `f` produces, in order. */
  method ForEach<A, B>(f: A -> B, s: seq<A>) returns (r: seq<B>)
    ensures r == Map(f, s)
  {
    r := [];
    var i := 0;
    while i < |s|
      invariant 0 <= i <= |s|
      invariant |r| == i
      invariant forall k :: 0 <= k < i ==> r[k] == f(s[k])
    {
      r := r + [f(s[i])];
      i := i + 1;
    }
  }

  /** `le` relates every pair one way or the other. */
  ghost predicate Total<T(!new)>(le: (T, T) -> bool) {
    forall a, b :: le(a, b) || le(b, a)
  }

  ghost predicate Transitive<T(!new)>(le: (T, T) -> bool) {
    forall a, b, c :: le(a, b) && le(b, c) ==> le(a, c)
  }

  /** Every element may stand before every later one. */
  ghost predicate SortedBy<T>(le: (T, T) -> bool, s: seq<T>) {
    forall i, j :: 0 <= i < j < |s| ==> le(s[i], s[j])
  }

  /**
   * Places `x` before the first element it may precede. Elements equal to `x` under `le`
   * stay behind it, which is what makes `SortBy` stable.
   */
  function Insert<T>(le: (T, T) -> bool, x: T, s: seq<T>): (r: seq<T>)
    ensures multiset(r) == multiset(s) + multiset{x}
    ensures |r| == |s| + 1
  {
    if s == [] then [x]
    else
      assert s == [s[0]] + s[1..];
      if le(x, s[0]) then [x] + s else [s[0]] + Insert(le, x, s[1..])
  }

  /** The stable sort `Array.prototype.sort` performs; `le(a, b)` means the comparator puts `a` no later than `b`. */
  function SortBy<T>(le: (T, T) -> bool, s: seq<T>): (r: seq<T>)
    ensures multiset(r) == multiset(s)
    ensures |r| == |s|
  {
    if s == [] then []
    else
      assert s == [s[0]] + s[1..];
      Insert(le, s[0], SortBy(le, s[1..]))
  }

  lemma {:induction false} InsertSorted<T(!new)>(le: (T, T) -> bool, x: T, s: seq<T>)
    requires Total(le) && Transitive(le) && SortedBy(le, s)
    ensures SortedBy(le, Insert(le, x, s))
  {
    if s != [] && !le(x, s[0]) {
      InsertSorted(le, x, s[1..]);
      InsertAfterHead(le, x, s);
      ConsSorted(le, s[0], Insert(le, x, s[1..]));
    }
  }

  /** When `x` goes after the head, every element of the rest with `x` put in follows the head. */
  lemma InsertAfterHead<T(!new)>(le: (T, T) -> bool, x: T, s: seq<T>)
    requires Total(le) && SortedBy(le, s) && s != [] && !le(x, s[0])
    ensures forall y :: y in Insert(le, x, s[1..]) ==> le(s[0], y)
  {
    var t := Insert(le, x, s[1..]);
    forall y | y in t ensures le(s[0], y) {
      assert y in multiset(t);
      if y != x {
        assert y in multiset(s[1..]);
        var j :| 0 <= j < |s[1..]| && s[1..][j] == y;
        assert s[j + 1] == y;
      }
    }
  }

  lemma ConsSorted<T>(le: (T, T) -> bool, a: T, t: seq<T>)
    requires SortedBy(le, t) && forall y :: y in t ==> le(a, y)
    ensures SortedBy(le, [a] + t)
  {
    var r := [a] + t;
    forall i, j | 0 <= i < j < |r| ensures le(r[i], r[j]) {
      if i == 0 {
        assert r[j] == t[j - 1];
        assert r[j] in t;
      } else {
        assert r[i] == t[i - 1] && r[j] == t[j - 1];
      }
    }
  }

  /** The sort's output is ordered by `le` whenever `le` is a total preorder. */
  lemma {:induction false} SortBySorted<T(!new)>(le: (T, T) -> bool, s: seq<T>)
    requires Total(le) && Transitive(le)
    ensures SortedBy(le, SortBy(le, s))
  {
    if s != [] {
      SortBySorted(le, s[1..]);
      InsertSorted(le, s[0], SortBy(le, s[1..]));
    }
  }

  lemma {:induction false} SortByKeepsDistinct<T>(le: (T, T) -> bool, s: seq<T>)
    requires Distinct(s)
    ensures Distinct(SortBy(le, s))
  {
    if s != [] {
      SortByKeepsDistinct(le, s[1..]);
      var t := SortBy(le, s[1..]);
      assert s[0] !in multiset(s[1..]);
      assert s[0] !in t;
      InsertKeepsDistinct(le, s[0], t);
    }
  }

  lemma {:induction false} InsertKeepsDistinct<T>(le: (T, T) -> bool, x: T, s: seq<T>)
    requires Distinct(s) && x !in s
    ensures Distinct(Insert(le, x, s))
  {
    if s != [] && !le(x, s[0]) {
      InsertKeepsDistinct(le, x, s[1..]);
      var t := Insert(le, x, s[1..]);
      assert s[0] !in multiset(t) by {
        assert s[0] !in multiset(s[1..]);
      }
      var r := [s[0]] + t;
      forall i, j | 0 <= i < j < |r| ensures r[i] != r[j] {
        if i == 0 {
          assert r[j] in multiset(t);
        }
      }
    }
  }

  /** Sorting a list that is already in order leaves it as it is. */
  lemma {:induction false} SortByOrdered<T>(le: (T, T) -> bool, s: seq<T>)
    requires forall i :: 0 <= i < |s| - 1 ==> le(s[i], s[i + 1])
    ensures SortBy(le, s) == s
  {
    if s != [] {
      SortByOrdered(le, s[1..]);
      assert [s[0]] + s[1..] == s;
    }
  }

  /** Filtering a sorted list keeps it sorted. */
  lemma {:induction false} FilterKeepsSorted<T(!new)>(le: (T, T) -> bool, p: T -> bool, s: seq<T>)
    requires SortedBy(le, s)
    ensures SortedBy(le, Filter(p, s))
  {
    if s != [] {
      FilterKeepsSorted(le, p, s[1..]);
      var t := Filter(p, s[1..]);
      if p(s[0]) {
        var r := [s[0]] + t;
        forall i, j | 0 <= i < j < |r| ensures le(r[i], r[j]) {
          if i == 0 {
            assert r[j] in t;
            var k :| 0 <= k < |s[1..]| && s[1..][k] == r[j];
            assert s[k + 1] == r[j];
          } else {
            assert r[i] == t[i - 1] && r[j] == t[j - 1];
          }
        }
      }
    }
  }

  /** Inserting behind the one element it may not precede. */
  lemma InsertAfterOne<T>(le: (T, T) -> bool, x: T, a: T)
    requires !le(x, a)
    ensures Insert(le, x, [a]) == [a, x]
  {
    assert [a][1..] == [];
  }

  /** Sorting three elements whose order `le` fixes. */
  lemma SortThree<T>(le: (T, T) -> bool, a: T, b: T, c: T)
    requires le(a, b) && !le(b, a) && le(a, c) && !le(c, a) && le(b, c) && !le(c, b)
    ensures SortBy(le, [b, c, a]) == [a, b, c]
  {
    var l := [b, c, a];
    assert l[1..] == [c, a];
    assert [c, a][1..] == [a];
    assert SortBy(le, [a]) == [a] by {
      assert [a][1..] == [];
    }
    InsertAfterOne(le, c, a);
    assert SortBy(le, [c, a]) == [a, c];
    assert [a, c][1..] == [c];
    assert Insert(le, b, [c]) == [b, c];
    assert Insert(le, b, [a, c]) == [a] + Insert(le, b, [c]);
  }
}
