/** Sequence operations shared by the SQL queries and the client code:
    filtering (SQL `WHERE`, `Array.prototype.filter`), mapping (column
    projection), ordering (`ORDER BY`) and summing (`COUNT`, `SUM`). */
module Collections {

  /** Keeps, in their original order, the elements that satisfy `p`. */
  function Filter<T>(s: seq<T>, p: T -> bool): (r: seq<T>)
    ensures |r| <= |s|
    ensures forall i :: 0 <= i < |r| ==> p(r[i])
  {
    if |s| == 0 then []
    else
      assert s == [s[0]] + s[1..];
      (if p(s[0]) then [s[0]] else []) + Filter(s[1..], p)
  }

  /** Applies `f` to every element, keeping the order. */
  function Map<T, U>(s: seq<T>, f: T -> U): (r: seq<U>)
    ensures |r| == |s|
    ensures forall i :: 0 <= i < |s| ==> r[i] == f(s[i])
  {
    if |s| == 0 then [] else [f(s[0])] + Map(s[1..], f)
  }

  /** Sum of `g` over the elements of `s`. */
  function SumOf<T>(s: seq<T>, g: T -> int): int {
    if |s| == 0 then 0 else g(s[0]) + SumOf(s[1..], g)
  }

  /** `a` can be obtained from `b` by deleting elements. */
  predicate IsSubsequence<T(==)>(a: seq<T>, b: seq<T>)
    decreases |b|
  {
    |a| == 0 || (|b| > 0 && (if a[0] == b[0] then IsSubsequence(a[1..], b[1..]) else IsSubsequence(a, b[1..])))
  }

  /** `Filter` keeps exactly the elements of `s` that satisfy `p`. */
  lemma {:induction false} FilterMembers<T>(s: seq<T>, p: T -> bool)
    ensures forall x :: x in Filter(s, p) <==> x in s && p(x)
    decreases |s|
  {
    if |s| > 0 {
      FilterMembers(s[1..], p);
      assert s == [s[0]] + s[1..];
    }
  }

  /** Two tests that agree on every element keep the same elements. */
  lemma {:induction false} FilterCongruent<T>(s: seq<T>, p: T -> bool, q: T -> bool)
    requires forall i :: 0 <= i < |s| ==> p(s[i]) == q(s[i])
    ensures Filter(s, p) == Filter(s, q)
    decreases |s|
  {
    if |s| > 0 {
      FilterCongruent(s[1..], p, q);
    }
  }

  /** Unfolds `Filter` on a sequence written as head and tail. */
  lemma FilterCons<T>(x: T, t: seq<T>, p: T -> bool)
    ensures Filter([x] + t, p) == (if p(x) then [x] else []) + Filter(t, p)
  {
    var s := [x] + t;
    assert s[0] == x && s[1..] == t;
  }

  lemma {:induction false} FilterAppend<T>(a: seq<T>, b: seq<T>, p: T -> bool)
    ensures Filter(a + b, p) == Filter(a, p) + Filter(b, p)
    decreases |a|
  {
    if |a| == 0 {
      assert a + b == b;
    } else {
      assert a + b == [a[0]] + (a[1..] + b);
      FilterCons(a[0], a[1..] + b, p);
      FilterAppend(a[1..], b, p);
    }
  }

  /** Filtering with a predicate every element meets changes nothing. */
  lemma {:induction false} FilterKeepsAll<T>(s: seq<T>, p: T -> bool)
    requires forall i :: 0 <= i < |s| ==> p(s[i])
    ensures Filter(s, p) == s
    decreases |s|
  {
    if |s| > 0 {
      FilterKeepsAll(s[1..], p);
      assert s == [s[0]] + s[1..];
    }
  }

  /** Filtering with a predicate no element meets leaves nothing. */
  lemma {:induction false} FilterKeepsNone<T>(s: seq<T>, p: T -> bool)
    requires forall i :: 0 <= i < |s| ==> !p(s[i])
    ensures Filter(s, p) == []
    decreases |s|
  {
    if |s| > 0 {
      FilterKeepsNone(s[1..], p);
    }
  }

  /** Every sequence is a subsequence of itself. */
  lemma {:induction false} SubsequenceReflexive<T>(s: seq<T>)
    ensures IsSubsequence(s, s)
    decreases |s|
  {
    if |s| > 0 {
      SubsequenceReflexive(s[1..]);
    }
  }

  /** A filter result is a subsequence of its input. */
  lemma {:induction false} FilterIsSubsequence<T>(s: seq<T>, p: T -> bool)
    ensures IsSubsequence(Filter(s, p), s)
    decreases |s|
  {
    if |s| > 0 {
      FilterIsSubsequence(s[1..], p);
      var r := Filter(s, p);
      if p(s[0]) {
        assert r[0] == s[0] && r[1..] == Filter(s[1..], p);
      } else {
        assert r == Filter(s[1..], p);
        // every element of `r` satisfies `p`, so `r` cannot start with `s[0]`
        assert |r| > 0 ==> r[0] != s[0];
      }
    }
  }

  /** Filtering commutes with mapping when the two predicates agree through `f`. */
  lemma {:induction false} FilterMap<T, U>(s: seq<T>, f: T -> U, p: T -> bool, q: U -> bool)
    requires forall i :: 0 <= i < |s| ==> q(f(s[i])) == p(s[i])
    ensures Filter(Map(s, f), q) == Map(Filter(s, p), f)
    decreases |s|
  {
    if |s| > 0 {
      FilterMap(s[1..], f, p, q);
      assert Map(s, f)[0] == f(s[0]);
      assert Map(s, f)[1..] == Map(s[1..], f);
      if p(s[0]) {
        assert Filter(s, p)[0] == s[0];
        assert Filter(s, p)[1..] == Filter(s[1..], p);
      }
    }
  }

  /** Summing `g` over mapped elements is summing `h` over the originals
      when `h` is `g` after `f`. */
  lemma {:induction false} SumOfMap<T, U>(s: seq<T>, f: T -> U, g: U -> int, h: T -> int)
    requires forall i :: 0 <= i < |s| ==> h(s[i]) == g(f(s[i]))
    ensures SumOf(Map(s, f), g) == SumOf(s, h)
    decreases |s|
  {
    if |s| > 0 {
      SumOfMap(s[1..], f, g, h);
      assert Map(s, f)[1..] == Map(s[1..], f);
    }
  }

  lemma {:induction false} SumOfAppend<T>(a: seq<T>, b: seq<T>, g: T -> int)
    ensures SumOf(a + b, g) == SumOf(a, g) + SumOf(b, g)
    decreases |a|
  {
    if |a| == 0 {
      assert a + b == b;
    } else {
      assert (a + b)[0] == a[0];
      assert (a + b)[1..] == a[1..] + b;
      SumOfAppend(a[1..], b, g);
    }
  }

  // ---------------------------------------------------------------------------
  // Ordering

  ghost predicate Transitive<T(!new)>(le: (T, T) -> bool) {
    forall a, b, c :: le(a, b) && le(b, c) ==> le(a, c)
  }

  ghost predicate Total<T(!new)>(le: (T, T) -> bool) {
    forall a, b :: le(a, b) || le(b, a)
  }

  /** `le` orders every pair and is transitive: a valid `ORDER BY` key. */
  ghost predicate TotalPreorder<T(!new)>(le: (T, T) -> bool) {
    Total(le) && Transitive(le)
  }

  /** Every earlier element is `le` every later one. */
  predicate Sorted<T>(s: seq<T>, le: (T, T) -> bool) {
    forall i, j :: 0 <= i < j < |s| ==> le(s[i], s[j])
  }

  /** Inserts `x` before the first element it is `le` to: elements that tie
      with `x` and were already present stay behind it. */
  function Insert<T>(x: T, s: seq<T>, le: (T, T) -> bool): (r: seq<T>)
    ensures |r| == |s| + 1
    ensures multiset(r) == multiset(s) + multiset{x}
  {
    if |s| == 0 then [x]
    else if le(x, s[0]) then [x] + s
    else
      assert s == [s[0]] + s[1..];
      [s[0]] + Insert(x, s[1..], le)
  }

  /** Insertion sort: stable, ties keep their order in `s`. */
  function Sort<T>(s: seq<T>, le: (T, T) -> bool): (r: seq<T>)
    ensures |r| == |s|
    ensures multiset(r) == multiset(s)
  {
    if |s| == 0 then []
    else
      assert s == [s[0]] + s[1..];
      Insert(s[0], Sort(s[1..], le), le)
  }

  lemma {:induction false} InsertSorted<T(!new)>(x: T, s: seq<T>, le: (T, T) -> bool)
    requires TotalPreorder(le)
    requires Sorted(s, le)
    ensures Sorted(Insert(x, s, le), le)
    decreases |s|
  {
    if |s| > 0 && !le(x, s[0]) {
      InsertSorted(x, s[1..], le);
      var t := Insert(x, s[1..], le);
      forall k | 0 <= k < |t|
        ensures le(s[0], t[k])
      {
        assert t[k] in multiset(t);
        if t[k] != x {
          assert t[k] in multiset(s[1..]);
          var j :| 0 <= j < |s[1..]| && s[1..][j] == t[k];
          assert s[j + 1] == t[k];
        }
      }
    }
  }

  /** The sort's output is ordered by `le`. */
  lemma {:induction false} SortSorted<T(!new)>(s: seq<T>, le: (T, T) -> bool)
    requires TotalPreorder(le)
    ensures Sorted(Sort(s, le), le)
    decreases |s|
  {
    if |s| > 0 {
      SortSorted(s[1..], le);
      InsertSorted(s[0], Sort(s[1..], le), le);
    }
  }

  /** In a sorted sequence whose head `x` is `le` to, `x` is `le` to every element. */
  lemma LeAllOfSorted<T(!new)>(x: T, t: seq<T>, le: (T, T) -> bool)
    requires Transitive(le)
    requires Sorted(t, le)
    requires |t| > 0 && le(x, t[0])
    ensures forall j :: 0 <= j < |t| ==> le(x, t[j])
  {
    forall j | 0 < j < |t|
      ensures le(x, t[j])
    {
      assert le(t[0], t[j]);
    }
  }

  /** Inserting `x` in front of a sequence whose first element it is `le` to. */
  lemma InsertInFront<T(!new)>(x: T, u: seq<T>, le: (T, T) -> bool)
    requires |u| == 0 || le(x, u[0])
    ensures Insert(x, u, le) == [x] + u
  {
  }

  /** Filtering after an insertion is inserting into the filtered sequence. */
  lemma {:induction false} FilterInsert<T(!new)>(x: T, t: seq<T>, le: (T, T) -> bool, p: T -> bool)
    requires Transitive(le)
    requires Sorted(t, le)
    ensures Filter(Insert(x, t, le), p) == if p(x) then Insert(x, Filter(t, p), le) else Filter(t, p)
    decreases |t|, 1
  {
    if |t| == 0 {
    } else if le(x, t[0]) {
      FilterInsertFront(x, t, le, p);
    } else {
      FilterInsertBehind(x, t, le, p);
    }
  }

  lemma FilterInsertFront<T(!new)>(x: T, t: seq<T>, le: (T, T) -> bool, p: T -> bool)
    requires Transitive(le)
    requires Sorted(t, le)
    requires |t| > 0 && le(x, t[0])
    ensures Filter(Insert(x, t, le), p) == if p(x) then Insert(x, Filter(t, p), le) else Filter(t, p)
  {
    assert Insert(x, t, le) == [x] + t;
    FilterCons(x, t, p);
    var ft := Filter(t, p);
    if !p(x) {
      assert Filter([x] + t, p) == ft;
    } else {
      assert Filter([x] + t, p) == [x] + ft;
      if |ft| > 0 {
        LeAllOfSorted(x, t, le);
        FilterMembers(t, p);
        assert ft[0] in t;
      }
      InsertInFront(x, ft, le);
    }
  }

  lemma FilterInsertBehind<T(!new)>(x: T, t: seq<T>, le: (T, T) -> bool, p: T -> bool)
    requires Transitive(le)
    requires Sorted(t, le)
    requires |t| > 0 && !le(x, t[0])
    ensures Filter(Insert(x, t, le), p) == if p(x) then Insert(x, Filter(t, p), le) else Filter(t, p)
    decreases |t|, 0
  {
    var t' := t[1..];
    assert Sorted(t', le);
    FilterInsert(x, t', le, p);
    assert Insert(x, t, le) == [t[0]] + Insert(x, t', le);
    FilterCons(t[0], Insert(x, t', le), p);
    if !p(t[0]) {
      assert Filter(t, p) == Filter(t', p);
      assert Filter(Insert(x, t, le), p) == Filter(Insert(x, t', le), p);
    } else {
      var u := [t[0]] + Filter(t', p);
      assert Filter(t, p) == u;
      assert u[0] == t[0] && u[1..] == Filter(t', p);
    }
  }

  /** Filtering a sorted sequence gives the sorted filtered sequence: with a
      stable sort the two orders of `WHERE` and `ORDER BY` agree exactly. */
  lemma {:induction false} FilterSort<T(!new)>(s: seq<T>, le: (T, T) -> bool, p: T -> bool)
    requires TotalPreorder(le)
    ensures Filter(Sort(s, le), p) == Sort(Filter(s, p), le)
    decreases |s|
  {
    if |s| > 0 {
      SortSorted(s[1..], le);
      assert Transitive(le);
      FilterInsert(s[0], Sort(s[1..], le), le, p);
      FilterSort(s[1..], le, p);
      assert Sort(s, le) == Insert(s[0], Sort(s[1..], le), le);
      if p(s[0]) {
        var v := [s[0]] + Filter(s[1..], p);
        assert Filter(s, p) == v;
        assert v[0] == s[0] && v[1..] == Filter(s[1..], p);
      } else {
        assert Filter(s, p) == Filter(s[1..], p);
      }
    }
  }

  /** Sorting does not change a sum. */
  lemma {:induction false} SumOfSort<T>(s: seq<T>, le: (T, T) -> bool, g: T -> int)
    ensures SumOf(Sort(s, le), g) == SumOf(s, g)
    decreases |s|
  {
    if |s| > 0 {
      SumOfSort(s[1..], le, g);
      SumOfInsert(s[0], Sort(s[1..], le), le, g);
    }
  }

  lemma {:induction false} SumOfInsert<T>(x: T, s: seq<T>, le: (T, T) -> bool, g: T -> int)
    ensures SumOf(Insert(x, s, le), g) == g(x) + SumOf(s, g)
    decreases |s|
  {
    if |s| > 0 {
      if le(x, s[0]) {
        var r := [x] + s;
        assert r[0] == x && r[1..] == s;
      } else {
        SumOfInsert(x, s[1..], le, g);
        var r := [s[0]] + Insert(x, s[1..], le);
        assert r[0] == s[0] && r[1..] == Insert(x, s[1..], le);
      }
    }
  }

  /** An element appended last that is strictly greater, under `le`, than
      everything before it comes out of the sort first. */
  lemma {:induction false} SortAppendGreatest<T>(s: seq<T>, x: T, le: (T, T) -> bool)
    requires forall i :: 0 <= i < |s| ==> !le(s[i], x)
    ensures Sort(s + [x], le) == [x] + Sort(s, le)
    decreases |s|
  {
    if |s| == 0 {
      assert s + [x] == [x];
    } else {
      var t := s + [x];
      assert t[0] == s[0] && t[1..] == s[1..] + [x];
      SortAppendGreatest(s[1..], x, le);
      var u := [x] + Sort(s[1..], le);
      assert u[0] == x && u[1..] == Sort(s[1..], le);
    }
  }
}
