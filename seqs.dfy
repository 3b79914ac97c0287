/** Order-preserving filtering and counting over sequences. */
module Seqs {

  /** Keeps the elements of `s` that satisfy `p`, in their original order
      (Array.prototype.filter). */
  function Filter<T(!new)>(s: seq<T>, p: T -> bool): (r: seq<T>)
    ensures |r| <= |s|
    ensures forall x :: x in r <==> x in s && p(x)
    ensures forall x :: multiset(r)[x] == if p(x) then multiset(s)[x] else 0
  {
    if s == [] then []
    else
      assert s == [s[0]] + s[1..];
      if p(s[0]) then [s[0]] + Filter(s[1..], p)
      else Filter(s[1..], p)
  }

  /** `a` is obtained from `b` by deleting elements, keeping the order of the rest. */
  predicate IsSubsequence<T(==)>(a: seq<T>, b: seq<T>)
    decreases |b|
  {
    if a == [] then true
    else if b == [] then false
    else if a[0] == b[0] then IsSubsequence(a[1..], b[1..])
    else IsSubsequence(a, b[1..])
  }

  lemma {:induction false} FilterIsSubsequence<T(!new)>(s: seq<T>, p: T -> bool)
    ensures IsSubsequence(Filter(s, p), s)
  {
    if s != [] {
      FilterIsSubsequence(s[1..], p);
      if !p(s[0]) {
        SubsequenceDropHead(Filter(s[1..], p), s);
      }
    }
  }

  /** Dropping the head of the longer sequence can be undone. */
  lemma {:induction false} SubsequenceDropHead<T>(a: seq<T>, b: seq<T>)
    requires b != [] && IsSubsequence(a, b[1..])
    ensures IsSubsequence(a, b)
    decreases |b|, 0
  {
    if a != [] && a[0] == b[0] {
      assert IsSubsequence(a[1..], b[1..]) by { SubsequenceTail(a, b[1..]); }
    }
  }

  lemma {:induction false} SubsequenceTail<T>(a: seq<T>, b: seq<T>)
    requires a != [] && IsSubsequence(a, b)
    ensures IsSubsequence(a[1..], b)
    decreases |b|, 1
  {
    if b != [] {
      if a[0] == b[0] {
        if a[1..] != [] {
          SubsequenceDropHead(a[1..], b);
        }
      } else {
        SubsequenceTail(a, b[1..]);
        if a[1..] != [] {
          SubsequenceDropHead(a[1..], b);
        }
      }
    }
  }

  /** Filtering with a predicate that holds everywhere keeps the sequence. */
  lemma {:induction false} FilterAll<T(!new)>(s: seq<T>, p: T -> bool)
    requires forall x :: x in s ==> p(x)
    ensures Filter(s, p) == s
  {
    if s != [] {
      FilterAll(s[1..], p);
    }
  }

  /** Filtering two predicates one after the other is filtering their conjunction. */
  lemma {:induction false} FilterFilter<T(!new)>(s: seq<T>, p: T -> bool, q: T -> bool, pq: T -> bool)
    requires forall x :: pq(x) == (p(x) && q(x))
    ensures Filter(Filter(s, p), q) == Filter(s, pq)
  {
    if s != [] {
      FilterFilter(s[1..], p, q, pq);
    }
  }

  /** Three pairwise exclusive predicates that each imply `u` select, together,
      no more elements than `u`, and exactly as many when they cover `u`. */
  lemma {:induction false} FilterCounts<T(!new)>(s: seq<T>, p: T -> bool, q: T -> bool, r: T -> bool, u: T -> bool)
    requires forall x :: (p(x) ==> u(x)) && (q(x) ==> u(x)) && (r(x) ==> u(x))
    requires forall x :: !(p(x) && q(x)) && !(p(x) && r(x)) && !(q(x) && r(x))
    ensures |Filter(s, p)| + |Filter(s, q)| + |Filter(s, r)| <= |Filter(s, u)|
    ensures (forall x :: x in s && u(x) ==> p(x) || q(x) || r(x)) ==>
      |Filter(s, p)| + |Filter(s, q)| + |Filter(s, r)| == |Filter(s, u)|
  {
    if s != [] {
      assert forall x :: x in s[1..] ==> x in s;
      FilterCounts(s[1..], p, q, r, u);
    }
  }

  // ---------------------------------------------------------------------------
  // Sorting (Array.prototype.sort with a comparator, which is stable)

  /** A comparator is consistent when "compares at most 0" is a total preorder;
      Array.prototype.sort defines its result only for such comparators. */
  ghost predicate Consistent<T(!new)>(cmp: (T, T) -> int) {
    (forall a, b :: cmp(a, b) <= 0 || cmp(b, a) <= 0)
    && (forall a, b, c :: cmp(a, b) <= 0 && cmp(b, c) <= 0 ==> cmp(a, c) <= 0)
  }

  ghost predicate SortedBy<T>(s: seq<T>, cmp: (T, T) -> int) {
    forall i, j :: 0 <= i < j < |s| ==> cmp(s[i], s[j]) <= 0
  }

  /** Places `x` after every element of the sorted `s` that does not compare
      above it, so equal elements keep their original order. */
  function Insert<T>(s: seq<T>, x: T, cmp: (T, T) -> int): (r: seq<T>)
    ensures multiset(r) == multiset(s) + multiset{x}
  {
    if s == [] then [x]
    else if cmp(s[|s| - 1], x) <= 0 then s + [x]
    else
      assert s == s[..|s| - 1] + [s[|s| - 1]];
      Insert(s[..|s| - 1], x, cmp) + [s[|s| - 1]]
  }

  /** A stable insertion sort. */
  function Sort<T>(s: seq<T>, cmp: (T, T) -> int): (r: seq<T>)
    ensures multiset(r) == multiset(s)
  {
    if s == [] then []
    else
      assert s == s[..|s| - 1] + [s[|s| - 1]];
      Insert(Sort(s[..|s| - 1], cmp), s[|s| - 1], cmp)
  }

  lemma {:induction false} InsertSorted<T(!new)>(s: seq<T>, x: T, cmp: (T, T) -> int)
    requires Consistent(cmp) && SortedBy(s, cmp)
    ensures SortedBy(Insert(s, x, cmp), cmp)
  {
    if s == [] {
    } else if cmp(s[|s| - 1], x) <= 0 {
      AppendSorted(s, x, cmp);
    } else {
      var init := s[..|s| - 1];
      assert SortedBy(init, cmp) by {
        forall i, j | 0 <= i < j < |init| ensures cmp(init[i], init[j]) <= 0 {
          assert init[i] == s[i] && init[j] == s[j];
        }
      }
      InsertSorted(init, x, cmp);
      InsertBelowLast(s, x, cmp);
    }
  }

  /** Appending an element no smaller than the last keeps a sequence sorted. */
  lemma AppendSorted<T(!new)>(s: seq<T>, x: T, cmp: (T, T) -> int)
    requires Consistent(cmp) && SortedBy(s, cmp)
    requires s != [] && cmp(s[|s| - 1], x) <= 0
    ensures SortedBy(s + [x], cmp)
  {
    var r := s + [x];
    forall i, j | 0 <= i < j < |r| ensures cmp(r[i], r[j]) <= 0 {
      if j == |s| && i < |s| - 1 {
        assert cmp(s[i], s[|s| - 1]) <= 0;
      }
    }
  }

  /** Inserting below the last element of a sorted sequence: the last element
      stays above everything else. */
  lemma InsertBelowLast<T(!new)>(s: seq<T>, x: T, cmp: (T, T) -> int)
    requires Consistent(cmp) && SortedBy(s, cmp)
    requires s != [] && cmp(s[|s| - 1], x) > 0
    requires SortedBy(Insert(s[..|s| - 1], x, cmp), cmp)
    ensures SortedBy(Insert(s[..|s| - 1], x, cmp) + [s[|s| - 1]], cmp)
  {
    var init, last := s[..|s| - 1], s[|s| - 1];
    var ri := Insert(init, x, cmp);
    assert cmp(x, last) <= 0;
    assert forall y :: y in ri ==> cmp(y, last) <= 0 by {
      forall y | y in ri ensures cmp(y, last) <= 0 {
        assert y in multiset(init) + multiset{x};
        if y != x {
          var k :| 0 <= k < |init| && init[k] == y;
          assert s[k] == y;
        }
      }
    }
    var r := ri + [last];
    forall i, j | 0 <= i < j < |r| ensures cmp(r[i], r[j]) <= 0 {
      if j < |ri| {
        assert r[i] == ri[i] && r[j] == ri[j];
      } else {
        assert r[i] == ri[i] && ri[i] in ri;
      }
    }
  }

  /** With a consistent comparator the result is sorted. */
  lemma {:induction false} SortSorted<T(!new)>(s: seq<T>, cmp: (T, T) -> int)
    requires Consistent(cmp)
    ensures SortedBy(Sort(s, cmp), cmp)
  {
    if s != [] {
      SortSorted(s[..|s| - 1], cmp);
      InsertSorted(Sort(s[..|s| - 1], cmp), s[|s| - 1], cmp);
    }
  }

  /** A comparator that never puts one element above another leaves the
      sequence as it was. */
  lemma {:induction false} SortAllEqual<T>(s: seq<T>, cmp: (T, T) -> int)
    requires forall a, b :: cmp(a, b) <= 0
    ensures Sort(s, cmp) == s
  {
    if s != [] {
      var init, last := s[..|s| - 1], s[|s| - 1];
      SortAllEqual(init, cmp);
      assert Sort(s, cmp) == Insert(init, last, cmp);
      InsertAtEnd(init, last, cmp);
      assert s == init + [last];
    }
  }

  lemma InsertAtEnd<T>(s: seq<T>, x: T, cmp: (T, T) -> int)
    requires forall a, b :: cmp(a, b) <= 0
    ensures Insert(s, x, cmp) == s + [x]
  {
    if s != [] {
      assert cmp(s[|s| - 1], x) <= 0;
    }
  }
}
