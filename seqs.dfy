/** Order-preserving filtering and a stable comparison sort over sequences:
    the list operations the query results and the menus are built from. */
module Seqs {

  /** The elements of `s` that satisfy `p`, in their original order. */
  function Filter<T(!new)>(s: seq<T>, p: T -> bool): (r: seq<T>)
    ensures |r| <= |s|
    ensures forall x :: x in r <==> x in s && p(x)
  {
    if s == [] then []
    else
      var init := Filter(s[..|s| - 1], p);
      assert s == s[..|s| - 1] + [s[|s| - 1]];
      if p(s[|s| - 1]) then init + [s[|s| - 1]] else init
  }

  /** Filtering one more element extends the result by that element
      exactly when it passes. */
  lemma FilterSnoc<T(!new)>(s: seq<T>, x: T, p: T -> bool)
    ensures Filter(s + [x], p) == Filter(s, p) + (if p(x) then [x] else [])
  {
  }

  /** Filtering by a predicate and by its negation splits `s` in two:
      every element lands in exactly one of the results. */
  lemma {:induction false} FilterSplit<T(!new)>(s: seq<T>, p: T -> bool, q: T -> bool)
    requires forall x :: q(x) == !p(x)
    ensures multiset(Filter(s, p)) + multiset(Filter(s, q)) == multiset(s)
    ensures |Filter(s, p)| + |Filter(s, q)| == |s|
  {
    if s != [] {
      var init, last := s[..|s| - 1], s[|s| - 1];
      FilterSplit(init, p, q);
      assert s == init + [last];
      FilterSnoc(init, last, p);
      FilterSnoc(init, last, q);
    }
  }

  /** Filtering with two predicates that agree on `s` gives the same result. */
  lemma {:induction false} FilterCongruent<T(!new)>(s: seq<T>, p: T -> bool, q: T -> bool)
    requires forall x :: x in s ==> p(x) == q(x)
    ensures Filter(s, p) == Filter(s, q)
  {
    if s != [] {
      var init := s[..|s| - 1];
      FilterCongruent(init, p, q);
      assert s == init + [s[|s| - 1]];
      FilterSnoc(init, s[|s| - 1], p);
      FilterSnoc(init, s[|s| - 1], q);
    }
  }

  /** Filtering twice is filtering once with the conjunction. */
  lemma {:induction false} FilterFilter<T(!new)>(s: seq<T>, p: T -> bool, q: T -> bool, pq: T -> bool)
    requires forall x :: pq(x) == (p(x) && q(x))
    ensures Filter(Filter(s, p), q) == Filter(s, pq)
  {
    if s != [] {
      var init, last := s[..|s| - 1], s[|s| - 1];
      FilterFilter(init, p, q, pq);
      assert s == init + [last];
      FilterSnoc(init, last, p);
      FilterSnoc(init, last, pq);
      if p(last) {
        FilterSnoc(Filter(init, p), last, q);
      }
    }
  }

  /** A total preorder: what a consistent JavaScript sort comparator induces
      through `compare(a, b) <= 0`. */
  ghost predicate TotalPreorder<T(!new)>(leq: (T, T) -> bool) {
    && (forall a, b :: leq(a, b) || leq(b, a))
    && (forall a, b, c :: leq(a, b) && leq(b, c) ==> leq(a, c))
  }

  predicate SortedBy<T>(s: seq<T>, leq: (T, T) -> bool) {
    forall i, j :: 0 <= i < j < |s| ==> leq(s[i], s[j])
  }

  /** Inserts `x` before the first element it is not after. */
  function Insert<T>(x: T, s: seq<T>, leq: (T, T) -> bool): (r: seq<T>)
    ensures multiset(r) == multiset(s) + multiset{x}
    ensures |r| == |s| + 1
  {
    if s == [] || leq(x, s[0]) then [x] + s
    else
      assert s == [s[0]] + s[1..];
      [s[0]] + Insert(x, s[1..], leq)
  }

  /** Insertion sort; an earlier element is placed before later equal ones,
      so the sort is stable like Array.prototype.sort. */
  function SortBy<T>(s: seq<T>, leq: (T, T) -> bool): (r: seq<T>)
    ensures multiset(r) == multiset(s)
    ensures |r| == |s|
  {
    if s == [] then []
    else
      assert s == [s[0]] + s[1..];
      Insert(s[0], SortBy(s[1..], leq), leq)
  }

  lemma {:induction false} InsertSorted<T(!new)>(x: T, s: seq<T>, leq: (T, T) -> bool)
    requires TotalPreorder(leq)
    requires SortedBy(s, leq)
    ensures SortedBy(Insert(x, s, leq), leq)
  {
    if s == [] || leq(x, s[0]) {
    } else {
      var tail := s[1..];
      assert SortedBy(tail, leq);
      InsertSorted(x, tail, leq);
      var rest := Insert(x, tail, leq);
      assert leq(s[0], x);
      forall k | 0 <= k < |rest|
        ensures leq(s[0], rest[k])
      {
        assert rest[k] in multiset(rest);
        if rest[k] != x {
          assert rest[k] in multiset(tail);
          var j :| 0 <= j < |tail| && tail[j] == rest[k];
          assert s[j + 1] == tail[j];
        }
      }
      var r := [s[0]] + rest;
      assert forall j :: 0 < j < |r| ==> r[j] == rest[j - 1];
    }
  }

  /** SortBy orders its input by any total preorder. */
  lemma {:induction false} SortBySorted<T(!new)>(s: seq<T>, leq: (T, T) -> bool)
    requires TotalPreorder(leq)
    ensures SortedBy(SortBy(s, leq), leq)
  {
    if s != [] {
      SortBySorted(s[1..], leq);
      InsertSorted(s[0], SortBy(s[1..], leq), leq);
    }
  }

  /** Filtering a sequence with one more element in front. */
  lemma {:induction false} FilterCons<T(!new)>(x: T, s: seq<T>, p: T -> bool)
    ensures Filter([x] + s, p) == (if p(x) then [x] else []) + Filter(s, p)
  {
    if s != [] {
      var init, last := s[..|s| - 1], s[|s| - 1];
      FilterCons(x, init, p);
      assert [x] + s == ([x] + init) + [last];
      FilterSnoc([x] + init, last, p);
      FilterSnoc(init, last, p);
    } else {
      FilterSnoc([], x, p);
    }
  }

  /** Inserting an element `p` rejects leaves the `p`-elements as they were. */
  lemma {:induction false} InsertFilterSkip<T(!new)>(x: T, s: seq<T>, leq: (T, T) -> bool, p: T -> bool)
    requires !p(x)
    ensures Filter(Insert(x, s, leq), p) == Filter(s, p)
  {
    if s == [] || leq(x, s[0]) {
      FilterCons(x, s, p);
    } else {
      InsertFilterSkip(x, s[1..], leq, p);
      FilterCons(s[0], Insert(x, s[1..], leq), p);
      FilterCons(s[0], s[1..], p);
      assert s == [s[0]] + s[1..];
    }
  }

  /** Inserting a `p`-element that no other `p`-element precedes puts it
      before all of them. */
  lemma {:induction false} InsertFilterFront<T(!new)>(x: T, s: seq<T>, leq: (T, T) -> bool, p: T -> bool)
    requires p(x)
    requires forall i :: 0 <= i < |s| && p(s[i]) ==> leq(x, s[i])
    ensures Filter(Insert(x, s, leq), p) == [x] + Filter(s, p)
  {
    if s == [] || leq(x, s[0]) {
      FilterCons(x, s, p);
    } else {
      var head, tail := s[0], s[1..];
      assert s == [head] + tail;
      assert !p(head);
      var rest := Insert(x, tail, leq);
      assert forall i :: 0 <= i < |tail| ==> tail[i] == s[i + 1];
      InsertFilterFront(x, tail, leq, p);
      FilterCons(head, rest, p);
      FilterCons(head, tail, p);
    }
  }

  /** The elements that compare equal to `z` under `leq`. */
  function EquivalentTo<T>(leq: (T, T) -> bool, z: T): T -> bool {
    y => leq(y, z) && leq(z, y)
  }

  /** SortBy is stable: elements that compare equal keep their relative
      order. */
  lemma {:induction false} SortByStable<T(!new)>(s: seq<T>, leq: (T, T) -> bool, z: T)
    requires TotalPreorder(leq)
    ensures Filter(SortBy(s, leq), EquivalentTo(leq, z)) == Filter(s, EquivalentTo(leq, z))
  {
    if s != [] {
      var p := EquivalentTo(leq, z);
      SortByStable(s[1..], leq, z);
      if p(s[0]) {
        var sorted := SortBy(s[1..], leq);
        forall i | 0 <= i < |sorted| && p(sorted[i])
          ensures leq(s[0], sorted[i])
        {
        }
        InsertFilterFront(s[0], SortBy(s[1..], leq), leq, p);
      } else {
        InsertFilterSkip(s[0], SortBy(s[1..], leq), leq, p);
      }
      FilterCons(s[0], s[1..], p);
      assert s == [s[0]] + s[1..];
    }
  }

  /** The concatenation of a list of sequences, in order. */
  function Concat<T>(ss: seq<seq<T>>): seq<T> {
    if ss == [] then [] else ss[0] + Concat(ss[1..])
  }
  /** Concatenation distributes over appending lists. */
  lemma {:induction false} ConcatAppend<T>(a: seq<seq<T>>, b: seq<seq<T>>)
    ensures Concat(a + b) == Concat(a) + Concat(b)
  {
    if a == [] {
      assert a + b == b;
    } else {
      var ab := a + b;
      assert ab[0] == a[0];
      assert ab[1..] == a[1..] + b;
      ConcatAppend(a[1..], b);
      calc {
        Concat(ab);
        ab[0] + Concat(ab[1..]);
        a[0] + (Concat(a[1..]) + Concat(b));
        (a[0] + Concat(a[1..])) + Concat(b);
      }
    }
  }

  /** Three pieces appended one by one. */
  lemma ConcatOfThree<T>(h: seq<T>, a: seq<T>, b: seq<T>, c: seq<T>)
    ensures h + a + b + c == h + Concat([a, b, c])
  {
    assert [a, b, c][1..] == [b, c];
    assert [b, c][1..] == [c];
    assert [c][1..] == [];
    assert Concat([c]) == c + Concat([]) == c;
    assert Concat([b, c]) == b + Concat([c]);
    assert Concat([a, b, c]) == a + Concat([b, c]);
    calc {
      h + Concat([a, b, c]);
      h + (a + (b + c));
      h + a + b + c;
    }
  }

  /** Five pieces appended one by one. */
  lemma ConcatOfFive<T>(h: seq<T>, a: seq<T>, b: seq<T>, c: seq<T>, d: seq<T>, e: seq<T>)
    ensures h + a + b + c + d + e == h + Concat([a, b, c, d, e])
  {
    assert [a, b, c, d, e][1..] == [b, c, d, e];
    ConcatOfThree(h + a + b, c, d, e);
    assert [b, c, d, e][1..] == [c, d, e];
    assert Concat([b, c, d, e]) == b + Concat([c, d, e]);
    assert Concat([a, b, c, d, e]) == a + Concat([b, c, d, e]);
    calc {
      h + Concat([a, b, c, d, e]);
      h + (a + (b + Concat([c, d, e])));
      h + a + b + Concat([c, d, e]);
    }
  }
}
