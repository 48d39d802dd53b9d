/**
 * `Array.prototype.filter` and the facts about it that every view and store
 * operation of the planner leans on: it keeps exactly the elements that pass,
 * in their original order.
 */
module Seqs {

  /** `s` is obtained from `t` by deleting elements: the relative order is kept. */
  predicate IsSubsequence<T(==)>(s: seq<T>, t: seq<T>)
    decreases |t|
  {
    if s == [] then true
    else if t == [] then false
    else if s[0] == t[0] then IsSubsequence(s[1..], t[1..])
    else IsSubsequence(s, t[1..])
  }

  /** `s.filter(p)`: every element kept passes `p` and comes from `s`, so the result is no longer. */
  function Filter<T>(s: seq<T>, p: T -> bool): (r: seq<T>)
    ensures |r| <= |s|
    ensures forall i :: 0 <= i < |r| ==> p(r[i]) && r[i] in s
  {
    if s == [] then []
    else (if p(s[0]) then [s[0]] else []) + Filter(s[1..], p)
  }

  /** An element is kept exactly when it is in `s` and passes `p`. */
  lemma {:induction false} FilterMembership<T>(s: seq<T>, p: T -> bool, x: T)
    ensures x in Filter(s, p) <==> x in s && p(x)
  {
    if s != [] {
      FilterMembership(s[1..], p, x);
      assert Filter(s, p) == (if p(s[0]) then [s[0]] else []) + Filter(s[1..], p);
    }
  }

  /** The kept elements appear in the same relative order as in `s`. */
  lemma {:induction false} FilterIsSubsequence<T>(s: seq<T>, p: T -> bool)
    ensures IsSubsequence(Filter(s, p), s)
  {
    if s != [] {
      FilterIsSubsequence(s[1..], p);
      if p(s[0]) {
        assert Filter(s, p)[1..] == Filter(s[1..], p);
      } else {
        assert Filter(s, p) == Filter(s[1..], p);
        SubsequenceOfTail(Filter(s, p), s);
      }
    }
  }

  lemma {:induction false} SubsequenceOfTail<T>(s: seq<T>, t: seq<T>)
    requires t != [] && IsSubsequence(s, t[1..])
    ensures IsSubsequence(s, t)
    decreases |t|, 0
  {
    if s != [] && s[0] == t[0] {
      SubsequenceDropHead(s, t[1..]);
    }
  }

  lemma {:induction false} SubsequenceDropHead<T>(s: seq<T>, u: seq<T>)
    requires s != [] && IsSubsequence(s, u)
    ensures IsSubsequence(s[1..], u)
    decreases |u|, 1
  {
    if s[0] != u[0] {
      SubsequenceDropHead(s, u[1..]);
    }
    SubsequenceOfTail(s[1..], u);
  }

  /** When every element passes, nothing is removed. */
  lemma {:induction false} FilterKeepsAll<T>(s: seq<T>, p: T -> bool)
    requires forall i :: 0 <= i < |s| ==> p(s[i])
    ensures Filter(s, p) == s
  {
    if s != [] {
      FilterKeepsAll(s[1..], p);
    }
  }

  /** When no element passes, the result is empty. */
  lemma {:induction false} FilterDropsAll<T>(s: seq<T>, p: T -> bool)
    requires forall i :: 0 <= i < |s| ==> !p(s[i])
    ensures Filter(s, p) == []
  {
    if s != [] {
      FilterDropsAll(s[1..], p);
    }
  }

  /** Filtering distributes over concatenation. */
  lemma {:induction false} FilterAppend<T>(a: seq<T>, b: seq<T>, p: T -> bool)
    ensures Filter(a + b, p) == Filter(a, p) + Filter(b, p)
  {
    if a != [] {
      assert (a + b)[0] == a[0];
      assert (a + b)[1..] == a[1..] + b;
      FilterAppend(a[1..], b, p);
    } else {
      assert a + b == b;
    }
  }

  /** Two filters applied one after the other commute. */
  lemma {:induction false} FilterCommute<T>(s: seq<T>, p: T -> bool, q: T -> bool)
    ensures Filter(Filter(s, p), q) == Filter(Filter(s, q), p)
  {
    if s != [] {
      FilterCommute(s[1..], p, q);
      var h := if p(s[0]) then [s[0]] else [];
      var k := if q(s[0]) then [s[0]] else [];
      FilterAppend(h, Filter(s[1..], p), q);
      FilterAppend(k, Filter(s[1..], q), p);
    }
  }

  /** An element that passes keeps every occurrence; one that fails keeps none. */
  lemma {:induction false} FilterMultiplicity<T>(s: seq<T>, p: T -> bool, x: T)
    ensures multiset(Filter(s, p))[x] == if p(x) then multiset(s)[x] else 0
  {
    if s != [] {
      FilterMultiplicity(s[1..], p, x);
      assert s == [s[0]] + s[1..];
      assert Filter(s, p) == (if p(s[0]) then [s[0]] else []) + Filter(s[1..], p);
    }
  }

  /** A test and its negation split `s` between their two filters: none is lost, none counted twice. */
  lemma {:induction false} FilterSplitLength<T>(s: seq<T>, p: T -> bool, q: T -> bool)
    requires forall x :: q(x) == !p(x)
    ensures |Filter(s, p)| + |Filter(s, q)| == |s|
  {
    if s != [] {
      FilterSplitLength(s[1..], p, q);
    }
  }
}
