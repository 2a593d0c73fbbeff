/** Small generic pieces shared by every layer: an option type, the
    order-preserving filter that JavaScript's `Array.prototype.filter` is,
    subsequences, and JavaScript's `Array.prototype.slice`. */
module Common {

  datatype Option<T> = None | Some(value: T)

  function Min(a: int, b: int): int { if a <= b then a else b }

  function Max(a: int, b: int): int { if a >= b then a else b }

  /** `a` can be obtained from `b` by deleting elements, keeping the order. */
  ghost predicate IsSubsequence<T>(a: seq<T>, b: seq<T>)
    decreases |b|
  {
    a == [] || (b != [] && ((a[0] == b[0] && IsSubsequence(a[1..], b[1..])) || IsSubsequence(a, b[1..])))
  }

  /** `xs.filter(p)`: the elements that satisfy `p`, in their original order,
      each as often as it occurs. */
  function Filter<T(!new)>(s: seq<T>, p: T -> bool): (r: seq<T>)
    ensures |r| <= |s|
    ensures forall x {:trigger x in r} :: x in r <==> x in s && p(x)
    ensures IsSubsequence(r, s)
  {
    if s == [] then []
    else
      var rest := Filter(s[1..], p);
      assert s == [s[0]] + s[1..];
      if p(s[0]) then [s[0]] + rest else rest
  }

  /** Each element that passes is kept as often as it occurs. */
  lemma {:induction false} FilterMultiplicity<T(!new)>(s: seq<T>, p: T -> bool, x: T)
    ensures multiset(Filter(s, p))[x] == if p(x) then multiset(s)[x] else 0
  {
    if s != [] {
      assert s == [s[0]] + s[1..];
      FilterMultiplicity(s[1..], p, x);
    }
  }

  lemma {:induction false} FilterConcat<T(!new)>(a: seq<T>, b: seq<T>, p: T -> bool)
    ensures Filter(a + b, p) == Filter(a, p) + Filter(b, p)
  {
    if a == [] {
      assert a + b == b;
    } else {
      assert (a + b)[1..] == a[1..] + b;
      FilterConcat(a[1..], b, p);
    }
  }

  lemma {:induction false} FilterKeepsAll<T(!new)>(s: seq<T>, p: T -> bool)
    requires forall i :: 0 <= i < |s| ==> p(s[i])
    ensures Filter(s, p) == s
  {
    if s != [] {
      FilterKeepsAll(s[1..], p);
    }
  }

  lemma {:induction false} FilterKeepsNone<T(!new)>(s: seq<T>, p: T -> bool)
    requires forall i :: 0 <= i < |s| ==> !p(s[i])
    ensures Filter(s, p) == []
  {
    if s != [] {
      FilterKeepsNone(s[1..], p);
    }
  }

  /** A filter that keeps exactly the first `k` elements yields that prefix. */
  lemma {:induction false} FilterKeepsPrefix<T(!new)>(s: seq<T>, p: T -> bool, k: nat)
    requires k <= |s|
    requires forall i :: 0 <= i < |s| ==> (p(s[i]) <==> i < k)
    ensures Filter(s, p) == s[..k]
  {
    if k == 0 {
      FilterKeepsNone(s, p);
    } else {
      var rest := s[1..];
      assert forall i :: 0 <= i < |rest| ==> (p(rest[i]) <==> i < k - 1) by {
        forall i | 0 <= i < |rest| ensures p(rest[i]) <==> i < k - 1 { assert rest[i] == s[i + 1]; }
      }
      FilterKeepsPrefix(rest, p, k - 1);
      assert s[..k] == [s[0]] + rest[..k - 1];
    }
  }

  /** Two filters that decide the same way, position by position, keep the
      same number of elements. */
  lemma {:induction false} FilterLengthsAgree<T(!new), U(!new)>(a: seq<T>, p: T -> bool, b: seq<U>, q: U -> bool)
    requires |a| == |b|
    requires forall i :: 0 <= i < |a| ==> p(a[i]) == q(b[i])
    ensures |Filter(a, p)| == |Filter(b, q)|
  {
    if a != [] {
      FilterLengthsAgree(a[1..], p, b[1..], q);
    }
  }

  /** `p` and its negation split a sequence: their filters' lengths add up. */
  lemma {:induction false} FilterSplit<T(!new)>(s: seq<T>, p: T -> bool, q: T -> bool)
    requires forall i :: 0 <= i < |s| ==> q(s[i]) == !p(s[i])
    ensures |Filter(s, p)| + |Filter(s, q)| == |s|
  {
    if s != [] {
      FilterSplit(s[1..], p, q);
    }
  }

  /** Filtering twice is filtering by the conjunction. */
  lemma {:induction false} FilterFilter<T(!new)>(s: seq<T>, p: T -> bool, q: T -> bool, pq: T -> bool)
    requires forall i :: 0 <= i < |s| ==> pq(s[i]) == (p(s[i]) && q(s[i]))
    ensures Filter(Filter(s, p), q) == Filter(s, pq)
  {
    if s != [] {
      FilterFilter(s[1..], p, q, pq);
    }
  }

  /** The positions below `n` whose element passes `p`. */
  function Passing<T>(s: seq<T>, p: T -> bool, n: nat): set<nat>
    requires n <= |s|
  {
    set i: nat | i < n && p(s[i])
  }

  /** The length of a filter of a prefix is the number of positions in
      that prefix whose element passes. */
  lemma {:induction false} FilterCountsPositions<T(!new)>(s: seq<T>, p: T -> bool, n: nat)
    requires n <= |s|
    ensures |Filter(s[..n], p)| == |Passing(s, p, n)|
  {
    if n > 0 {
      FilterCountsPositions(s, p, n - 1);
      assert s[..n] == s[..n - 1] + [s[n - 1]];
      FilterConcat(s[..n - 1], [s[n - 1]], p);
      assert [s[n - 1]][1..] == [];
      var before := Passing(s, p, n - 1);
      var after := Passing(s, p, n);
      if p(s[n - 1]) {
        assert after == before + {n - 1};
      } else {
        assert after == before;
      }
    }
  }

  /** JavaScript's `xs.slice(start, end)` for a non-negative `start`: a
      negative `end` counts from the back, and both ends are clamped. */
  function Slice<T>(s: seq<T>, start: nat, end: int): seq<T>
  {
    var e := if end < 0 then Max(0, |s| + end) else Min(end, |s|);
    if start < e then s[start..e] else []
  }

  lemma SlicePrefixLength<T>(s: seq<T>, n: nat)
    ensures |Slice(s, 0, n)| == Min(n, |s|)
    ensures Slice(s, 0, n) == s[..Min(n, |s|)]
  {
  }
}
