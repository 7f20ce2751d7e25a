/** JavaScript's `Array.prototype.filter`, `.length` of a filtered array and
    `.reduce((sum, x) => sum + g(x), 0)`, with the facts the callers rely on:
    a filter keeps exactly the accepted elements, in their original order. */
module Seqs {

  /** `s.filter(f)`. */
  function Filter<T>(f: T -> bool, s: seq<T>): (r: seq<T>)
    ensures |r| <= |s|
    ensures forall i :: 0 <= i < |r| ==> f(r[i])
  {
    if s == [] then []
    else if f(s[0]) then [s[0]] + Filter(f, s[1..])
    else Filter(f, s[1..])
  }

  /** `s.filter(f).length`. */
  function Count<T>(f: T -> bool, s: seq<T>): (n: nat)
    ensures n <= |s|
  {
    |Filter(f, s)|
  }

  /** Two filters that never accept the same element keep at most `|s|` elements
      between them. */
  lemma {:induction false} CountDisjoint<T>(f: T -> bool, g: T -> bool, s: seq<T>)
    requires forall x :: !(f(x) && g(x))
    ensures Count(f, s) + Count(g, s) <= |s|
  {
    if s != [] {
      CountDisjoint(f, g, s[1..]);
    }
  }

  /** A filter that accepts every element keeps the whole sequence. */
  lemma {:induction false} FilterKeepsAll<T>(f: T -> bool, s: seq<T>)
    requires forall x :: x in s ==> f(x)
    ensures Filter(f, s) == s
  {
    if s != [] {
      assert forall x :: x in s[1..] ==> x in s;
      FilterKeepsAll(f, s[1..]);
    }
  }

  /** `s.reduce((sum, x) => sum + g(x), 0)`. */
  function Sum<T>(g: T -> int, s: seq<T>): (r: int)
    ensures (forall i :: 0 <= i < |s| ==> g(s[i]) >= 0) ==> r >= 0
    ensures (forall i :: 0 <= i < |s| ==> g(s[i]) == 0) ==> r == 0
  {
    if s == [] then 0 else g(s[0]) + Sum(g, s[1..])
  }

  /** `reduce` adds the elements from left to right: the sum of `s + [x]` is the
      sum of `s` plus `g(x)`. */
  lemma {:induction false} SumSnoc<T>(g: T -> int, s: seq<T>, x: T)
    ensures Sum(g, s + [x]) == Sum(g, s) + g(x)
  {
    SumAppend(g, s, [x]);
    assert [x][1..] == [];
  }

  /** `filter(f).length` of one element is 1 when `f` accepts it and 0 otherwise. */
  lemma CountSingle<T>(f: T -> bool, x: T)
    ensures Count(f, [x]) == if f(x) then 1 else 0
  {
    assert [x][1..] == [];
  }

  /** Counts add up over concatenation. */
  lemma CountAppend<T>(f: T -> bool, a: seq<T>, b: seq<T>)
    ensures Count(f, a + b) == Count(f, a) + Count(f, b)
  {
    FilterAppend(f, a, b);
  }

  /** Every accepted element of `s` is kept by the filter. */
  lemma FilterKeepsAccepted<T>(f: T -> bool, s: seq<T>)
    ensures forall x :: x in s && f(x) ==> x in Filter(f, s)
  {
    forall x | x in s && f(x) ensures x in Filter(f, s) {
      FilterMembership(f, s, x);
    }
  }

  /** `r` can be obtained from `s` by deleting elements, without reordering. */
  predicate IsSubsequence<T(==)>(r: seq<T>, s: seq<T>)
    decreases |s|
  {
    if r == [] then true
    else if s == [] then false
    else (r[0] == s[0] && IsSubsequence(r[1..], s[1..])) || IsSubsequence(r, s[1..])
  }

  /** A filter keeps an element if and only if it was there and is accepted. */
  lemma {:induction false} FilterMembership<T>(f: T -> bool, s: seq<T>, x: T)
    ensures x in Filter(f, s) <==> x in s && f(x)
  {
    if s != [] {
      FilterMembership(f, s[1..], x);
      assert x in s <==> x == s[0] || x in s[1..];
    }
  }

  /** A filter keeps the relative order of what it keeps. */
  lemma {:induction false} FilterIsSubsequence<T>(f: T -> bool, s: seq<T>)
    ensures IsSubsequence(Filter(f, s), s)
  {
    if s != [] {
      FilterIsSubsequence(f, s[1..]);
      var rest := Filter(f, s[1..]);
      if f(s[0]) {
        assert Filter(f, s) == [s[0]] + rest;
        assert ([s[0]] + rest)[1..] == rest;
      } else {
        assert Filter(f, s) == rest;
      }
    }
  }

  /** Filtering distributes over concatenation. */
  lemma {:induction false} FilterAppend<T>(f: T -> bool, a: seq<T>, b: seq<T>)
    ensures Filter(f, a + b) == Filter(f, a) + Filter(f, b)
  {
    if a != [] {
      FilterAppend(f, a[1..], b);
      assert (a + b)[1..] == a[1..] + b;
    } else {
      assert a + b == b;
    }
  }

  /** Two filters in a row keep what both accept: the same as one filter `h` that
      accepts exactly what `f` and `g` both accept. */
  lemma {:induction false} FilterTwice<T>(f: T -> bool, g: T -> bool, h: T -> bool, s: seq<T>)
    requires forall x :: h(x) == (f(x) && g(x))
    ensures Filter(g, Filter(f, s)) == Filter(h, s)
  {
    if s != [] {
      FilterTwice(f, g, h, s[1..]);
    }
  }

  /** Sums add up over concatenation. */
  lemma {:induction false} SumAppend<T>(g: T -> int, a: seq<T>, b: seq<T>)
    ensures Sum(g, a + b) == Sum(g, a) + Sum(g, b)
  {
    if a != [] {
      SumAppend(g, a[1..], b);
      assert (a + b)[1..] == a[1..] + b;
    } else {
      assert a + b == b;
    }
  }

  /** Taking the first element off `a` and its copy `b[k]` off `b` leaves equal multisets. */
  lemma RemoveMatching<T>(a: seq<T>, b: seq<T>, k: nat)
    requires multiset(a) == multiset(b)
    requires a != [] && k < |b| && b[k] == a[0]
    ensures multiset(a[1..]) == multiset(b[..k] + b[k + 1..])
  {
    var rest := b[..k] + b[k + 1..];
    assert b == b[..k] + ([b[k]] + b[k + 1..]);
    assert a == [a[0]] + a[1..];
    assert multiset(b) == multiset(b[..k]) + multiset{b[k]} + multiset(b[k + 1..]);
    assert multiset(rest) == multiset(b[..k]) + multiset(b[k + 1..]);
    forall x ensures multiset(a[1..])[x] == multiset(rest)[x] {
      assert multiset(a)[x] == multiset{a[0]}[x] + multiset(a[1..])[x];
      assert multiset(b)[x] == multiset{b[k]}[x] + multiset(rest)[x];
    }
  }

  /** A sum does not depend on the order of the summands. */
  lemma {:induction false} SumPermutation<T>(g: T -> int, a: seq<T>, b: seq<T>)
    requires multiset(a) == multiset(b)
    ensures Sum(g, a) == Sum(g, b)
    decreases |a|
  {
    if a != [] {
      assert a[0] in multiset(b);
      var k :| 0 <= k < |b| && b[k] == a[0];
      RemoveMatching(a, b, k);
      SumPermutation(g, a[1..], b[..k] + b[k + 1..]);
      assert b == b[..k] + ([b[k]] + b[k + 1..]);
      SumAppend(g, b[..k], [b[k]] + b[k + 1..]);
      SumAppend(g, b[..k], b[k + 1..]);
      assert ([b[k]] + b[k + 1..])[1..] == b[k + 1..];
    } else {
      assert b == [];
    }
  }

  /** A count does not depend on the order of the elements. */
  lemma {:induction false} CountPermutation<T>(f: T -> bool, a: seq<T>, b: seq<T>)
    requires multiset(a) == multiset(b)
    ensures Count(f, a) == Count(f, b)
    decreases |a|
  {
    if a != [] {
      assert a[0] in multiset(b);
      var k :| 0 <= k < |b| && b[k] == a[0];
      RemoveMatching(a, b, k);
      CountPermutation(f, a[1..], b[..k] + b[k + 1..]);
      assert b == b[..k] + ([b[k]] + b[k + 1..]);
      FilterAppend(f, b[..k], [b[k]] + b[k + 1..]);
      FilterAppend(f, b[..k], b[k + 1..]);
      assert ([b[k]] + b[k + 1..])[1..] == b[k + 1..];
    } else {
      assert b == [];
    }
  }
}
