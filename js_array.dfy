/** `Array.prototype.filter`: keep, in order, the elements the callback
    accepts. The lemmas characterise the result independently of the
    recursion, as the one subsequence of the input that holds every
    accepted element and no rejected one. */
module JsArray {

  /** `s.filter(p)`. */
  function Filter<T>(s: seq<T>, p: T -> bool): (r: seq<T>)
    ensures |r| <= |s|
    ensures forall i :: 0 <= i < |r| ==> p(r[i])
  {
    if s == [] then []
    else if p(s[0]) then [s[0]] + Filter(s[1..], p)
    else Filter(s[1..], p)
  }

  /** `r` is obtained from `s` by deleting elements, keeping the order. */
  ghost predicate IsSubsequence<T>(r: seq<T>, s: seq<T>)
    decreases |s|
  {
    if r == [] then true
    else if s == [] then false
    else (r[0] == s[0] && IsSubsequence(r[1..], s[1..])) || IsSubsequence(r, s[1..])
  }

  /** Every sequence is a subsequence of itself. */
  lemma {:induction false} SubsequenceReflexive<T>(s: seq<T>)
    ensures IsSubsequence(s, s)
  {
    if s != [] {
      SubsequenceReflexive(s[1..]);
    }
  }

  /** A subsequence holds no more copies of any value than the sequence. */
  lemma {:induction false} SubsequenceMultiset<T>(r: seq<T>, s: seq<T>)
    requires IsSubsequence(r, s)
    ensures multiset(r) <= multiset(s)
    decreases |s|
  {
    if r == [] {
    } else if r[0] == s[0] && IsSubsequence(r[1..], s[1..]) {
      SubsequenceMultiset(r[1..], s[1..]);
      assert r == [r[0]] + r[1..];
      assert s == [s[0]] + s[1..];
    } else {
      SubsequenceMultiset(r, s[1..]);
      assert s == [s[0]] + s[1..];
    }
  }

  /** The filtered array keeps the input's order. */
  lemma {:induction false} FilterIsSubsequence<T>(s: seq<T>, p: T -> bool)
    ensures IsSubsequence(Filter(s, p), s)
  {
    if s != [] {
      FilterIsSubsequence(s[1..], p);
      if p(s[0]) {
        assert Filter(s, p)[1..] == Filter(s[1..], p);
      } else if Filter(s, p) != [] {
        assert IsSubsequence(Filter(s, p), s[1..]);
      }
    }
  }

  /** The filtered array holds every copy of each accepted value and no copy
      of a rejected one. */
  lemma {:induction false} FilterMultiset<T>(s: seq<T>, p: T -> bool)
    ensures forall x :: multiset(Filter(s, p))[x] == if p(x) then multiset(s)[x] else 0
  {
    if s != [] {
      FilterMultiset(s[1..], p);
      assert s == [s[0]] + s[1..];
    }
  }

  /** A value is in the filtered array iff it is in the input and accepted. */
  lemma FilterMembership<T>(s: seq<T>, p: T -> bool)
    ensures forall x :: x in Filter(s, p) <==> x in s && p(x)
  {
    FilterMultiset(s, p);
    forall x ensures x in Filter(s, p) <==> x in s && p(x) {
      assert x in Filter(s, p) <==> multiset(Filter(s, p))[x] > 0;
      assert x in s <==> multiset(s)[x] > 0;
    }
  }

  /** When the callback accepts every element, the filtered array is the input. */
  lemma {:induction false} FilterAcceptAll<T>(s: seq<T>, p: T -> bool)
    requires forall i :: 0 <= i < |s| ==> p(s[i])
    ensures Filter(s, p) == s
  {
    if s != [] {
      FilterAcceptAll(s[1..], p);
    }
  }

  /** The filtered array is the only subsequence of the input that holds
      every copy of each accepted value and no copy of a rejected one. */
  lemma {:induction false} FilterUnique<T>(r: seq<T>, s: seq<T>, p: T -> bool)
    requires IsSubsequence(r, s)
    requires forall x :: multiset(r)[x] == if p(x) then multiset(s)[x] else 0
    ensures r == Filter(s, p)
    decreases |s|
  {
    if s == [] {
      assert r == [];
      return;
    }
    var h, t := s[0], s[1..];
    assert s == [h] + t;
    if r == [] {
      assert multiset(s)[h] > 0;
      assert !p(h);
      forall x ensures multiset(r)[x] == if p(x) then multiset(t)[x] else 0 {
        if p(x) { assert x != h; }
      }
      FilterUnique(r, t, p);
    } else if r[0] == h && IsSubsequence(r[1..], t) {
      assert r == [h] + r[1..];
      assert multiset(r)[h] > 0;
      assert p(h);
      forall x ensures multiset(r[1..])[x] == if p(x) then multiset(t)[x] else 0 {
        assert multiset(r)[x] == multiset(r[1..])[x] + (if x == h then 1 else 0);
      }
      FilterUnique(r[1..], t, p);
    } else {
      assert IsSubsequence(r, t);
      SubsequenceMultiset(r, t);
      if p(h) {
        assert false;
      }
      forall x ensures multiset(r)[x] == if p(x) then multiset(t)[x] else 0 {
        if p(x) { assert x != h; }
      }
      FilterUnique(r, t, p);
    }
  }

  /** `r` keeps the order of `s` and holds every copy of each value `p`
      accepts and no copy of a value it rejects. */
  ghost predicate KeepsExactly<T(!new)>(r: seq<T>, s: seq<T>, p: T -> bool) {
    IsSubsequence(r, s) && forall x :: multiset(r)[x] == if p(x) then multiset(s)[x] else 0
  }

  /** `s.filter(p)` is `r` exactly when `r` keeps, in order, the accepted
      elements of `s` and nothing else. */
  lemma FilterCharacterised<T(!new)>(s: seq<T>, p: T -> bool, r: seq<T>)
    ensures Filter(s, p) == r <==> KeepsExactly(r, s, p)
  {
    FilterIsSubsequence(s, p);
    FilterMultiset(s, p);
    if KeepsExactly(r, s, p) {
      FilterUnique(r, s, p);
    }
  }
}
