/**
 * Order-preserving selection from sequences: the shape of `Array.prototype.filter`
 * and `Array.prototype.find`, with the lemmas that say what a filter returns.
 */
module Seqs {
  import opened Wrappers

  /** The elements of `s` that satisfy `f`, in their original order. */
  function Filter<T>(s: seq<T>, f: T -> bool): seq<T>
  {
    if s == [] then [] else (if f(s[0]) then [s[0]] else []) + Filter(s[1..], f)
  }

  /** How many elements of `s` satisfy `f`. */
  function CountWhere<T>(s: seq<T>, f: T -> bool): nat
  {
    if s == [] then 0 else (if f(s[0]) then 1 else 0) + CountWhere(s[1..], f)
  }

  /** `a` is obtained from `b` by deleting elements, without reordering the rest. */
  predicate IsSubsequence<T(==)>(a: seq<T>, b: seq<T>)
  {
    if a == [] then true
    else if b == [] then false
    else (a[0] == b[0] && IsSubsequence(a[1..], b[1..])) || IsSubsequence(a, b[1..])
  }

  /** The index of the first element of `s` that satisfies `f`, as `findIndex` gives it. */
  function FirstIndex<T>(s: seq<T>, f: T -> bool): (r: Option<nat>)
    ensures r.Some? ==> r.value < |s| && f(s[r.value])
    ensures r.Some? ==> forall j :: 0 <= j < r.value ==> !f(s[j])
    ensures r.None? ==> forall j :: 0 <= j < |s| ==> !f(s[j])
  {
    if s == [] then None
    else if f(s[0]) then Some(0)
    else match FirstIndex(s[1..], f)
      case None => None
      case Some(i) => Some(i + 1)
  }

  /** The first element of `s` that satisfies `f`, as `find` gives it. */
  function Find<T>(s: seq<T>, f: T -> bool): (r: Option<T>)
    ensures r.None? <==> forall j :: 0 <= j < |s| ==> !f(s[j])
    ensures r.Some? ==> exists i :: 0 <= i < |s| && s[i] == r.value && f(s[i]) &&
                                    forall j :: 0 <= j < i ==> !f(s[j])
  {
    match FirstIndex(s, f)
    case None => None
    case Some(i) => Some(s[i])
  }

  lemma {:induction false} FilterIsSubsequence<T>(s: seq<T>, f: T -> bool)
    ensures IsSubsequence(Filter(s, f), s)
  {
    if s != [] {
      FilterIsSubsequence(s[1..], f);
      var r := Filter(s, f);
      if f(s[0]) {
        assert r[0] == s[0] && r[1..] == Filter(s[1..], f);
      } else if r != [] {
        assert r == Filter(s[1..], f);
      }
    }
  }

  lemma {:induction false} FilterMembers<T>(s: seq<T>, f: T -> bool)
    ensures forall x :: x in Filter(s, f) <==> x in s && f(x)
  {
    if s != [] {
      FilterMembers(s[1..], f);
      assert forall x :: x in s <==> x == s[0] || x in s[1..];
    }
  }

  lemma {:induction false} FilterLength<T>(s: seq<T>, f: T -> bool)
    ensures |Filter(s, f)| == CountWhere(s, f)
  {
    if s != [] {
      FilterLength(s[1..], f);
    }
  }

  /** A subsequence whose elements all satisfy `f` is no longer than the count of `f` in `s`. */
  lemma {:induction false} SubsequenceLength<T>(r: seq<T>, s: seq<T>, f: T -> bool)
    requires forall x :: x in r ==> f(x)
    ensures IsSubsequence(r, s) ==> |r| <= CountWhere(s, f)
  {
    if r != [] && s != [] {
      SubsequenceLength(r, s[1..], f);
      SubsequenceLength(r[1..], s[1..], f);
      assert r[0] in r;
    }
  }

  /**
   * `Filter` is the only subsequence of `s` made of elements satisfying `f` that
   * is as long as the number of such elements: "exactly those, in original order".
   */
  lemma {:induction false} FilterUnique<T>(r: seq<T>, s: seq<T>, f: T -> bool)
    requires IsSubsequence(r, s)
    requires forall x :: x in r ==> f(x)
    requires |r| == CountWhere(s, f)
    ensures r == Filter(s, f)
  {
    if s == [] {
    } else if r == [] {
      FilterLength(s, f);
    } else {
      SubsequenceLength(r, s[1..], f);
      assert r[0] in r;
      assert forall x :: x in r[1..] ==> x in r;
      if f(s[0]) {
        assert r[0] == s[0] && IsSubsequence(r[1..], s[1..]);
        FilterUnique(r[1..], s[1..], f);
        assert r == [r[0]] + r[1..];
      } else {
        FilterUnique(r, s[1..], f);
      }
    }
  }

  lemma {:induction false} FilterAll<T>(s: seq<T>, f: T -> bool)
    requires forall x :: x in s ==> f(x)
    ensures Filter(s, f) == s
  {
    if s != [] {
      assert forall x :: x in s[1..] ==> x in s;
      FilterAll(s[1..], f);
      assert s == [s[0]] + s[1..];
    }
  }

  lemma {:induction false} FilterConcat<T>(a: seq<T>, b: seq<T>, f: T -> bool)
    ensures Filter(a + b, f) == Filter(a, f) + Filter(b, f)
  {
    if a != [] {
      assert (a + b)[1..] == a[1..] + b;
      FilterConcat(a[1..], b, f);
    } else {
      assert a + b == b;
    }
  }

  /** Two tests that agree on every element of `s` select the same elements. */
  lemma {:induction false} FilterCongruent<T>(s: seq<T>, f: T -> bool, g: T -> bool)
    requires forall x :: x in s ==> f(x) == g(x)
    ensures Filter(s, f) == Filter(s, g)
    ensures CountWhere(s, f) == CountWhere(s, g)
  {
    if s != [] {
      assert forall x :: x in s[1..] ==> x in s;
      FilterCongruent(s[1..], f, g);
    }
  }

  /** Filtering twice is filtering once by the conjunction of the two tests. */
  lemma {:induction false} FilterThenFilter<T>(s: seq<T>, f: T -> bool, g: T -> bool, h: T -> bool)
    requires forall x :: x in s ==> h(x) == (f(x) && g(x))
    ensures Filter(Filter(s, f), g) == Filter(s, h)
  {
    if s != [] {
      assert forall x :: x in s[1..] ==> x in s;
      FilterThenFilter(s[1..], f, g, h);
      FilterConcat(if f(s[0]) then [s[0]] else [], Filter(s[1..], f), g);
    }
  }

  lemma {:induction false} CountWhereNone<T>(s: seq<T>, f: T -> bool)
    requires forall x :: x in s ==> !f(x)
    ensures CountWhere(s, f) == 0
  {
    if s != [] {
      assert forall x :: x in s[1..] ==> x in s;
      CountWhereNone(s[1..], f);
    }
  }

  /** Counting by a test that is the disjoint union of two others adds their counts. */
  lemma {:induction false} CountDisjointUnion<T>(s: seq<T>, f: T -> bool, g: T -> bool, h: T -> bool)
    requires forall x :: x in s ==> h(x) == (f(x) || g(x)) && !(f(x) && g(x))
    ensures CountWhere(s, h) == CountWhere(s, f) + CountWhere(s, g)
  {
    if s != [] {
      assert forall x :: x in s[1..] ==> x in s;
      CountDisjointUnion(s[1..], f, g, h);
    }
  }
}
