/** Generic sequence operations: the `filter`, `find`, numeric `reduce` and
    string concatenation the pipeline is written with. */
module Seqs {
  import opened Wrappers

  /** `s.filter(p)`: the elements satisfying `p`, in their original order.
      Defined from the back so that it follows a left-to-right `forEach`. */
  function Filter<T>(s: seq<T>, p: T -> bool): (r: seq<T>)
    ensures |r| <= |s|
    ensures forall i :: 0 <= i < |r| ==> p(r[i])
    ensures forall i :: 0 <= i < |r| ==> r[i] in s
    ensures forall i :: 0 <= i < |s| && p(s[i]) ==> s[i] in r
  {
    if |s| == 0 then []
    else Filter(s[..|s| - 1], p) + (if p(s[|s| - 1]) then [s[|s| - 1]] else [])
  }

  /** The positions `filter` keeps, in increasing order: the filtered
      sequence is a subsequence of the original, order preserved. */
  function FilterPositions<T>(s: seq<T>, p: T -> bool): (idx: seq<nat>)
    ensures |idx| == |Filter(s, p)|
    ensures forall k :: 0 <= k < |idx| ==> idx[k] < |s| && s[idx[k]] == Filter(s, p)[k]
    ensures forall k, l :: 0 <= k < l < |idx| ==> idx[k] < idx[l]
  {
    if |s| == 0 then []
    else
      var init := FilterPositions(s[..|s| - 1], p);
      if p(s[|s| - 1]) then init + [|s| - 1] else init
  }

  /** Filtering commutes with concatenation, so the filtered sequence keeps the
      relative order of the original one. */
  lemma {:induction false} FilterAppend<T>(a: seq<T>, b: seq<T>, p: T -> bool)
    ensures Filter(a + b, p) == Filter(a, p) + Filter(b, p)
    decreases |b|
  {
    if |b| == 0 {
      assert a + b == a;
    } else {
      var b' := b[..|b| - 1];
      assert (a + b)[..|a + b| - 1] == a + b';
      assert (a + b)[|a + b| - 1] == b[|b| - 1];
      FilterAppend(a, b', p);
    }
  }

  /** The first element a filter keeps is the first element satisfying the
      predicate. */
  lemma {:induction false} FilterHead<T>(s: seq<T>, p: T -> bool)
    ensures FindFirst(s, p).None? <==> Filter(s, p) == []
    ensures FindFirst(s, p).Some? ==> Filter(s, p)[0] == s[FindFirst(s, p).value]
  {
    if |s| > 0 {
      FilterHead(s[1..], p);
      assert Filter(s, p) == Filter([s[0]], p) + Filter(s[1..], p) by {
        FilterAppend([s[0]], s[1..], p);
        assert [s[0]] + s[1..] == s;
      }
      assert Filter([s[0]], p) == (if p(s[0]) then [s[0]] else []) by {
        assert [s[0]][..0] == [];
      }
    }
  }

  /** A filter that no element passes is empty. */
  lemma {:induction false} FilterNone<T>(s: seq<T>, p: T -> bool)
    requires forall i :: 0 <= i < |s| ==> !p(s[i])
    ensures Filter(s, p) == []
  {
    if |s| > 0 {
      FilterNone(s[..|s| - 1], p);
    }
  }

  /** Two filters with predicates no element satisfies together select at
      most as many elements as there are. */
  lemma {:induction false} FilterDisjointCount<T>(s: seq<T>, p: T -> bool, q: T -> bool)
    requires forall i :: 0 <= i < |s| ==> !(p(s[i]) && q(s[i]))
    ensures |Filter(s, p)| + |Filter(s, q)| <= |s|
  {
    if |s| > 0 {
      FilterDisjointCount(s[..|s| - 1], p, q);
    }
  }

  /** `s.find(p)` returned as the index of the first element satisfying `p`. */
  function FindFirst<T>(s: seq<T>, p: T -> bool): (r: Option<nat>)
    ensures r.Some? ==> r.value < |s| && p(s[r.value])
    ensures r.Some? ==> forall j :: 0 <= j < r.value ==> !p(s[j])
    ensures r.None? ==> forall j :: 0 <= j < |s| ==> !p(s[j])
  {
    if |s| == 0 then None
    else if p(s[0]) then Some(0)
    else match FindFirst(s[1..], p)
      case None => None
      case Some(i) => Some(i + 1)
  }

  /** `xs.reduce((a, b) => a + b, 0)`. */
  function Sum(xs: seq<real>): real
  {
    if |xs| == 0 then 0.0 else Sum(xs[..|xs| - 1]) + xs[|xs| - 1]
  }

  /** A sum of terms lying in [0, hi] lies in [0, hi * |xs|]. */
  lemma {:induction false} SumBounds(xs: seq<real>, hi: real)
    requires forall i :: 0 <= i < |xs| ==> 0.0 <= xs[i] <= hi
    ensures 0.0 <= Sum(xs) <= hi * |xs| as real
  {
    if |xs| > 0 {
      SumBounds(xs[..|xs| - 1], hi);
    }
  }

  /** The number of elements satisfying `p`. */
  function Count<T>(s: seq<T>, p: T -> bool): nat
  {
    if |s| == 0 then 0 else Count(s[..|s| - 1], p) + (if p(s[|s| - 1]) then 1 else 0)
  }

  /** Counting is what filtering keeps. */
  lemma {:induction false} CountFilter<T>(s: seq<T>, p: T -> bool)
    ensures Count(s, p) == |Filter(s, p)|
  {
    if |s| > 0 {
      CountFilter(s[..|s| - 1], p);
    }
  }

  lemma {:induction false} CountAppend<T>(a: seq<T>, b: seq<T>, p: T -> bool)
    ensures Count(a + b, p) == Count(a, p) + Count(b, p)
    decreases |b|
  {
    if |b| == 0 {
      assert a + b == a;
    } else {
      var b' := b[..|b| - 1];
      assert (a + b)[..|a + b| - 1] == a + b';
      assert (a + b)[|a + b| - 1] == b[|b| - 1];
      CountAppend(a, b', p);
    }
  }

  lemma {:induction false} CountNone<T>(s: seq<T>, p: T -> bool)
    requires forall i :: 0 <= i < |s| ==> !p(s[i])
    ensures Count(s, p) == 0
  {
    if |s| > 0 {
      CountNone(s[..|s| - 1], p);
    }
  }
}
