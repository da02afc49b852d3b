/**
 * `Array.prototype.filter`: a new array holding, in their original order,
 * the elements for which the callback returns true.
 */
module JsArray {

  /** `s.filter(keep)`. */
  function Filter<T>(s: seq<T>, keep: T -> bool): (r: seq<T>)
    ensures |r| <= |s|
    ensures forall x :: x in r ==> x in s && keep(x)
  {
    if s == [] then []
    else
      var init := Filter(s[..|s| - 1], keep);
      if keep(s[|s| - 1]) then init + [s[|s| - 1]] else init
  }

  /** The positions of `s` whose element `keep` accepts, in increasing order. */
  function KeptIndices<T>(s: seq<T>, keep: T -> bool): seq<nat>
  {
    if s == [] then []
    else
      var init := KeptIndices(s[..|s| - 1], keep);
      if keep(s[|s| - 1]) then init + [|s| - 1] else init
  }

  ghost predicate StrictlyIncreasing(idx: seq<nat>)
  {
    forall k, l :: 0 <= k < l < |idx| ==> idx[k] < idx[l]
  }

  /**
   * The filter result is the subsequence of `s` at exactly the accepted
   * positions: element k of the result is element KeptIndices[k] of `s`,
   * those positions increase (so the original order is kept), and a
   * position is among them if and only if `keep` accepts its element.
   */
  lemma {:induction false} FilterSelectsKept<T>(s: seq<T>, keep: T -> bool)
    ensures var r, idx := Filter(s, keep), KeptIndices(s, keep);
      && |r| == |idx|
      && StrictlyIncreasing(idx)
      && (forall k :: 0 <= k < |idx| ==> idx[k] < |s| && r[k] == s[idx[k]])
      && (forall i :: 0 <= i < |s| ==> (i in idx <==> keep(s[i])))
  {
    KeptIndicesPick(s, keep);
    KeptIndicesExact(s, keep);
  }

  lemma {:induction false} KeptIndicesPick<T>(s: seq<T>, keep: T -> bool)
    ensures var r, idx := Filter(s, keep), KeptIndices(s, keep);
      && |r| == |idx|
      && StrictlyIncreasing(idx)
      && (forall k :: 0 <= k < |idx| ==> idx[k] < |s| && r[k] == s[idx[k]])
  {
    KeptIndicesAt(s, keep);
    KeptIndicesIncreasing(s, keep);
  }

  lemma {:induction false} KeptIndicesAt<T>(s: seq<T>, keep: T -> bool)
    ensures var r, idx := Filter(s, keep), KeptIndices(s, keep);
      && |r| == |idx|
      && (forall k :: 0 <= k < |idx| ==> idx[k] < |s| && r[k] == s[idx[k]])
  {
    if s != [] {
      var init, last := s[..|s| - 1], s[|s| - 1];
      KeptIndicesAt(init, keep);
      var ri, ii := Filter(init, keep), KeptIndices(init, keep);
      var r, idx := Filter(s, keep), KeptIndices(s, keep);
      forall k | 0 <= k < |idx|
        ensures idx[k] < |s| && r[k] == s[idx[k]]
      {
        if k < |ii| {
          assert idx[k] == ii[k] && r[k] == ri[k];
          assert s[ii[k]] == init[ii[k]];
        }
      }
    }
  }

  lemma {:induction false} KeptIndicesIncreasing<T>(s: seq<T>, keep: T -> bool)
    ensures StrictlyIncreasing(KeptIndices(s, keep))
  {
    if s != [] {
      var init := s[..|s| - 1];
      KeptIndicesIncreasing(init, keep);
      KeptIndicesBelow(init, keep);
      var ii := KeptIndices(init, keep);
      assert forall k :: 0 <= k < |ii| ==> ii[k] in ii;
    }
  }

  lemma {:induction false} KeptIndicesExact<T>(s: seq<T>, keep: T -> bool)
    ensures var idx := KeptIndices(s, keep);
      forall i :: 0 <= i < |s| ==> (i in idx <==> keep(s[i]))
  {
    if s != [] {
      var init := s[..|s| - 1];
      KeptIndicesExact(init, keep);
      KeptIndicesBelow(init, keep);
      assert forall i :: 0 <= i < |init| ==> s[i] == init[i];
    }
  }

  lemma {:induction false} KeptIndicesBelow<T>(s: seq<T>, keep: T -> bool)
    ensures forall i :: i in KeptIndices(s, keep) ==> i < |s|
  {
    if s != [] {
      KeptIndicesBelow(s[..|s| - 1], keep);
    }
  }

  /** Every accepted element of `s` survives the filter. */
  lemma {:induction false} FilterComplete<T>(s: seq<T>, keep: T -> bool, x: T)
    requires x in s && keep(x)
    ensures x in Filter(s, keep)
  {
    var init := s[..|s| - 1];
    if x != s[|s| - 1] {
      assert x in init;
      FilterComplete(init, keep, x);
    }
  }

  /** A filter that accepts everything returns a copy of its input. */
  lemma {:induction false} FilterAll<T>(s: seq<T>, keep: T -> bool)
    requires forall x :: keep(x)
    ensures Filter(s, keep) == s
  {
    if s != [] {
      FilterAll(s[..|s| - 1], keep);
    }
  }

  /** Filters with the same verdict on every element give the same result. */
  lemma {:induction false} FilterCongruent<T>(s: seq<T>, f: T -> bool, g: T -> bool)
    requires forall x :: f(x) == g(x)
    ensures Filter(s, f) == Filter(s, g)
  {
    if s != [] {
      FilterCongruent(s[..|s| - 1], f, g);
    }
  }

  /** Filtering by `f` and then by `g` is filtering once by their conjunction `h`. */
  lemma {:induction false} FilterFilter<T>(s: seq<T>, f: T -> bool, g: T -> bool, h: T -> bool)
    requires forall x :: h(x) == (f(x) && g(x))
    ensures Filter(Filter(s, f), g) == Filter(s, h)
  {
    if s != [] {
      var init := s[..|s| - 1];
      var last := s[|s| - 1];
      FilterFilter(init, f, g, h);
      var fi := Filter(init, f);
      if f(last) {
        var fs := fi + [last];
        assert fs[..|fs| - 1] == fi;
      }
    }
  }

  /** Filtering an array with one more element at the end. */
  lemma FilterSnoc<T>(s: seq<T>, x: T, keep: T -> bool)
    ensures Filter(s + [x], keep) == Filter(s, keep) + (if keep(x) then [x] else [])
  {
    assert (s + [x])[..|s|] == s;
  }

  /** Filtering a four-element array, one element at a time. */
  lemma FilterFour<T>(a: T, b: T, c: T, d: T, keep: T -> bool)
    ensures Filter([a, b, c, d], keep)
      == (if keep(a) then [a] else []) + (if keep(b) then [b] else [])
       + (if keep(c) then [c] else []) + (if keep(d) then [d] else [])
  {
    FilterSnoc([], a, keep);
    FilterSnoc([a], b, keep);
    FilterSnoc([a, b], c, keep);
    FilterSnoc([a, b, c], d, keep);
    assert [a] + [b] == [a, b];
    assert [a, b] + [c] == [a, b, c];
    assert [a, b, c] + [d] == [a, b, c, d];
  }
}
