/** `Array.prototype.filter` over sequences, and what every list page of the
    dashboard relies on: the result keeps exactly the elements that pass,
    in their original order. */
module Seqs {

  /** `s.filter(p)`. */
  function Filter<T>(s: seq<T>, p: T -> bool): (r: seq<T>)
    ensures |r| <= |s|
    decreases |s|
  {
    if |s| == 0 then [] else (if p(s[0]) then [s[0]] else []) + Filter(s[1..], p)
  }

  /** Every kept element passes and comes from the input; every passing
      element of the input is kept (so every dropped one fails). */
  lemma {:induction false} FilterMembers<T>(s: seq<T>, p: T -> bool)
    ensures forall x :: x in Filter(s, p) ==> x in s && p(x)
    ensures forall x :: x in s && p(x) ==> x in Filter(s, p)
    decreases |s|
  {
    if |s| > 0 {
      FilterMembers(s[1..], p);
      assert s == [s[0]] + s[1..];
    }
  }

  /** `idx` lists strictly increasing positions of `s` whose elements, in
      order, are `r`: `r` is `s` with some elements left out. */
  ghost predicate Embeds<T>(r: seq<T>, s: seq<T>, idx: seq<int>)
  {
    && |idx| == |r|
    && (forall k :: 0 <= k < |idx| ==> 0 <= idx[k] < |s| && r[k] == s[idx[k]])
    && (forall k, m :: 0 <= k < m < |idx| ==> idx[k] < idx[m])
  }

  /** `r` is an order-preserving subsequence of `s`. */
  ghost predicate IsSubsequence<T>(r: seq<T>, s: seq<T>)
  {
    exists idx :: Embeds(r, s, idx)
  }

  /** The positions at or after `lo` whose elements pass `p`, in increasing order. */
  function KeptFrom<T>(s: seq<T>, p: T -> bool, lo: nat): (idx: seq<int>)
    requires lo <= |s|
    decreases |s| - lo
  {
    if lo == |s| then [] else (if p(s[lo]) then [lo] else []) + KeptFrom(s, p, lo + 1)
  }

  /** The positions of `s` whose elements pass `p`. */
  function KeptIndices<T>(s: seq<T>, p: T -> bool): seq<int>
  {
    KeptFrom(s, p, 0)
  }

  /** The positions `KeptFrom` lists are at or after `lo`, and they are
      exactly the passing ones. */
  lemma {:induction false} KeptFromMembers<T>(s: seq<T>, p: T -> bool, lo: nat)
    requires lo <= |s|
    ensures forall k :: 0 <= k < |KeptFrom(s, p, lo)| ==> lo <= KeptFrom(s, p, lo)[k] < |s|
    ensures forall i :: 0 <= i < |s| ==> (i in KeptFrom(s, p, lo) <==> lo <= i && p(s[i]))
    decreases |s| - lo
  {
    if lo < |s| {
      KeptFromMembers(s, p, lo + 1);
    }
  }

  /** Putting an element before an embedding, at a position before all of
      its positions, gives an embedding. */
  lemma EmbedsCons<T>(r: seq<T>, s: seq<T>, idx: seq<int>, lo: nat)
    requires Embeds(r, s, idx) && lo < |s|
    requires forall k :: 0 <= k < |idx| ==> lo < idx[k]
    ensures Embeds([s[lo]] + r, s, [lo] + idx)
  {
    var r', idx' := [s[lo]] + r, [lo] + idx;
    assert forall j :: 1 <= j < |idx'| ==> idx'[j] == idx[j - 1] && r'[j] == r[j - 1];
  }

  lemma {:induction false} FilterFromEmbeds<T>(s: seq<T>, p: T -> bool, lo: nat)
    requires lo <= |s|
    ensures Embeds(Filter(s[lo..], p), s, KeptFrom(s, p, lo))
    decreases |s| - lo
  {
    if lo < |s| {
      FilterFromEmbeds(s, p, lo + 1);
      KeptFromMembers(s, p, lo + 1);
      assert s[lo..][1..] == s[lo + 1..];
      if p(s[lo]) {
        EmbedsCons(Filter(s[lo + 1..], p), s, KeptFrom(s, p, lo + 1), lo);
      }
    }
  }

  /** The filter keeps exactly the positions whose elements pass, and keeps
      them in their original order. */
  lemma FilterKeepsExactly<T>(s: seq<T>, p: T -> bool)
    ensures Embeds(Filter(s, p), s, KeptIndices(s, p))
    ensures forall i :: 0 <= i < |s| ==> (i in KeptIndices(s, p) <==> p(s[i]))
  {
    FilterFromEmbeds(s, p, 0);
    KeptFromMembers(s, p, 0);
    assert s[0..] == s;
  }

  /** Filtering a sequence with a known first element. */
  lemma FilterCons<T>(x: T, s: seq<T>, p: T -> bool)
    ensures Filter([x] + s, p) == (if p(x) then [x] else []) + Filter(s, p)
  {
    assert ([x] + s)[1..] == s;
  }

  /** The filter's result is an order-preserving subsequence of its input. */
  lemma FilterIsSubsequence<T>(s: seq<T>, p: T -> bool)
    ensures IsSubsequence(Filter(s, p), s)
  {
    FilterKeepsExactly(s, p);
  }

  /** When every element passes, the filter returns its input unchanged. */
  lemma {:induction false} FilterKeepsAll<T>(s: seq<T>, p: T -> bool)
    requires forall x :: x in s ==> p(x)
    ensures Filter(s, p) == s
    decreases |s|
  {
    if |s| > 0 {
      FilterKeepsAll(s[1..], p);
      assert s == [s[0]] + s[1..];
    }
  }

  /** When no element passes, the filter returns nothing. */
  lemma {:induction false} FilterKeepsNone<T>(s: seq<T>, p: T -> bool)
    requires forall x :: x in s ==> !p(x)
    ensures Filter(s, p) == []
    decreases |s|
  {
    if |s| > 0 {
      FilterKeepsNone(s[1..], p);
    }
  }

  /** Filtering an already filtered sequence again changes nothing. */
  lemma FilterIdempotent<T>(s: seq<T>, p: T -> bool)
    ensures Filter(Filter(s, p), p) == Filter(s, p)
  {
    FilterMembers(s, p);
    FilterKeepsAll(Filter(s, p), p);
  }

  /** Two tests that agree on every element filter the same way. */
  lemma {:induction false} FilterCongruent<T>(s: seq<T>, p: T -> bool, q: T -> bool)
    requires forall x :: x in s ==> p(x) == q(x)
    ensures Filter(s, p) == Filter(s, q)
    decreases |s|
  {
    if |s| > 0 {
      FilterCongruent(s[1..], p, q);
    }
  }
}
