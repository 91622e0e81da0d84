/**
 The decoder of the IBM Model 1 aligner: for every source position, the
 earliest target position with the largest table entry, kept as a link when
 that entry exceeds the threshold.
 */
module Decoder {
  import opened Corpus
  import opened Estimator

  /** A link `i-j`: source position i aligned to target position j. */
  type Link = (nat, nat)

  /**
   Lines 87-92 as a function: the running best `(bestp, bestj)` after the
   target tokens es, starting from `(0, 0)` and replaced only by a strictly
   larger entry.
   */
  function Scan(t: Table, f: Token, es: seq<Token>): (real, nat)
    requires t.vfSize > 0
  {
    if es == [] then (0.0, 0)
    else
      var best := Scan(t, f, es[..|es| - 1]);
      var v := Get(t, (f, es[|es| - 1]));
      if v > best.0 then (v, |es| - 1) else best
  }

  /**
   The scan finds the earliest maximum: bestp bounds every entry, and when it
   is positive it is the entry at bestj and every earlier entry is strictly
   smaller; when no entry is positive, bestp stays 0 and bestj stays 0.
   */
  lemma {:induction false} ScanIsEarliestMaximum(t: Table, f: Token, es: seq<Token>)
    requires t.vfSize > 0
    ensures Scan(t, f, es).0 >= 0.0
    ensures forall j :: 0 <= j < |es| ==> Get(t, (f, es[j])) <= Scan(t, f, es).0
    ensures Scan(t, f, es).0 > 0.0 ==>
      && Scan(t, f, es).1 < |es|
      && Get(t, (f, es[Scan(t, f, es).1])) == Scan(t, f, es).0
      && forall j :: 0 <= j < Scan(t, f, es).1 ==> Get(t, (f, es[j])) < Scan(t, f, es).0
    ensures Scan(t, f, es).0 == 0.0 ==> Scan(t, f, es).1 == 0
  {
    if es != [] {
      var init := es[..|es| - 1];
      ScanIsEarliestMaximum(t, f, init);
      assert forall j :: 0 <= j < |init| ==> es[j] == init[j];
    }
  }

  /** Over a non-empty target side of a bounded table, some entry is positive, so bestp is too. */
  lemma ScanPositive(t: Table, f: Token, es: seq<Token>)
    requires t.vfSize > 0 && Bounded(t) && es != []
    ensures Scan(t, f, es).0 > 0.0
  {
    ScanIsEarliestMaximum(t, f, es);
    assert Get(t, (f, es[0])) > 0.0 by {
      if (f, es[0]) !in t.written {
        assert Prior(t.vfSize) > 0.0;
      }
    }
  }

  /** Lines 87-92: the loop over the target positions. */
  method BestTarget(t: Table, f: Token, es: seq<Token>) returns (bestp: real, bestj: nat)
    requires t.vfSize > 0
    ensures (bestp, bestj) == Scan(t, f, es)
  {
    bestp, bestj := 0.0, 0;
    for j := 0 to |es|
      invariant (bestp, bestj) == Scan(t, f, es[..j])
    {
      assert es[..j + 1][..j] == es[..j];
      var v := Get(t, (f, es[j]));
      if v > bestp {
        bestp, bestj := v, j;
      }
    }
    assert es[..|es|] == es;
  }

  /** The links of the first k source positions of s, in position order. */
  function AlignPrefix(t: Table, s: SentencePair, threshold: real, k: nat): seq<Link>
    requires ReadableFor(t, s) && k <= |s.f|
  {
    if k == 0 then []
    else
      var best := Scan(t, s.f[k - 1], s.e);
      AlignPrefix(t, s, threshold, k - 1) + (if best.0 > threshold then [(k - 1, best.1)] else [])
  }

  /** Lines 86-94 for one sentence pair: the links written on its output line. */
  function Alignment(t: Table, s: SentencePair, threshold: real): seq<Link>
    requires ReadableFor(t, s)
  {
    AlignPrefix(t, s, threshold, |s.f|)
  }

  /** A link is emitted for position i exactly when i's best entry exceeds the threshold, and it names i's best target. */
  lemma {:induction false} AlignPrefixLinks(t: Table, s: SentencePair, threshold: real, k: nat, l: Link)
    requires ReadableFor(t, s) && k <= |s.f|
    ensures l in AlignPrefix(t, s, threshold, k) <==>
      l.0 < k && Scan(t, s.f[l.0], s.e).0 > threshold && l.1 == Scan(t, s.f[l.0], s.e).1
  {
    if k > 0 {
      AlignPrefixLinks(t, s, threshold, k - 1, l);
    }
  }

  /** The links of the first k positions have strictly increasing source positions, all below k. */
  lemma {:induction false} AlignPrefixAscending(t: Table, s: SentencePair, threshold: real, k: nat)
    requires ReadableFor(t, s) && k <= |s.f|
    ensures |AlignPrefix(t, s, threshold, k)| <= k
    ensures forall a :: 0 <= a < |AlignPrefix(t, s, threshold, k)| ==> AlignPrefix(t, s, threshold, k)[a].0 < k
    ensures forall a, c :: 0 <= a < c < |AlignPrefix(t, s, threshold, k)| ==>
      AlignPrefix(t, s, threshold, k)[a].0 < AlignPrefix(t, s, threshold, k)[c].0
  {
    if k > 0 {
      AlignPrefixAscending(t, s, threshold, k - 1);
    }
  }

  /**
   The output line of s: link (i, j) is on it exactly when the best entry of
   source position i exceeds the threshold and j is the earliest target
   position with that entry; the links come in increasing source position,
   so there is at most one per position.
   */
  lemma AlignmentCharacterized(t: Table, s: SentencePair, threshold: real)
    requires ReadableFor(t, s)
    ensures forall l :: l in Alignment(t, s, threshold) <==>
      l.0 < |s.f| && Scan(t, s.f[l.0], s.e).0 > threshold && l.1 == Scan(t, s.f[l.0], s.e).1
    ensures |Alignment(t, s, threshold)| <= |s.f|
    ensures forall a, c :: 0 <= a < c < |Alignment(t, s, threshold)| ==>
      Alignment(t, s, threshold)[a].0 < Alignment(t, s, threshold)[c].0
  {
    forall l: Link
      ensures l in Alignment(t, s, threshold) <==>
        l.0 < |s.f| && Scan(t, s.f[l.0], s.e).0 > threshold && l.1 == Scan(t, s.f[l.0], s.e).1
    {
      AlignPrefixLinks(t, s, threshold, |s.f|, l);
    }
    AlignPrefixAscending(t, s, threshold, |s.f|);
  }

  /** With a threshold of at least 0, every link names a real target position. */
  lemma LinksInRange(t: Table, s: SentencePair, threshold: real)
    requires ReadableFor(t, s) && threshold >= 0.0
    ensures forall l :: l in Alignment(t, s, threshold) ==> l.0 < |s.f| && l.1 < |s.e|
  {
    AlignmentCharacterized(t, s, threshold);
    forall l | l in Alignment(t, s, threshold) ensures l.0 < |s.f| && l.1 < |s.e| {
      ScanIsEarliestMaximum(t, s.f[l.0], s.e);
    }
  }

  /**
   With a negative threshold the initial `bestp = 0` already passes, so a
   sentence pair with an empty target side gets the link (i, 0) for every
   source position i, naming a target position that does not exist.
   */
  lemma NegativeThresholdLinksEmptyTarget(t: Table, s: SentencePair, threshold: real)
    requires ReadableFor(t, s) && threshold < 0.0 && s.e == []
    ensures |Alignment(t, s, threshold)| == |s.f|
    ensures forall i :: 0 <= i < |s.f| ==> Alignment(t, s, threshold)[i] == (i, 0)
  {
    NegativeThresholdPrefix(t, s, threshold, |s.f|);
  }

  lemma {:induction false} NegativeThresholdPrefix(t: Table, s: SentencePair, threshold: real, k: nat)
    requires ReadableFor(t, s) && threshold < 0.0 && s.e == [] && k <= |s.f|
    ensures |AlignPrefix(t, s, threshold, k)| == k
    ensures forall i :: 0 <= i < k ==> AlignPrefix(t, s, threshold, k)[i] == (i, 0)
  {
    if k > 0 {
      NegativeThresholdPrefix(t, s, threshold, k - 1);
    }
  }

  /** Raising the threshold only removes links: every link at hi is also a link at lo. */
  lemma ThresholdMonotone(t: Table, s: SentencePair, lo: real, hi: real)
    requires ReadableFor(t, s) && lo <= hi
    ensures forall l :: l in Alignment(t, s, hi) ==> l in Alignment(t, s, lo)
    ensures |Alignment(t, s, hi)| <= |Alignment(t, s, lo)|
  {
    AlignmentCharacterized(t, s, hi);
    AlignmentCharacterized(t, s, lo);
    ThresholdMonotonePrefix(t, s, lo, hi, |s.f|);
  }

  lemma {:induction false} ThresholdMonotonePrefix(t: Table, s: SentencePair, lo: real, hi: real, k: nat)
    requires ReadableFor(t, s) && lo <= hi && k <= |s.f|
    ensures |AlignPrefix(t, s, hi, k)| <= |AlignPrefix(t, s, lo, k)|
  {
    if k > 0 {
      ThresholdMonotonePrefix(t, s, lo, hi, k - 1);
    }
  }

  /** Lines 86-95 for one sentence pair: the links of its output line. */
  method DecodeSentence(t: Table, s: SentencePair, threshold: real) returns (links: seq<Link>)
    requires ReadableFor(t, s)
    ensures links == Alignment(t, s, threshold)
  {
    links := [];
    for i := 0 to |s.f|
      invariant links == AlignPrefix(t, s, threshold, i)
    {
      var bestp, bestj := BestTarget(t, s.f[i], s.e);
      if bestp > threshold {
        links := links + [(i, bestj)];
      }
    }
  }

  /** Lines 85-95: one output line per sentence pair, in corpus order. */
  method Decode(t: Table, b: Bitext, threshold: real) returns (lines: seq<seq<Link>>)
    requires Readable(t, b)
    ensures |lines| == |b|
    ensures forall n :: 0 <= n < |b| ==> lines[n] == Alignment(t, b[n], threshold)
  {
    lines := [];
    for n := 0 to |b|
      invariant |lines| == n
      invariant forall m :: 0 <= m < n ==> lines[m] == Alignment(t, b[m], threshold)
    {
      var links := DecodeSentence(t, b[n], threshold);
      lines := lines + [links];
    }
  }
}
