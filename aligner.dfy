/**
 `align()` end to end: count the vocabulary, start from the uniform default,
 run the EM passes and decode every sentence pair.
 */
module Aligner {
  import opened SparseMaps
  import opened Corpus
  import opened Estimator
  import opened Decoder

  /** A table whose default divides by the source vocabulary size can be read for every sentence pair. */
  lemma VocabularyReadable(b: Bitext, t: Table)
    requires t.vfSize == |SourceVocab(b)|
    ensures Readable(t, b)
  {
    forall n | 0 <= n < |b| && b[n].f != [] ensures t.vfSize > 0 {
      SourceVocabMembers(b, b[n].f[0]);
    }
  }

  /** Line 57 before any pass: nothing written, every pair reads `10 / |source vocabulary|`. */
  function Untrained(b: Bitext): (t: Table)
    ensures t.written == map[] && t.vfSize == |SourceVocab(b)|
    ensures Readable(t, b) && Bounded(t)
  {
    VocabularyReadable(b, Table(map[], |SourceVocab(b)|));
    Table(map[], |SourceVocab(b)|)
  }

  /** Source and target tokens of one sentence pair always form a co-occurring pair. */
  lemma SentencePairsCoOccur(b: Bitext)
    ensures forall n, i, j :: 0 <= n < |b| && 0 <= i < |b[n].f| && 0 <= j < |b[n].e| ==>
      (b[n].f[i], b[n].e[j]) in CoPairs(b)
  {
    forall n, i, j | 0 <= n < |b| && 0 <= i < |b[n].f| && 0 <= j < |b[n].e|
      ensures (b[n].f[i], b[n].e[j]) in CoPairs(b)
    {
      CoPairsMembers(b, (b[n].f[i], b[n].e[j]));
    }
  }

  /**
   Lines 36-95. The table is five EM passes applied to the untrained table,
   whose default is `10 / |source vocabulary|`; afterwards exactly
   the co-occurring pairs are written, each in (0, 1], and t sums to 1 over
   the column of every target token that co-occurs with something. Unwritten
   pairs still read the default and the decoder never reads one. Output line
   n holds the alignment of sentence pair n.
   */
  method Align(b: Bitext, threshold: real) returns (t: Table, lines: seq<seq<Link>>)
    ensures t == Iterate(Untrained(b), b, NumIter)
    ensures t.vfSize == |SourceVocab(b)|
    ensures t.written.Keys == CoPairs(b) && Bounded(t)
    ensures forall e :: e in Emitting(b) ==> SumReal(Column(CoPairs(b), e), t.written) == 1.0
    ensures forall p :: p !in CoPairs(b) && t.vfSize > 0 ==> Get(t, p) == Prior(t.vfSize)
    ensures forall n, i, j :: 0 <= n < |b| && 0 <= i < |b[n].f| && 0 <= j < |b[n].e| ==>
      (b[n].f[i], b[n].e[j]) in t.written
    ensures |lines| == |b|
    ensures Readable(t, b) && forall n :: 0 <= n < |b| ==> lines[n] == Alignment(t, b[n], threshold)
  {
    var counts := CountVocabulary(b);
    var t0 := Table(map[], |counts.fCount|);
    assert t0 == Untrained(b);
    t := Train(t0, b, NumIter);
    TrainedTable(b, t);
    lines := Decode(t, b, threshold);
  }

  /** What the EM passes leave in a table that started untrained. */
  lemma TrainedTable(b: Bitext, t: Table)
    requires t.vfSize == |SourceVocab(b)| && Bounded(t)
    requires forall p :: p in t.written <==> p in CoPairs(b)
    ensures t.written.Keys == CoPairs(b) && Readable(t, b)
    ensures forall p :: p !in CoPairs(b) && t.vfSize > 0 ==> Get(t, p) == Prior(t.vfSize)
    ensures forall n, i, j :: 0 <= n < |b| && 0 <= i < |b[n].f| && 0 <= j < |b[n].e| ==>
      (b[n].f[i], b[n].e[j]) in t.written
  {
    VocabularyReadable(b, t);
    SentencePairsCoOccur(b);
  }

  /**
   The trained table is at most 1 on every pair the decoder reads, so with a
   threshold of 1 or more no output line holds a link.
   */
  lemma NoLinksAtThresholdOne(t: Table, s: SentencePair, threshold: real)
    requires ReadableFor(t, s) && Bounded(t) && threshold >= 1.0
    requires forall i, j :: 0 <= i < |s.f| && 0 <= j < |s.e| ==> (s.f[i], s.e[j]) in t.written
    ensures Alignment(t, s, threshold) == []
  {
    AlignmentCharacterized(t, s, threshold);
    if Alignment(t, s, threshold) != [] {
      var l := Alignment(t, s, threshold)[0];
      ScanIsEarliestMaximum(t, s.f[l.0], s.e);
      assert false;
    }
  }

  /**
   Every source position of a sentence pair with a target side has a positive
   best entry, so with threshold 0 it gets exactly one link.
   */
  lemma EveryPositionLinkedAtZero(t: Table, s: SentencePair)
    requires ReadableFor(t, s) && Bounded(t) && s.e != []
    ensures |Alignment(t, s, 0.0)| == |s.f|
    ensures forall i :: 0 <= i < |s.f| ==> (i, Scan(t, s.f[i], s.e).1) in Alignment(t, s, 0.0)
  {
    AlignmentCharacterized(t, s, 0.0);
    forall i | 0 <= i < |s.f| ensures (i, Scan(t, s.f[i], s.e).1) in Alignment(t, s, 0.0) {
      ScanPositive(t, s.f[i], s.e);
    }
    CountLinks(t, s, |s.f|);
  }

  lemma {:induction false} CountLinks(t: Table, s: SentencePair, k: nat)
    requires ReadableFor(t, s) && Bounded(t) && s.e != [] && k <= |s.f|
    ensures |AlignPrefix(t, s, 0.0, k)| == k
  {
    if k > 0 {
      CountLinks(t, s, k - 1);
      ScanPositive(t, s.f[k - 1], s.e);
    }
  }
}
