/**
 The parallel corpus of the IBM Model 1 aligner and its first counting pass:
 per-sentence unique source and target tokens, and the sentence frequency of
 every source token, target token and co-occurring pair.
 */
module Corpus {
  import opened SparseMaps

  type Token = string

  /** A (source token, target token) key: `(f_i, e_j)`. */
  type Pair = (Token, Token)

  /** One line pair: source (French) tokens f and target (English) tokens e. */
  datatype SentencePair = SentencePair(f: seq<Token>, e: seq<Token>)

  type Bitext = seq<SentencePair>

  predicate Distinct(s: seq<Token>)
  {
    forall i, j :: 0 <= i < j < |s| ==> s[i] != s[j]
  }

  function Elems(s: seq<Token>): set<Token>
  {
    set x | x in s
  }

  /**
   The tokens of s without repetitions, in order of first occurrence: the
   elements a loop over `set(s)` visits, each once.
   */
  function Unique(s: seq<Token>): (u: seq<Token>)
    ensures Distinct(u)
    ensures forall x :: x in u <==> x in s
    ensures |u| <= |s|
  {
    if s == [] then []
    else
      var r := Unique(s[..|s| - 1]);
      assert s == s[..|s| - 1] + [s[|s| - 1]];
      if s[|s| - 1] in r then r else r + [s[|s| - 1]]
  }

  function Init(b: Bitext): Bitext
    requires b != []
  {
    b[..|b| - 1]
  }

  function Last(b: Bitext): SentencePair
    requires b != []
  {
    b[|b| - 1]
  }

  /** All pairs (f, e) with f on the source side and e on the target side of s. */
  function PairsOf(s: SentencePair): set<Pair>
  {
    set f, e | f in s.f && e in s.e :: (f, e)
  }

  /** The source vocabulary of the corpus. */
  function SourceVocab(b: Bitext): set<Token>
  {
    if b == [] then {} else SourceVocab(Init(b)) + Elems(Last(b).f)
  }

  /** The target vocabulary of the corpus. */
  function TargetVocab(b: Bitext): set<Token>
  {
    if b == [] then {} else TargetVocab(Init(b)) + Elems(Last(b).e)
  }

  /** The pairs that co-occur in at least one sentence pair. */
  function CoPairs(b: Bitext): set<Pair>
  {
    if b == [] then {} else CoPairs(Init(b)) + PairsOf(Last(b))
  }

  /** Number of sentence pairs whose source side contains w. */
  function SourceFrequency(b: Bitext, w: Token): nat
  {
    if b == [] then 0 else SourceFrequency(Init(b), w) + (if w in Last(b).f then 1 else 0)
  }

  /** Number of sentence pairs whose target side contains w. */
  function TargetFrequency(b: Bitext, w: Token): nat
  {
    if b == [] then 0 else TargetFrequency(Init(b), w) + (if w in Last(b).e then 1 else 0)
  }

  /** Number of sentence pairs in which both halves of p occur. */
  function PairFrequency(b: Bitext, p: Pair): nat
  {
    if b == [] then 0 else PairFrequency(Init(b), p) + (if p in PairsOf(Last(b)) then 1 else 0)
  }

  /** The source vocabulary is exactly the tokens of the source sides. */
  lemma {:induction false} SourceVocabMembers(b: Bitext, w: Token)
    ensures w in SourceVocab(b) <==> exists n :: 0 <= n < |b| && w in b[n].f
  {
    if b != [] {
      SourceVocabMembers(Init(b), w);
      if w in SourceVocab(b) && w !in Elems(Last(b).f) {
        var n :| 0 <= n < |Init(b)| && w in Init(b)[n].f;
        assert b[n] == Init(b)[n];
      }
      if exists n :: 0 <= n < |b| && w in b[n].f {
        var n :| 0 <= n < |b| && w in b[n].f;
        if n < |b| - 1 {
          assert Init(b)[n] == b[n];
        }
      }
    }
  }

  /** The co-occurring pairs are exactly those whose halves share a sentence pair. */
  lemma {:induction false} CoPairsMembers(b: Bitext, p: Pair)
    ensures p in CoPairs(b) <==> exists n :: 0 <= n < |b| && p.0 in b[n].f && p.1 in b[n].e
  {
    if b != [] {
      CoPairsMembers(Init(b), p);
      if p in CoPairs(b) && p !in PairsOf(Last(b)) {
        var n :| 0 <= n < |Init(b)| && p.0 in Init(b)[n].f && p.1 in Init(b)[n].e;
        assert b[n] == Init(b)[n];
      }
      if exists n :: 0 <= n < |b| && p.0 in b[n].f && p.1 in b[n].e {
        var n :| 0 <= n < |b| && p.0 in b[n].f && p.1 in b[n].e;
        if n < |b| - 1 {
          assert Init(b)[n] == b[n];
        } else {
          assert p in PairsOf(Last(b));
        }
      }
    }
  }

  /** The indices of the sentence pairs whose source side contains w. */
  function SentencesWith(b: Bitext, w: Token): set<nat>
  {
    set n: nat | n < |b| && w in b[n].f
  }

  /**
   The source frequency of w is the number of sentence pairs containing it,
   however often it occurs inside one of them.
   */
  lemma {:induction false} SourceFrequencyCountsSentences(b: Bitext, w: Token)
    ensures SourceFrequency(b, w) == |SentencesWith(b, w)|
    ensures SourceFrequency(b, w) <= |b|
    ensures SourceFrequency(b, w) > 0 <==> w in SourceVocab(b)
  {
    SourceVocabMembers(b, w);
    if b != [] {
      SourceFrequencyCountsSentences(Init(b), w);
      var before := SentencesWith(Init(b), w);
      SentencesWithLast(b, w);
      if w in Last(b).f {
        assert |before + {|b| - 1}| == |before| + 1;
      }
      SetBound(before, |b| - 1);
    }
  }

  /** The sentence pairs containing w are those of Init(b), plus the last one if it contains w. */
  lemma SentencesWithLast(b: Bitext, w: Token)
    requires b != []
    ensures |b| - 1 !in SentencesWith(Init(b), w)
    ensures SentencesWith(b, w) == SentencesWith(Init(b), w) + (if w in Last(b).f then {|b| - 1} else {})
  {
    var before := SentencesWith(Init(b), w);
    forall n: nat | n < |b| - 1 ensures (n in SentencesWith(b, w)) == (n in before) {
      assert Init(b)[n] == b[n];
    }
  }

  /** A set of indices below n has at most n elements. */
  lemma {:induction false} SetBound(s: set<nat>, n: nat)
    requires forall i :: i in s ==> i < n
    ensures |s| <= n
    decreases n
  {
    if n > 0 {
      SetBound(s - {n - 1}, n - 1);
    } else {
      assert s == {};
    }
  }

  /** Line 45-51: what the first counting pass returns. */
  datatype VocabCounts = VocabCounts(fCount: map<Token, nat>, eCount: map<Token, nat>, feCount: map<Pair, nat>)

  lemma PairsOfMembers(s: SentencePair, p: Pair)
    ensures p in PairsOf(s) <==> p.0 in s.f && p.1 in s.e
  {
    if p.0 in s.f && p.1 in s.e {
      assert (p.0, p.1) in PairsOf(s);
    }
  }

  /** Lines 48-49: one co-occurrence count for fi and each unique target token. */
  method CountRow(feCount: map<Pair, nat>, fi: Token, ue: seq<Token>) returns (feCount': map<Pair, nat>)
    requires Distinct(ue)
    ensures forall p :: p in feCount' <==> p in feCount || (p.0 == fi && p.1 in ue)
    ensures forall p :: GetOr(feCount', p, 0) == GetOr(feCount, p, 0) + (if p.0 == fi && p.1 in ue then 1 else 0)
  {
    feCount' := feCount;
    for j := 0 to |ue|
      invariant forall p :: p in feCount' <==> p in feCount || (p.0 == fi && p.1 in ue[..j])
      invariant forall p ::
        GetOr(feCount', p, 0) == GetOr(feCount, p, 0) + (if p.0 == fi && p.1 in ue[..j] then 1 else 0)
    {
      assert ue[..j + 1] == ue[..j] + [ue[j]];
      feCount' := feCount'[(fi, ue[j]) := GetOr(feCount', (fi, ue[j]), 0) + 1];
    }
    assert ue[..|ue|] == ue;
  }

  /** Adding the row of a new source token fi to the rows of done gives the rows of done + {fi}. */
  lemma CountRowsAddUp(feCount: map<Pair, nat>, fe1: map<Pair, nat>, fe2: map<Pair, nat>,
                       done: set<Token>, fi: Token, ue: seq<Token>)
    requires fi !in done
    requires forall p :: GetOr(fe1, p, 0) == GetOr(feCount, p, 0) + (if p.0 in done && p.1 in ue then 1 else 0)
    requires forall p :: GetOr(fe2, p, 0) == GetOr(fe1, p, 0) + (if p.0 == fi && p.1 in ue then 1 else 0)
    ensures forall p ::
      GetOr(fe2, p, 0) == GetOr(feCount, p, 0) + (if p.0 in done + {fi} && p.1 in ue then 1 else 0)
  {
  }

  /** Counting a new token fi once more turns the counts of done into those of done + {fi}. */
  lemma BumpAddsUp(fCount: map<Token, nat>, f1: map<Token, nat>, done: set<Token>, fi: Token)
    requires fi !in done
    requires forall w :: GetOr(f1, w, 0) == GetOr(fCount, w, 0) + (if w in done then 1 else 0)
    ensures forall w ::
      GetOr(f1[fi := GetOr(f1, fi, 0) + 1], w, 0) == GetOr(fCount, w, 0) + (if w in done + {fi} then 1 else 0)
  {
  }

  /** Lines 46-49: the source-token and co-occurrence counts of one sentence pair. */
  method CountSource(fCount: map<Token, nat>, feCount: map<Pair, nat>, s: SentencePair)
    returns (fCount': map<Token, nat>, feCount': map<Pair, nat>)
    ensures forall w :: w in fCount' <==> w in fCount || w in s.f
    ensures forall w :: GetOr(fCount', w, 0) == GetOr(fCount, w, 0) + (if w in s.f then 1 else 0)
    ensures forall p :: p in feCount' <==> p in feCount || (p.0 in s.f && p.1 in s.e)
    ensures forall p :: GetOr(feCount', p, 0) == GetOr(feCount, p, 0) + (if p.0 in s.f && p.1 in s.e then 1 else 0)
  {
    var uf := Unique(s.f);
    var ue := Unique(s.e);
    fCount', feCount' := fCount, feCount;
    ghost var done: set<Token> := {};
    for i := 0 to |uf|
      invariant forall w :: w in done <==> w in uf[..i]
      invariant forall w :: w in fCount' <==> w in fCount || w in done
      invariant forall w :: GetOr(fCount', w, 0) == GetOr(fCount, w, 0) + (if w in done then 1 else 0)
      invariant forall p :: p in feCount' <==> p in feCount || (p.0 in done && p.1 in ue)
      invariant forall p :: GetOr(feCount', p, 0) == GetOr(feCount, p, 0) + (if p.0 in done && p.1 in ue then 1 else 0)
    {
      var fi := uf[i];
      assert uf[..i + 1] == uf[..i] + [fi];
      assert fi !in done;
      BumpAddsUp(fCount, fCount', done, fi);
      fCount' := fCount'[fi := GetOr(fCount', fi, 0) + 1];
      ghost var fe1 := feCount';
      feCount' := CountRow(feCount', fi, ue);
      CountRowsAddUp(feCount, fe1, feCount', done, fi, ue);
      done := done + {fi};
    }
    assert uf[..|uf|] == uf;
  }

  /** Lines 50-51: the target-token counts of one sentence pair. */
  method CountTarget(eCount: map<Token, nat>, s: SentencePair) returns (eCount': map<Token, nat>)
    ensures forall w :: w in eCount' <==> w in eCount || w in s.e
    ensures forall w :: GetOr(eCount', w, 0) == GetOr(eCount, w, 0) + (if w in s.e then 1 else 0)
  {
    var ue := Unique(s.e);
    eCount' := eCount;
    for j := 0 to |ue|
      invariant forall w :: w in eCount' <==> w in eCount || w in ue[..j]
      invariant forall w :: GetOr(eCount', w, 0) == GetOr(eCount, w, 0) + (if w in ue[..j] then 1 else 0)
    {
      assert ue[..j + 1] == ue[..j] + [ue[j]];
      eCount' := eCount'[ue[j] := GetOr(eCount', ue[j], 0) + 1];
    }
    assert ue[..|ue|] == ue;
  }

  /**
   The counting pass before training: for every sentence pair, every unique
   source token, every unique target token and every pair of them is counted
   once.
   */
  method CountVocabulary(b: Bitext) returns (c: VocabCounts)
    ensures c.fCount.Keys == SourceVocab(b)
    ensures c.eCount.Keys == TargetVocab(b)
    ensures c.feCount.Keys == CoPairs(b)
    ensures forall w :: w in c.fCount ==> c.fCount[w] == SourceFrequency(b, w)
    ensures forall w :: w in c.eCount ==> c.eCount[w] == TargetFrequency(b, w)
    ensures forall p :: p in c.feCount ==> c.feCount[p] == PairFrequency(b, p)
  {
    var fCount: map<Token, nat> := map[];
    var eCount: map<Token, nat> := map[];
    var feCount: map<Pair, nat> := map[];
    for n := 0 to |b|
      invariant forall w :: w in fCount <==> w in SourceVocab(b[..n])
      invariant forall w :: w in eCount <==> w in TargetVocab(b[..n])
      invariant forall p :: p in feCount <==> p in CoPairs(b[..n])
      invariant forall w :: GetOr(fCount, w, 0) == SourceFrequency(b[..n], w)
      invariant forall w :: GetOr(eCount, w, 0) == TargetFrequency(b[..n], w)
      invariant forall p :: GetOr(feCount, p, 0) == PairFrequency(b[..n], p)
    {
      assert Init(b[..n + 1]) == b[..n] && Last(b[..n + 1]) == b[n];
      fCount, feCount := CountSource(fCount, feCount, b[n]);
      eCount := CountTarget(eCount, b[n]);
      forall p ensures p in PairsOf(b[n]) <==> p.0 in b[n].f && p.1 in b[n].e {
        PairsOfMembers(b[n], p);
      }
    }
    assert b[..|b|] == b;
    assert fCount.Keys == SourceVocab(b) && eCount.Keys == TargetVocab(b) && feCount.Keys == CoPairs(b);
    c := VocabCounts(fCount, eCount, feCount);
  }
}
