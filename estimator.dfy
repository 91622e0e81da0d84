/**
 The Expectation-Maximization estimator of IBM Model 1 (no null word): the
 translation table t with its lazy uniform default, one expectation pass that
 accumulates responsibilities over unique tokens, one maximization pass that
 overwrites exactly the pairs seen, and the fixed number of passes.
 */
module Estimator {
  import opened SparseMaps
  import opened Corpus

  /** The number of EM passes `align()` runs. */
  const NumIter: nat := 5

  /** The numerator of the uniform default, "size of artificial nulls". */
  const Nulls: real := 10.0

  /**
   The table t: the entries some maximization pass has written, and the
   source-vocabulary size the default of every other entry divides by.
   */
  datatype Table = Table(written: map<Pair, real>, vfSize: nat)

  /**
   The uniform default `nulls / Vf_size`: it is positive, and, since nulls is
   10 and not 1, it is a probability only for vocabularies of 10 or more
   source tokens.
   */
  function Prior(vfSize: nat): (r: real)
    requires vfSize > 0
    ensures r * vfSize as real == Nulls && r > 0.0
    ensures vfSize >= 10 ==> r <= 1.0
    ensures vfSize < 10 ==> r > 1.0
  {
    DivPositive(Nulls, vfSize as real);
    Nulls / vfSize as real
  }

  /**
   A read `t[(f, e)]`: the written entry, else the uniform default, which is
   only computed (and only defined) when the vocabulary is not empty.
   */
  function Get(t: Table, p: Pair): (r: real)
    requires p in t.written || t.vfSize > 0
    ensures p in t.written ==> r == t.written[p]
    ensures p !in t.written ==> r == Prior(t.vfSize)
    ensures Bounded(t) ==> r > 0.0
  {
    if p in t.written then t.written[p] else Prior(t.vfSize)
  }

  /** Every written entry lies in (0, 1]. */
  ghost predicate Bounded(t: Table)
  {
    forall p :: p in t.written ==> 0.0 < t.written[p] <= 1.0
  }

  /** The default can be read for the source tokens of s: if there are any, the vocabulary is not empty. */
  predicate ReadableFor(t: Table, s: SentencePair)
  {
    s.f != [] ==> t.vfSize > 0
  }

  predicate Readable(t: Table, b: Bitext)
  {
    forall n :: 0 <= n < |b| ==> ReadableFor(t, b[n])
  }

  /** Z: the sum of t(f, e) over the target tokens es. */
  function SumT(t: Table, f: Token, es: seq<Token>): real
    requires t.vfSize > 0
  {
    if es == [] then 0.0 else SumT(t, f, es[..|es| - 1]) + Get(t, (f, es[|es| - 1]))
  }

  /** Every read of a bounded table is positive, so Z is positive on a non-empty target side. */
  lemma {:induction false} SumTPositive(t: Table, f: Token, es: seq<Token>)
    requires t.vfSize > 0 && Bounded(t)
    ensures es != [] ==> SumT(t, f, es) > 0.0
    ensures forall j :: 0 <= j < |es| ==> 0.0 < Get(t, (f, es[j])) <= SumT(t, f, es)
  {
    if es != [] {
      var init := es[..|es| - 1];
      SumTPositive(t, f, init);
      assert forall j :: 0 <= j < |init| ==> es[j] == init[j];
    }
  }

  /** Lines 68-70: the normalizer Z of source token f, summed over the target tokens ue. */
  method Normalizer(t: Table, f: Token, ue: seq<Token>) returns (z: real)
    requires t.vfSize > 0
    ensures z == SumT(t, f, ue)
  {
    z := 0.0;
    for j := 0 to |ue|
      invariant z == SumT(t, f, ue[..j])
    {
      assert ue[..j + 1][..j] == ue[..j];
      z := z + Get(t, (f, ue[j]));
    }
    assert ue[..|ue|] == ue;
  }

  /**
   The responsibility `c = t(f, e) / Z` of target token p.1 for source token
   p.0 in sentence pair s, and 0 when they do not co-occur in s.
   */
  function Responsibility(t: Table, s: SentencePair, p: Pair): (c: real)
    requires ReadableFor(t, s) && Bounded(t)
    ensures c >= 0.0
    ensures c > 0.0 <==> p.0 in s.f && p.1 in s.e
  {
    if p.0 in s.f && p.1 in s.e then
      var ue := Unique(s.e);
      assert p.1 in ue;
      SumTPositive(t, p.0, ue);
      DivPositive(Get(t, p), SumT(t, p.0, ue));
      Get(t, p) / SumT(t, p.0, ue)
    else 0.0
  }

  lemma ResponsibilityIs(t: Table, s: SentencePair, p: Pair, z: real)
    requires ReadableFor(t, s) && Bounded(t) && p.0 in s.f && p.1 in s.e
    requires z == SumT(t, p.0, Unique(s.e))
    ensures z > 0.0 && Responsibility(t, s, p) == Get(t, p) / z
  {
    assert p.1 in Unique(s.e);
    SumTPositive(t, p.0, Unique(s.e));
  }

  /** The sum over es of the responsibilities of each of its tokens for f in s. */
  function SumResponsibilities(t: Table, s: SentencePair, f: Token, es: seq<Token>): real
    requires ReadableFor(t, s) && Bounded(t)
  {
    if es == [] then 0.0
    else SumResponsibilities(t, s, f, es[..|es| - 1]) + Responsibility(t, s, (f, es[|es| - 1]))
  }

  /**
   For a source token of a sentence pair with a non-empty target side, the
   responsibilities over its unique target tokens sum to 1.
   */
  lemma ResponsibilitiesSumToOne(t: Table, s: SentencePair, f: Token)
    requires ReadableFor(t, s) && Bounded(t)
    requires f in s.f && s.e != []
    ensures SumResponsibilities(t, s, f, Unique(s.e)) == 1.0
  {
    var ue := Unique(s.e);
    assert s.e[0] in ue;
    SumResponsibilitiesPrefix(t, s, f, ue, |ue|);
    assert ue[..|ue|] == ue;
    var z := SumT(t, f, ue);
    assert SumResponsibilities(t, s, f, ue) == z / z;
    DivSelf(z);
  }

  lemma {:induction false} SumResponsibilitiesPrefix(t: Table, s: SentencePair, f: Token, ue: seq<Token>, k: nat)
    requires ReadableFor(t, s) && Bounded(t)
    requires f in s.f && ue == Unique(s.e) && ue != [] && k <= |ue|
    ensures SumT(t, f, ue) > 0.0
    ensures SumResponsibilities(t, s, f, ue[..k]) == SumT(t, f, ue[..k]) / SumT(t, f, ue)
  {
    SumTPositive(t, f, ue);
    if k > 0 {
      SumResponsibilitiesPrefix(t, s, f, ue, k - 1);
      PrefixStep(t, s, f, ue, k);
    } else {
      assert ue[..0] == [];
      DivZero(SumT(t, f, ue));
    }
  }

  /** Proof step only: the prefix sums of length k follow from those of length k - 1. */
  lemma PrefixStep(t: Table, s: SentencePair, f: Token, ue: seq<Token>, k: nat)
    requires ReadableFor(t, s) && Bounded(t)
    requires f in s.f && ue == Unique(s.e) && 0 < k <= |ue| && SumT(t, f, ue) > 0.0
    requires SumResponsibilities(t, s, f, ue[..k - 1]) == SumT(t, f, ue[..k - 1]) / SumT(t, f, ue)
    ensures SumResponsibilities(t, s, f, ue[..k]) == SumT(t, f, ue[..k]) / SumT(t, f, ue)
  {
    var z := SumT(t, f, ue);
    var e := ue[k - 1];
    assert ue[..k][..k - 1] == ue[..k - 1] && ue[..k][k - 1] == e;
    assert e in s.e;
    ResponsibilityIs(t, s, (f, e), z);
    var r, a := SumResponsibilities(t, s, f, ue[..k - 1]), SumT(t, f, ue[..k - 1]);
    assert SumResponsibilities(t, s, f, ue[..k]) == r + Responsibility(t, s, (f, e));
    assert SumT(t, f, ue[..k]) == a + Get(t, (f, e));
    QuotientStep(r, a, Get(t, (f, e)), z, SumResponsibilities(t, s, f, ue[..k]), SumT(t, f, ue[..k]));
  }

  /** One step of a running sum of quotients: if r = a / z then r + g / z = (a + g) / z. */
  lemma QuotientStep(r: real, a: real, g: real, z: real, r': real, a': real)
    requires z > 0.0 && r == a / z && r' == r + g / z && a' == a + g
    ensures r' == a' / z
  {
    DivAdd(a, g, z);
  }

  /** The expected count of pair p after one expectation pass over b under table t. */
  function ExpectedCount(t: Table, b: Bitext, p: Pair): real
    requires Readable(t, b) && Bounded(t)
  {
    if b == [] then 0.0
    else
      assert forall n :: 0 <= n < |Init(b)| ==> Init(b)[n] == b[n];
      ExpectedCount(t, Init(b), p) + Responsibility(t, Last(b), p)
  }

  /** An expected count is positive exactly on the co-occurring pairs. */
  lemma {:induction false} ExpectedCountSupport(t: Table, b: Bitext, p: Pair)
    requires Readable(t, b) && Bounded(t)
    ensures ExpectedCount(t, b, p) >= 0.0
    ensures ExpectedCount(t, b, p) > 0.0 <==> p in CoPairs(b)
  {
    if b != [] {
      assert forall n :: 0 <= n < |Init(b)| ==> Init(b)[n] == b[n];
      ExpectedCountSupport(t, Init(b), p);
      PairsOfMembers(Last(b), p);
    }
  }

  /** The target tokens that receive expected counts: those that co-occur with some source token. */
  function Emitting(b: Bitext): set<Token>
  {
    set p | p in CoPairs(b) :: p.1
  }

  /** The keys of ks whose target token is e: e's column. */
  ghost function Column(ks: set<Pair>, e: Token): set<Pair>
  {
    set p | p in ks && p.1 == e
  }

  /**
   The accumulator invariant: `e_count[e]` is the sum of `fe_count` over e's
   column, and every column with an entry has its e_count.
   */
  ghost predicate Balanced(eCount: map<Token, real>, fe: map<Pair, real>)
  {
    && (forall p :: p in fe ==> p.1 in eCount)
    && (forall e :: e in eCount ==> eCount[e] == SumReal(Column(fe.Keys, e), fe))
  }

  ghost predicate PositiveValues<K>(m: map<K, real>)
  {
    forall k :: k in m ==> m[k] > 0.0
  }

  /** Adding the same c to `fe_count[p]` and `e_count[p.1]` keeps them balanced. */
  lemma AddKeepsBalance(eCount: map<Token, real>, fe: map<Pair, real>, p: Pair, c: real)
    requires Balanced(eCount, fe)
    ensures Balanced(eCount[p.1 := GetOr(eCount, p.1, 0.0) + c], fe[p := GetOr(fe, p, 0.0) + c])
  {
    var eCount' := eCount[p.1 := GetOr(eCount, p.1, 0.0) + c];
    var fe' := fe[p := GetOr(fe, p, 0.0) + c];
    forall e | e in eCount'
      ensures eCount'[e] == SumReal(Column(fe'.Keys, e), fe')
    {
      var ks := Column(fe.Keys, e);
      if e == p.1 {
        if p in fe {
          assert Column(fe'.Keys, e) == ks;
          SumRealUpdate(ks, fe, p, fe'[p]);
        } else {
          assert Column(fe'.Keys, e) == ks + {p};
          SumRealUpdate(ks, fe, p, fe'[p]);
          if e !in eCount {
            assert ks == {};
          }
        }
      } else {
        assert Column(fe'.Keys, e) == ks;
        SumRealUpdate(ks, fe, p, fe'[p]);
      }
    }
  }

  /** Lines 78-79: add the same responsibility c to `fe_count[p]` and to `e_count[p.1]`. */
  method AddResponsibility(eCount: map<Token, real>, fe: map<Pair, real>, p: Pair, c: real)
    returns (eCount': map<Token, real>, fe': map<Pair, real>)
    requires Balanced(eCount, fe) && PositiveValues(eCount) && PositiveValues(fe) && c > 0.0
    ensures Balanced(eCount', fe') && PositiveValues(eCount') && PositiveValues(fe')
    ensures forall q :: q in fe' <==> q in fe || q == p
    ensures forall q :: GetOr(fe', q, 0.0) == GetOr(fe, q, 0.0) + (if q == p then c else 0.0)
  {
    AddKeepsBalance(eCount, fe, p, c);
    fe' := fe[p := GetOr(fe, p, 0.0) + c];
    eCount' := eCount[p.1 := GetOr(eCount, p.1, 0.0) + c];
  }

  /** Proof step only: adding the responsibility of ue[j] extends the loop's facts from ue[..j] to ue[..j + 1]. */
  lemma RowStep(t: Table, fi: Token, z: real, ue: seq<Token>, j: nat,
                fe: map<Pair, real>, fe1: map<Pair, real>, fe2: map<Pair, real>)
    requires t.vfSize > 0 && z > 0.0 && j < |ue|
    requires forall p :: p in fe1 <==> p in fe || (p.0 == fi && p.1 in ue[..j])
    requires forall p ::
      GetOr(fe1, p, 0.0) == GetOr(fe, p, 0.0) + (if p.0 == fi && p.1 in ue[..j] then Get(t, p) / z else 0.0)
    requires forall q :: q in fe2 <==> q in fe1 || q == (fi, ue[j])
    requires forall q :: GetOr(fe2, q, 0.0) == GetOr(fe1, q, 0.0) + (if q == (fi, ue[j]) then Get(t, q) / z else 0.0)
    requires Distinct(ue)
    ensures forall p :: p in fe2 <==> p in fe || (p.0 == fi && p.1 in ue[..j + 1])
    ensures forall p ::
      GetOr(fe2, p, 0.0) == GetOr(fe, p, 0.0) + (if p.0 == fi && p.1 in ue[..j + 1] then Get(t, p) / z else 0.0)
  {
    assert ue[..j + 1] == ue[..j] + [ue[j]];
    assert ue[j] !in ue[..j];
  }

  /**
   Lines 71-79 for one source token fi: add `t(fi, e) / z` for each target
   token e of the distinct sequence ue to `fe_count` and `e_count`.
   */
  method AddRow(t: Table, fi: Token, z: real, ue: seq<Token>,
                eCount: map<Token, real>, fe: map<Pair, real>)
    returns (eCount': map<Token, real>, fe': map<Pair, real>)
    requires t.vfSize > 0 && Bounded(t) && z > 0.0 && Distinct(ue)
    requires Balanced(eCount, fe) && PositiveValues(eCount) && PositiveValues(fe)
    ensures Balanced(eCount', fe') && PositiveValues(eCount') && PositiveValues(fe')
    ensures forall p :: p in fe' <==> p in fe || (p.0 == fi && p.1 in ue)
    ensures forall p :: GetOr(fe', p, 0.0) == GetOr(fe, p, 0.0) + (if p.0 == fi && p.1 in ue then Get(t, p) / z else 0.0)
    ensures ue == [] ==> eCount' == eCount && fe' == fe
  {
    eCount', fe' := eCount, fe;
    for j := 0 to |ue|
      invariant Balanced(eCount', fe') && PositiveValues(eCount') && PositiveValues(fe')
      invariant forall p :: p in fe' <==> p in fe || (p.0 == fi && p.1 in ue[..j])
      invariant forall p ::
        GetOr(fe', p, 0.0) == GetOr(fe, p, 0.0) + (if p.0 == fi && p.1 in ue[..j] then Get(t, p) / z else 0.0)
      invariant ue == [] ==> eCount' == eCount && fe' == fe
    {
      var ej := ue[j];
      var c := Get(t, (fi, ej)) / z;
      DivPositive(Get(t, (fi, ej)), z);
      ghost var fe1 := fe';
      eCount', fe' := AddResponsibility(eCount', fe', (fi, ej), c);
      RowStep(t, fi, z, ue, j, fe, fe1, fe');
    }
    assert ue[..|ue|] == ue;
  }

  /**
   Lines 71-79 for one source token fi of s: add its responsibility for each
   unique target token to `fe_count` and `e_count`.
   */
  method AccumulateRow(t: Table, s: SentencePair, fi: Token, z: real,
                       eCount: map<Token, real>, fe: map<Pair, real>)
    returns (eCount': map<Token, real>, fe': map<Pair, real>)
    requires ReadableFor(t, s) && Bounded(t) && fi in s.f
    requires z == SumT(t, fi, Unique(s.e))
    requires Balanced(eCount, fe) && PositiveValues(eCount) && PositiveValues(fe)
    ensures Balanced(eCount', fe') && PositiveValues(eCount') && PositiveValues(fe')
    ensures forall p :: p in fe' <==> p in fe || (p.0 == fi && p.1 in s.e)
    ensures forall p :: GetOr(fe', p, 0.0) == GetOr(fe, p, 0.0) + (if p.0 == fi then Responsibility(t, s, p) else 0.0)
    ensures s.e == [] ==> eCount' == eCount && fe' == fe
  {
    var ue := Unique(s.e);
    if s.e == [] {
      eCount', fe' := eCount, fe;
    } else {
      assert s.e[0] in ue;
      SumTPositive(t, fi, ue);
      eCount', fe' := AddRow(t, fi, z, ue, eCount, fe);
      forall p: Pair | p.0 == fi && p.1 in s.e
        ensures Responsibility(t, s, p) == Get(t, p) / z
      {
        ResponsibilityIs(t, s, p, z);
      }
    }
  }

  /** Adding the row of a new source token fi to the rows of done gives the rows of done + {fi}. */
  lemma RowsAddUp(t: Table, s: SentencePair, fe: map<Pair, real>, fe1: map<Pair, real>, fe2: map<Pair, real>,
                  done: set<Token>, fi: Token)
    requires ReadableFor(t, s) && Bounded(t) && fi !in done
    requires forall p :: GetOr(fe1, p, 0.0) == GetOr(fe, p, 0.0) + (if p.0 in done then Responsibility(t, s, p) else 0.0)
    requires forall p :: GetOr(fe2, p, 0.0) == GetOr(fe1, p, 0.0) + (if p.0 == fi then Responsibility(t, s, p) else 0.0)
    ensures forall p ::
      GetOr(fe2, p, 0.0) == GetOr(fe, p, 0.0) + (if p.0 in done + {fi} then Responsibility(t, s, p) else 0.0)
  {
  }

  /**
   Lines 67-79 for one sentence pair: for every unique source token, compute
   Z and accumulate the responsibilities. A pair with an empty target side
   changes nothing.
   */
  method AccumulateSentence(t: Table, s: SentencePair, eCount: map<Token, real>, fe: map<Pair, real>)
    returns (eCount': map<Token, real>, fe': map<Pair, real>)
    requires ReadableFor(t, s) && Bounded(t)
    requires Balanced(eCount, fe) && PositiveValues(eCount) && PositiveValues(fe)
    ensures Balanced(eCount', fe') && PositiveValues(eCount') && PositiveValues(fe')
    ensures forall p :: p in fe' <==> p in fe || (p.0 in s.f && p.1 in s.e)
    ensures forall p :: GetOr(fe', p, 0.0) == GetOr(fe, p, 0.0) + Responsibility(t, s, p)
    ensures s.e == [] ==> eCount' == eCount && fe' == fe
  {
    var uf := Unique(s.f);
    eCount', fe' := eCount, fe;
    ghost var done: set<Token> := {};
    for i := 0 to |uf|
      invariant forall f :: f in done <==> f in uf[..i]
      invariant Balanced(eCount', fe') && PositiveValues(eCount') && PositiveValues(fe')
      invariant forall p :: p in fe' <==> p in fe || (p.0 in done && p.1 in s.e)
      invariant forall p :: GetOr(fe', p, 0.0) == GetOr(fe, p, 0.0) + (if p.0 in done then Responsibility(t, s, p) else 0.0)
      invariant s.e == [] ==> eCount' == eCount && fe' == fe
    {
      var fi := uf[i];
      assert uf[..i + 1] == uf[..i] + [fi];
      assert fi !in done;
      var z := Normalizer(t, fi, Unique(s.e));
      ghost var fe1 := fe';
      eCount', fe' := AccumulateRow(t, s, fi, z, eCount', fe');
      RowsAddUp(t, s, fe, fe1, fe', done, fi);
      done := done + {fi};
    }
    assert uf[..|uf|] == uf;
  }

  /**
   Lines 62-79: reset the accumulators and run the expectation pass over the
   corpus. `fe_count` ends up with the expected count of every co-occurring
   pair and `e_count` balanced against it.
   */
  method ExpectationStep(t: Table, b: Bitext) returns (eCount: map<Token, real>, fe: map<Pair, real>)
    requires Readable(t, b) && Bounded(t)
    ensures Balanced(eCount, fe) && PositiveValues(eCount) && PositiveValues(fe)
    ensures forall p :: p in fe <==> p in CoPairs(b)
    ensures forall p :: p in fe ==> fe[p] == ExpectedCount(t, b, p)
  {
    eCount, fe := map[], map[];
    for n := 0 to |b|
      invariant Readable(t, b[..n])
      invariant Balanced(eCount, fe) && PositiveValues(eCount) && PositiveValues(fe)
      invariant forall p :: p in fe <==> p in CoPairs(b[..n])
      invariant forall p :: p in fe ==> fe[p] == ExpectedCount(t, b[..n], p)
    {
      assert Init(b[..n + 1]) == b[..n] && Last(b[..n + 1]) == b[n];
      assert Readable(t, b[..n + 1]);
      ghost var fe0 := fe;
      eCount, fe := AccumulateSentence(t, b[n], eCount, fe);
      forall p | p in fe ensures fe[p] == ExpectedCount(t, b[..n + 1], p) {
        PairsOfMembers(b[n], p);
        ExpectedCountSupport(t, b[..n], p);
      }
      forall p ensures p in fe <==> p in CoPairs(b[..n + 1]) {
        PairsOfMembers(b[n], p);
      }
    }
    assert b[..|b|] == b;
  }

  /** The table after overwriting `t(f, e) = fe[(f, e)] / eCount[e]` at the keys of fe. */
  function Maximize(t: Table, eCount: map<Token, real>, fe: map<Pair, real>): Table
    requires forall p :: p in fe ==> p.1 in eCount && eCount[p.1] != 0.0
  {
    Table(map p | p in t.written.Keys + fe.Keys :: if p in fe then fe[p] / eCount[p.1] else t.written[p], t.vfSize)
  }

  /** Maximization only reads `e_count` at the target tokens of `fe_count`. */
  lemma MaximizeReadsColumns(t: Table, c1: map<Token, real>, c2: map<Token, real>, fe: map<Pair, real>)
    requires forall p :: p in fe ==> p.1 in c1 && c1[p.1] != 0.0
    requires forall p :: p in fe ==> p.1 in c2 && c2[p.1] == c1[p.1]
    ensures Maximize(t, c1, fe) == Maximize(t, c2, fe)
  {
    MapsEqual(Maximize(t, c1, fe).written, Maximize(t, c2, fe).written);
  }

  /**
   Lines 81-82: overwrite `t(f, e) = fe_count[(f, e)] / e_count[e]` for exactly
   the keys of `fe_count`; every other entry keeps its value.
   */
  method MaximizationStep(t: Table, eCount: map<Token, real>, fe: map<Pair, real>) returns (t': Table)
    requires forall p :: p in fe ==> p.1 in eCount && eCount[p.1] != 0.0
    ensures t' == Maximize(t, eCount, fe)
    ensures t'.vfSize == t.vfSize
    ensures forall p :: p in t'.written <==> p in t.written || p in fe
    ensures forall p :: p in fe ==> t'.written[p] == fe[p] / eCount[p.1]
    ensures forall p :: p in t.written && p !in fe ==> t'.written[p] == t.written[p]
  {
    var w := t.written;
    var todo := fe.Keys;
    while todo != {}
      invariant todo <= fe.Keys
      invariant forall p :: p in w <==> p in t.written || p in fe.Keys - todo
      invariant forall p :: p in fe.Keys - todo ==> w[p] == fe[p] / eCount[p.1]
      invariant forall p :: p in t.written && p !in fe.Keys - todo ==> w[p] == t.written[p]
      decreases |todo|
    {
      var p :| p in todo;
      w := w[p := fe[p] / eCount[p.1]];
      todo := todo - {p};
    }
    t' := Table(w, t.vfSize);
    IsMaximize(t, eCount, fe, w);
  }

  /** Proof step only: a map that overwrites t exactly at the keys of fe, with the quotients, is the maximization. */
  lemma IsMaximize(t: Table, eCount: map<Token, real>, fe: map<Pair, real>, w: map<Pair, real>)
    requires forall p :: p in fe ==> p.1 in eCount && eCount[p.1] != 0.0
    requires forall p :: p in w <==> p in t.written || p in fe
    requires forall p :: p in fe ==> w[p] == fe[p] / eCount[p.1]
    requires forall p :: p in t.written && p !in fe ==> w[p] == t.written[p]
    ensures Table(w, t.vfSize) == Maximize(t, eCount, fe)
  {
    MapsEqual(w, Maximize(t, eCount, fe).written);
  }

  /**
   After a maximization pass on balanced accumulators, t sums to 1 over every
   column of `fe_count`, and every entry written lies in (0, 1].
   */
  lemma MaximizationNormalizes(eCount: map<Token, real>, fe: map<Pair, real>, w: map<Pair, real>)
    requires Balanced(eCount, fe) && PositiveValues(eCount) && PositiveValues(fe)
    requires forall p :: p in fe ==> p in w && w[p] == fe[p] / eCount[p.1]
    ensures forall e :: e in eCount ==> SumReal(Column(fe.Keys, e), w) == 1.0
    ensures forall p :: p in fe ==> 0.0 < w[p] <= 1.0
  {
    forall e | e in eCount ensures SumReal(Column(fe.Keys, e), w) == 1.0 {
      SumRealScale(Column(fe.Keys, e), fe, w, eCount[e]);
      DivSelf(eCount[e]);
    }
    forall p | p in fe ensures 0.0 < w[p] <= 1.0 {
      SumRealPositive(Column(fe.Keys, p.1), fe);
      DivAtMostOne(fe[p], eCount[p.1]);
    }
  }

  /** The expected counts of one expectation pass over b, on the co-occurring pairs. */
  ghost function Expected(t: Table, b: Bitext): map<Pair, real>
    requires Readable(t, b) && Bounded(t)
  {
    map p | p in CoPairs(b) :: ExpectedCount(t, b, p)
  }

  /**
   The expected count of target token e: the sum of e's column of expected
   counts, positive for a token that co-occurs with something.
   */
  ghost function ColumnCount(t: Table, b: Bitext, e: Token): (c: real)
    requires Readable(t, b) && Bounded(t)
    ensures e in Emitting(b) ==> c > 0.0
  {
    ColumnPositive(t, b, e);
    SumReal(Column(CoPairs(b), e), Expected(t, b))
  }

  lemma ColumnPositive(t: Table, b: Bitext, e: Token)
    requires Readable(t, b) && Bounded(t)
    ensures e in Emitting(b) ==> SumReal(Column(CoPairs(b), e), Expected(t, b)) > 0.0
  {
    var fe := Expected(t, b);
    if e in Emitting(b) {
      var p :| p in CoPairs(b) && p.1 == e;
      assert p in Column(CoPairs(b), e);
      forall q | q in Column(CoPairs(b), e) ensures fe[q] > 0.0 {
        ExpectedCountSupport(t, b, q);
      }
      SumRealPositive(Column(CoPairs(b), e), fe);
    }
  }

  /** The expected count of every target token that co-occurs with something. */
  ghost function ColumnCounts(t: Table, b: Bitext): (c: map<Token, real>)
    requires Readable(t, b) && Bounded(t)
    ensures forall p :: p in CoPairs(b) ==> p.1 in c && c[p.1] > 0.0
  {
    var c := map e | e in Emitting(b) :: ColumnCount(t, b, e);
    assert forall p :: p in CoPairs(b) ==> p.1 in Emitting(b);
    c
  }

  /**
   One EM pass as a function of the table: every co-occurring pair gets its
   expected count divided by the expected count of its target token; every
   other entry and the default stay.
   */
  ghost function EmStep(t: Table, b: Bitext): Table
    requires Readable(t, b) && Bounded(t)
  {
    Maximize(t, ColumnCounts(t, b), Expected(t, b))
  }

  /**
   An EM pass writes exactly the co-occurring pairs, each in (0, 1], keeps
   every other entry and the default, and makes t sum to 1 over the column
   of every target token that co-occurs with something.
   */
  lemma EmStepNormalizes(t: Table, b: Bitext)
    requires Readable(t, b) && Bounded(t)
    ensures EmStep(t, b).vfSize == t.vfSize && Bounded(EmStep(t, b))
    ensures forall p :: p in EmStep(t, b).written <==> p in t.written || p in CoPairs(b)
    ensures forall p :: p in t.written && p !in CoPairs(b) ==> EmStep(t, b).written[p] == t.written[p]
    ensures forall e :: e in Emitting(b) ==> SumReal(Column(CoPairs(b), e), EmStep(t, b).written) == 1.0
  {
    var fe := Expected(t, b);
    var eCount := ColumnCounts(t, b);
    forall p | p in fe ensures fe[p] > 0.0 {
      ExpectedCountSupport(t, b, p);
    }
    assert fe.Keys == CoPairs(b);
    forall p | p in fe ensures p.1 in eCount {
      assert p.1 in Emitting(b);
    }
    MaximizationNormalizes(eCount, fe, EmStep(t, b).written);
  }

  /** numIter EM passes from table t0. */
  ghost function Iterate(t0: Table, b: Bitext, numIter: nat): (t: Table)
    requires Readable(t0, b) && Bounded(t0)
    ensures t.vfSize == t0.vfSize && Bounded(t)
  {
    if numIter == 0 then t0
    else
      var t := Iterate(t0, b, numIter - 1);
      EmStepNormalizes(t, b);
      EmStep(t, b)
  }

  /**
   After k passes exactly the pairs written before and, once a pass has run,
   the co-occurring pairs are written; other pairs keep their values and
   every column of a co-occurring target token sums to 1.
   */
  lemma {:induction false} IterateNormalizes(t0: Table, b: Bitext, k: nat)
    requires Readable(t0, b) && Bounded(t0)
    ensures forall p :: p in Iterate(t0, b, k).written <==> p in t0.written || (k > 0 && p in CoPairs(b))
    ensures forall p :: p in t0.written && p !in CoPairs(b) ==> Iterate(t0, b, k).written[p] == t0.written[p]
    ensures k > 0 ==>
      forall e :: e in Emitting(b) ==> SumReal(Column(CoPairs(b), e), Iterate(t0, b, k).written) == 1.0
  {
    if k == 1 {
      OnePass(t0, b, 1);
    } else if k > 1 {
      IterateNormalizes(t0, b, k - 1);
      OnePass(t0, b, k);
      PassComposes(t0.written, Iterate(t0, b, k - 1).written, Iterate(t0, b, k).written, CoPairs(b));
    }
  }

  /** Proof step only: pass k, in terms of the table after k - 1 passes. */
  lemma OnePass(t0: Table, b: Bitext, k: nat)
    requires Readable(t0, b) && Bounded(t0) && k > 0
    ensures forall p :: p in Iterate(t0, b, k).written <==> p in Iterate(t0, b, k - 1).written || p in CoPairs(b)
    ensures forall p :: p in Iterate(t0, b, k - 1).written && p !in CoPairs(b) ==>
      Iterate(t0, b, k).written[p] == Iterate(t0, b, k - 1).written[p]
    ensures forall e :: e in Emitting(b) ==> SumReal(Column(CoPairs(b), e), Iterate(t0, b, k).written) == 1.0
  {
    EmStepNormalizes(Iterate(t0, b, k - 1), b);
  }

  /** Proof step only: the key and frame facts of k - 1 passes and of one more pass give those of k passes. */
  lemma PassComposes(w0: map<Pair, real>, w: map<Pair, real>, w': map<Pair, real>, c: set<Pair>)
    requires forall p :: p in w <==> p in w0 || p in c
    requires forall p :: p in w0 && p !in c ==> w[p] == w0[p]
    requires forall p :: p in w' <==> p in w || p in c
    requires forall p :: p in w && p !in c ==> w'[p] == w[p]
    ensures forall p :: p in w' <==> p in w0 || p in c
    ensures forall p :: p in w0 && p !in c ==> w'[p] == w0[p]
  {
  }

  /** A balanced `e_count` next to the expected counts holds each column's expected count. */
  lemma ColumnIsCount(t: Table, b: Bitext, eCount: map<Token, real>, fe: map<Pair, real>, e: Token)
    requires Readable(t, b) && Bounded(t) && Balanced(eCount, fe) && fe == Expected(t, b) && e in eCount
    ensures eCount[e] == ColumnCount(t, b, e)
  {
    assert fe.Keys == CoPairs(b);
  }

  /**
   One EM pass (lines 62-82): the new table is `EmStep` of the old one, so it
   is normalized over the column of every target token that received counts,
   and only co-occurring pairs change.
   */
  method EmIteration(t: Table, b: Bitext) returns (t': Table)
    requires Readable(t, b) && Bounded(t)
    ensures t' == EmStep(t, b)
    ensures t'.vfSize == t.vfSize && Bounded(t')
    ensures forall p :: p in t'.written <==> p in t.written || p in CoPairs(b)
    ensures forall p :: p in t.written && p !in CoPairs(b) ==> t'.written[p] == t.written[p]
    ensures forall e :: e in Emitting(b) ==> SumReal(Column(CoPairs(b), e), t'.written) == 1.0
  {
    var eCount, fe := ExpectationStep(t, b);
    t' := MaximizationStep(t, eCount, fe);
    MapsEqual(fe, Expected(t, b));
    forall p | p in fe ensures p.1 in eCount && eCount[p.1] == ColumnCounts(t, b)[p.1] {
      ColumnIsCount(t, b, eCount, fe, p.1);
    }
    MaximizeReadsColumns(t, eCount, ColumnCounts(t, b), fe);
    EmStepNormalizes(t, b);
  }

  /**
   Lines 61-82: numIter EM passes from table t0, that is `Iterate`. The
   uniform default is never recomputed, pairs that never co-occur keep their
   entry (or lack of one), and after at least one pass the table is
   normalized over every column.
   */
  method Train(t0: Table, b: Bitext, numIter: nat) returns (t: Table)
    requires Readable(t0, b) && Bounded(t0)
    ensures t == Iterate(t0, b, numIter)
    ensures t.vfSize == t0.vfSize && Bounded(t)
    ensures forall p :: p in t.written <==> p in t0.written || (numIter > 0 && p in CoPairs(b))
    ensures forall p :: p in t0.written && p !in CoPairs(b) ==> t.written[p] == t0.written[p]
    ensures numIter > 0 ==>
      forall e :: e in Emitting(b) ==> SumReal(Column(CoPairs(b), e), t.written) == 1.0
  {
    t := t0;
    for k := 0 to numIter
      invariant t == Iterate(t0, b, k)
      invariant forall p :: p in t.written <==> p in t0.written || (k > 0 && p in CoPairs(b))
      invariant forall p :: p in t0.written && p !in CoPairs(b) ==> t.written[p] == t0.written[p]
      invariant k > 0 ==>
        forall e :: e in Emitting(b) ==> SumReal(Column(CoPairs(b), e), t.written) == 1.0
    {
      t := EmIteration(t, b);
    }
  }
}
