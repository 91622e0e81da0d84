/**
 The averaged-perceptron trainer of the phrasal chunker: per sentence, the
 -1/+1 updates of the feature weights at every mispredicted position, the
 running sum sigma of the weights after every sentence, and the final
 average. The tagger is a parameter.
 */
module Perceptron {
  import opened SparseMaps

  type Tag = string

  /** A feature id: a feature of the input (or a "B:" bigram) paired with an output tag. */
  type FeatureKey = (string, Tag)

  /** `feat_vec`: the sparse weight vector, 0 where absent. */
  type Weights = map<FeatureKey, int>

  /** The number of feature strings each word position has in `sentence[1]`. */
  const Window: nat := 20

  const BigramPrefix: string := "B:"

  /** One training sentence: its words, its flat feature list, and its true tags. */
  datatype Sentence = Sentence(words: seq<string>, feats: seq<string>, labels: seq<Tag>)

  /** `perc.perc_test(feat_vec, words, feats, tagset, default_tag)`: the Viterbi tagger. */
  type Tagger = (Weights, seq<string>, seq<string>, seq<Tag>, Tag) -> seq<Tag>

  /** The bigram feature `("B:" + prev, cur)`. */
  function BigramKey(prev: Tag, cur: Tag): FeatureKey
  {
    (BigramPrefix + prev, cur)
  }

  /** +1 if k is the key rewarded, -1 if it is the key penalized. */
  function Contribution(k: FeatureKey, plus: FeatureKey, minus: FeatureKey): int
  {
    (if k == plus then 1 else 0) - (if k == minus then 1 else 0)
  }

  /* ------------------------------------------------------- the update rule */

  /** The net change to k from features lo..hi-1, penalized with tag p and rewarded with tag q. */
  function WindowDelta(feats: seq<string>, p: Tag, q: Tag, lo: nat, hi: nat, k: FeatureKey): int
    requires lo <= hi <= |feats|
    decreases hi - lo
  {
    if hi == lo then 0
    else WindowDelta(feats, p, q, lo, hi - 1, k) + Contribution(k, (feats[hi - 1], q), (feats[hi - 1], p))
  }

  /** The keys the window lo..hi-1 writes. */
  function WindowKeys(feats: seq<string>, p: Tag, q: Tag, lo: nat, hi: nat): set<FeatureKey>
    requires lo <= hi <= |feats|
    decreases hi - lo
  {
    if hi == lo then {} else WindowKeys(feats, p, q, lo, hi - 1) + {(feats[hi - 1], p), (feats[hi - 1], q)}
  }

  /** The first n positions can be processed: every true tag exists, and every mispredicted position has its features. */
  predicate InRangeUpTo(feats: seq<string>, pred: seq<Tag>, truth: seq<Tag>, n: nat)
  {
    && n <= |pred| && n <= |truth|
    && forall i :: 0 <= i < n && pred[i] != truth[i] ==> Window * (i + 1) <= |feats|
  }

  /** The whole sentence can be processed without an IndexError. */
  predicate InRange(feats: seq<string>, pred: seq<Tag>, truth: seq<Tag>)
  {
    |pred| <= |truth| && InRangeUpTo(feats, pred, truth, |pred|)
  }

  /**
   The change to k at position i: nothing when the tag is right; otherwise
   -1/+1 for each of its features with the predicted/true tag and, past the
   first position, -1/+1 for the predicted/true bigram.
   */
  function PositionDelta(feats: seq<string>, pred: seq<Tag>, truth: seq<Tag>, i: nat, k: FeatureKey): int
    requires InRangeUpTo(feats, pred, truth, i + 1)
  {
    if pred[i] == truth[i] then 0
    else
      WindowDelta(feats, pred[i], truth[i], Window * i, Window * (i + 1), k)
      + (if i > 0 then Contribution(k, BigramKey(truth[i - 1], truth[i]), BigramKey(pred[i - 1], pred[i])) else 0)
  }

  /** The keys position i writes. */
  function PositionKeys(feats: seq<string>, pred: seq<Tag>, truth: seq<Tag>, i: nat): set<FeatureKey>
    requires InRangeUpTo(feats, pred, truth, i + 1)
  {
    if pred[i] == truth[i] then {}
    else
      WindowKeys(feats, pred[i], truth[i], Window * i, Window * (i + 1))
      + (if i > 0 then {BigramKey(pred[i - 1], pred[i]), BigramKey(truth[i - 1], truth[i])} else {})
  }

  /** The change to k from the first n positions. */
  function Delta(feats: seq<string>, pred: seq<Tag>, truth: seq<Tag>, n: nat, k: FeatureKey): int
    requires InRangeUpTo(feats, pred, truth, n)
  {
    if n == 0 then 0 else Delta(feats, pred, truth, n - 1, k) + PositionDelta(feats, pred, truth, n - 1, k)
  }

  /** The keys the first n positions write (zeros included: a key is stored once written). */
  function Touched(feats: seq<string>, pred: seq<Tag>, truth: seq<Tag>, n: nat): set<FeatureKey>
    requires InRangeUpTo(feats, pred, truth, n)
  {
    if n == 0 then {} else Touched(feats, pred, truth, n - 1) + PositionKeys(feats, pred, truth, n - 1)
  }

  /** The number of positions below n whose predicted tag differs from the true one. */
  function Mispredictions(pred: seq<Tag>, truth: seq<Tag>, n: nat): nat
    requires n <= |pred|
  {
    if n == 0 then 0
    else Mispredictions(pred, truth, n - 1) + (if n - 1 < |truth| && pred[n - 1] != truth[n - 1] then 1 else 0)
  }

  /** `feat_vec` after the updates for one sentence. */
  function Updated(fv: Weights, feats: seq<string>, pred: seq<Tag>, truth: seq<Tag>): Weights
    requires InRange(feats, pred, truth)
  {
    map k | k in fv.Keys + Touched(feats, pred, truth, |pred|) :: GetOr(fv, k, 0) + Delta(feats, pred, truth, |pred|, k)
  }

  /* --------------------------------------------------- properties of the rule */

  lemma {:induction false} WindowDeltaOutside(feats: seq<string>, p: Tag, q: Tag, lo: nat, hi: nat, k: FeatureKey)
    requires lo <= hi <= |feats| && k !in WindowKeys(feats, p, q, lo, hi)
    ensures WindowDelta(feats, p, q, lo, hi, k) == 0
    decreases hi - lo
  {
    if hi > lo {
      WindowDeltaOutside(feats, p, q, lo, hi - 1, k);
    }
  }

  /** Frame: a key no update names has no change. */
  lemma {:induction false} DeltaOutside(feats: seq<string>, pred: seq<Tag>, truth: seq<Tag>, n: nat, k: FeatureKey)
    requires InRangeUpTo(feats, pred, truth, n) && k !in Touched(feats, pred, truth, n)
    ensures Delta(feats, pred, truth, n, k) == 0
  {
    if n > 0 {
      DeltaOutside(feats, pred, truth, n - 1, k);
      var i := n - 1;
      if pred[i] != truth[i] {
        WindowDeltaOutside(feats, pred[i], truth[i], Window * i, Window * (i + 1), k);
      }
    }
  }

  /** Lines 55-76: every entry outside the named keys is untouched, and no key is removed. */
  lemma UpdatedFrame(fv: Weights, feats: seq<string>, pred: seq<Tag>, truth: seq<Tag>, k: FeatureKey)
    requires InRange(feats, pred, truth) && k !in Touched(feats, pred, truth, |pred|)
    ensures k in Updated(fv, feats, pred, truth) <==> k in fv
    ensures GetOr(Updated(fv, feats, pred, truth), k, 0) == GetOr(fv, k, 0)
  {
    DeltaOutside(feats, pred, truth, |pred|, k);
  }

  lemma {:induction false} NoMispredictionNoKeys(feats: seq<string>, pred: seq<Tag>, truth: seq<Tag>, n: nat)
    requires InRangeUpTo(feats, pred, truth, n) && Mispredictions(pred, truth, n) == 0
    ensures Touched(feats, pred, truth, n) == {}
  {
    if n > 0 {
      NoMispredictionNoKeys(feats, pred, truth, n - 1);
    }
  }

  /**
   Lines 49-51: a position whose own tag is right is skipped even when the
   bigram ending there is wrong (its previous tag was mispredicted): it
   writes no key, changes no weight, and the first i + 1 positions update
   exactly what the first i do.
   */
  lemma WrongBigramRightTag(feats: seq<string>, pred: seq<Tag>, truth: seq<Tag>, i: nat)
    requires InRangeUpTo(feats, pred, truth, i + 1)
    requires 0 < i && pred[i] == truth[i] && pred[i - 1] != truth[i - 1]
    ensures BigramKey(pred[i - 1], pred[i]) != BigramKey(truth[i - 1], truth[i])
    ensures PositionKeys(feats, pred, truth, i) == {}
    ensures forall k :: PositionDelta(feats, pred, truth, i, k) == 0
    ensures Touched(feats, pred, truth, i + 1) == Touched(feats, pred, truth, i)
    ensures forall k :: Delta(feats, pred, truth, i + 1, k) == Delta(feats, pred, truth, i, k)
  {
    assert (BigramPrefix + pred[i - 1])[|BigramPrefix|..] == pred[i - 1];
    assert (BigramPrefix + truth[i - 1])[|BigramPrefix|..] == truth[i - 1];
  }

  /** Lines 49-51: a sentence tagged right at every position leaves `feat_vec` unchanged. */
  lemma NoMistakesNoChange(fv: Weights, feats: seq<string>, pred: seq<Tag>, truth: seq<Tag>)
    requires InRange(feats, pred, truth) && Mispredictions(pred, truth, |pred|) == 0
    ensures Updated(fv, feats, pred, truth) == fv
  {
    NoMispredictionNoKeys(feats, pred, truth, |pred|);
    forall k | k in fv ensures Updated(fv, feats, pred, truth)[k] == fv[k] {
      DeltaOutside(feats, pred, truth, |pred|, k);
    }
  }

  /* ------------------------------------------------------------- updates */

  /** Lines 57-60 (and 62-65, 69-76): add d to `feat_vec[key]`, starting from d when it is absent. */
  method Bump(fv: Weights, key: FeatureKey, d: int) returns (fv': Weights)
    ensures forall k :: k in fv' <==> k in fv || k == key
    ensures forall k :: GetOr(fv', k, 0) == GetOr(fv, k, 0) + (if k == key then d else 0)
    ensures Total(fv') == Total(fv) + d
  {
    TotalBump(fv, key, d);
    if key in fv {
      fv' := fv[key := fv[key] + d];
    } else {
      fv' := fv[key := d];
    }
  }

  /** Lines 55-65: -1 for (feature, p) and +1 for (feature, q), for the features lo..hi-1. */
  method UpdateWindow(fv: Weights, feats: seq<string>, p: Tag, q: Tag, lo: nat, hi: nat) returns (fv': Weights)
    requires lo <= hi <= |feats|
    ensures forall k :: k in fv' <==> k in fv || k in WindowKeys(feats, p, q, lo, hi)
    ensures forall k :: GetOr(fv', k, 0) == GetOr(fv, k, 0) + WindowDelta(feats, p, q, lo, hi, k)
    ensures Total(fv') == Total(fv)
  {
    fv' := fv;
    for j := lo to hi
      invariant forall k :: k in fv' <==> k in fv || k in WindowKeys(feats, p, q, lo, j)
      invariant forall k :: GetOr(fv', k, 0) == GetOr(fv, k, 0) + WindowDelta(feats, p, q, lo, j, k)
      invariant Total(fv') == Total(fv)
    {
      fv' := Bump(fv', (feats[j], p), -1);
      fv' := Bump(fv', (feats[j], q), 1);
    }
  }

  /** Lines 55-76 for one mispredicted position i, whose features end at count. */
  method UpdatePosition(fv: Weights, feats: seq<string>, pred: seq<Tag>, truth: seq<Tag>, i: nat, count: nat)
    returns (fv': Weights)
    requires InRangeUpTo(feats, pred, truth, i + 1) && pred[i] != truth[i] && count == Window * (i + 1)
    ensures forall k :: k in fv' <==> k in fv || k in PositionKeys(feats, pred, truth, i)
    ensures forall k :: GetOr(fv', k, 0) == GetOr(fv, k, 0) + PositionDelta(feats, pred, truth, i, k)
    ensures Total(fv') == Total(fv)
  {
    fv' := UpdateWindow(fv, feats, pred[i], truth[i], count - Window, count);
    if i > 0 {
      fv' := Bump(fv', BigramKey(pred[i - 1], pred[i]), -1);
      fv' := Bump(fv', BigramKey(truth[i - 1], truth[i]), 1);
    }
  }

  /** Two maps with the same keys and the same defaulted reads are equal. */
  lemma SameReads(a: Weights, b: Weights)
    requires forall k :: k in a <==> k in b
    requires forall k :: GetOr(a, k, 0) == GetOr(b, k, 0)
    ensures a == b
  {
    forall k | k in a ensures a[k] == b[k] {
      assert GetOr(a, k, 0) == GetOr(b, k, 0);
    }
  }

  /**
   Lines 46-76 for one sentence with prediction pred: fails exactly when an
   index runs out (a missing true tag, or a mispredicted position without its
   20 features); otherwise `feat_vec` becomes `Updated`, its total is kept
   (every -1 has its +1), and every mispredicted position is one mistake.
   */
  method UpdateSentence(fv: Weights, feats: seq<string>, pred: seq<Tag>, truth: seq<Tag>, mistakes: nat)
    returns (ok: bool, fv': Weights, mistakes': nat)
    ensures ok <==> InRange(feats, pred, truth)
    ensures ok ==> fv' == Updated(fv, feats, pred, truth)
    ensures ok ==> Total(fv') == Total(fv)
    ensures ok ==> mistakes' == mistakes + Mispredictions(pred, truth, |pred|)
  {
    fv', mistakes' := fv, mistakes;
    var count := 0;
    for i := 0 to |pred|
      invariant count == Window * i
      invariant InRangeUpTo(feats, pred, truth, i)
      invariant forall k :: k in fv' <==> k in fv || k in Touched(feats, pred, truth, i)
      invariant forall k :: GetOr(fv', k, 0) == GetOr(fv, k, 0) + Delta(feats, pred, truth, i, k)
      invariant Total(fv') == Total(fv)
      invariant mistakes' == mistakes + Mispredictions(pred, truth, i)
    {
      count := count + Window;
      if i >= |truth| {
        // `true[i]` raises IndexError
        return false, fv', mistakes';
      }
      if pred[i] != truth[i] {
        mistakes' := mistakes' + 1;
        if count > |feats| {
          // `sentence[1][j]` raises IndexError at j = len(sentence[1])
          return false, fv', mistakes';
        }
        fv' := UpdatePosition(fv', feats, pred, truth, i, count);
      }
    }
    ok := true;
    SameReads(fv', Updated(fv, feats, pred, truth));
  }

  /* ---------------------------------------------------- sigma and averaging */

  /** Adding fv[k] for a key k not yet added extends the keys added so far by k. */
  lemma SigmaAddsUp(sigma: Weights, s1: Weights, s2: Weights, fv: Weights, done: set<FeatureKey>, k: FeatureKey)
    requires k in fv && k !in done && done <= fv.Keys
    requires forall q :: q in s1 <==> q in sigma || q in done
    requires forall q :: GetOr(s1, q, 0) == GetOr(sigma, q, 0) + (if q in done then fv[q] else 0)
    requires forall q :: q in s2 <==> q in s1 || q == k
    requires forall q :: GetOr(s2, q, 0) == GetOr(s1, q, 0) + (if q == k then fv[k] else 0)
    ensures forall q :: q in s2 <==> q in sigma || q in done + {k}
    ensures forall q :: GetOr(s2, q, 0) == GetOr(sigma, q, 0) + (if q in done + {k} then fv[q] else 0)
  {
  }

  /**
   Proof step only, with no counterpart in the source: moving k from the keys
   still to visit to the keys visited keeps the loop's bookkeeping.
   */
  lemma MoveToDone<K>(keys: set<K>, done: set<K>, todo: set<K>, k: K)
    requires done <= keys && todo == keys - done && k in todo
    ensures done + {k} <= keys && todo - {k} == keys - (done + {k}) && |todo - {k}| < |todo|
  {
  }

  /** Proof step only: one bump of sigma by fv[k] keeps every invariant of the loop of lines 79-83. */
  lemma SigmaStep(sigma: Weights, s1: Weights, s2: Weights, fv: Weights, done: set<FeatureKey>,
                  todo: set<FeatureKey>, k: FeatureKey)
    requires done <= fv.Keys && todo == fv.Keys - done && k in todo
    requires forall q :: q in s1 <==> q in sigma || q in done
    requires forall q :: GetOr(s1, q, 0) == GetOr(sigma, q, 0) + (if q in done then fv[q] else 0)
    requires Total(s1) == Total(sigma) + SumInt(done, fv)
    requires forall q :: q in s2 <==> q in s1 || q == k
    requires forall q :: GetOr(s2, q, 0) == GetOr(s1, q, 0) + (if q == k then fv[k] else 0)
    requires Total(s2) == Total(s1) + fv[k]
    ensures done + {k} <= fv.Keys && todo - {k} == fv.Keys - (done + {k}) && |todo - {k}| < |todo|
    ensures forall q :: q in s2 <==> q in sigma || q in done + {k}
    ensures forall q :: GetOr(s2, q, 0) == GetOr(sigma, q, 0) + (if q in done + {k} then fv[q] else 0)
    ensures Total(s2) == Total(sigma) + SumInt(done + {k}, fv)
  {
    SigmaAddsUp(sigma, s1, s2, fv, done, k);
    SumIntAdd(done, fv, k);
    MoveToDone(fv.Keys, done, todo, k);
  }

  /** Lines 79-83: add every entry of `feat_vec` to sigma, starting from the weight when absent. */
  method AccumulateSigma(sigma: Weights, fv: Weights) returns (sigma': Weights)
    ensures forall k :: k in sigma' <==> k in sigma || k in fv
    ensures forall k :: GetOr(sigma', k, 0) == GetOr(sigma, k, 0) + GetOr(fv, k, 0)
    ensures Total(sigma') == Total(sigma) + Total(fv)
  {
    sigma' := sigma;
    var todo := fv.Keys;
    ghost var done: set<FeatureKey> := {};
    while todo != {}
      invariant done <= fv.Keys && todo == fv.Keys - done
      invariant forall k :: k in sigma' <==> k in sigma || k in done
      invariant forall k :: GetOr(sigma', k, 0) == GetOr(sigma, k, 0) + (if k in done then fv[k] else 0)
      invariant Total(sigma') == Total(sigma) + SumInt(done, fv)
      decreases |todo|
    {
      var k :| k in todo;
      ghost var s1 := sigma';
      sigma' := Bump(sigma', k, fv[k]);
      SigmaStep(sigma, s1, sigma', fv, done, todo, k);
      done := done + {k};
      todo := todo - {k};
    }
    assert done == fv.Keys;
  }

  /** Lines 88-89: divide every entry of sigma by the number of updates it summed. */
  method Average(sigma: Weights, divisor: int) returns (avg: map<FeatureKey, real>)
    requires sigma == map[] || divisor != 0
    ensures forall k :: k in avg <==> k in sigma
    ensures forall k :: k in avg ==> avg[k] == sigma[k] as real / divisor as real
    ensures divisor != 0 ==> SumReal(avg.Keys, avg) == Total(sigma) as real / divisor as real
  {
    avg := map[];
    var todo := sigma.Keys;
    while todo != {}
      invariant todo <= sigma.Keys
      invariant forall k :: k in avg <==> k in sigma && k !in todo
      invariant forall k :: k in avg ==> avg[k] == sigma[k] as real / divisor as real
      decreases |todo|
    {
      var k :| k in todo;
      avg := avg[k := sigma[k] as real / divisor as real];
      todo := todo - {k};
    }
    assert avg.Keys == sigma.Keys;
    if divisor != 0 {
      SumIntToReal(sigma.Keys, sigma, avg, divisor as real);
    }
  }

  /* -------------------------------------------------------------- training */

  /** The number of epochs `range(numepochs)` runs. */
  function Epochs(numEpochs: int): nat
  {
    if numEpochs > 0 then numEpochs else 0
  }

  /** The training sentences in the order they are visited over e epochs. */
  function Repeat(data: seq<Sentence>, e: nat): seq<Sentence>
  {
    if e == 0 then [] else Repeat(data, e - 1) + data
  }

  /** e epochs visit e * |data| sentences. */
  lemma {:induction false} RepeatLength(data: seq<Sentence>, e: nat)
    ensures |Repeat(data, e)| == e * |data|
  {
    if e > 0 {
      RepeatLength(data, e - 1);
    }
  }

  /** a + b epochs are a epochs followed by b epochs. */
  lemma {:induction false} RepeatAdd(data: seq<Sentence>, a: nat, b: nat)
    ensures Repeat(data, a + b) == Repeat(data, a) + Repeat(data, b)
  {
    if b > 0 {
      RepeatAdd(data, a, b - 1);
    }
  }

  /** `feat_vec` before visit m: empty at first, then what visit m - 1 left. */
  function Prev(snaps: seq<Weights>, m: nat): Weights
    requires m <= |snaps|
  {
    if m == 0 then map[] else snaps[m - 1]
  }

  /**
   Visit m of the schedule: the tagger ran on the weights left by the
   previous visit, the sentence was in range, and `feat_vec` was updated.
   */
  ghost predicate Step(tagger: Tagger, sched: seq<Sentence>, tagset: seq<Tag>,
                       preds: seq<seq<Tag>>, snaps: seq<Weights>, m: nat)
    requires m < |snaps| <= |sched| && |preds| == |snaps|
  {
    var s := sched[m];
    && tagset != []
    && preds[m] == tagger(Prev(snaps, m), s.words, s.feats, tagset, tagset[0])
    && InRange(s.feats, preds[m], s.labels)
    && snaps[m] == Updated(Prev(snaps, m), s.feats, preds[m], s.labels)
  }

  /** The predictions and weights after each of the first |snaps| visits. */
  ghost predicate Trace(tagger: Tagger, sched: seq<Sentence>, tagset: seq<Tag>,
                        preds: seq<seq<Tag>>, snaps: seq<Weights>)
  {
    && |preds| == |snaps| <= |sched|
    && forall m :: 0 <= m < |snaps| ==> Step(tagger, sched, tagset, preds, snaps, m)
  }

  /** The next visit raises IndexError: no default tag, or the tagger's result runs an index out. */
  ghost predicate NextFails(tagger: Tagger, sched: seq<Sentence>, tagset: seq<Tag>, snaps: seq<Weights>)
    requires |snaps| < |sched|
  {
    var s := sched[|snaps|];
    tagset == [] || !InRange(s.feats, tagger(Prev(snaps, |snaps|), s.words, s.feats, tagset, tagset[0]), s.labels)
  }

  /** The mistakes of visits lo..hi-1. */
  function MistakesBetween(sched: seq<Sentence>, preds: seq<seq<Tag>>, lo: nat, hi: nat): nat
    requires lo <= hi <= |preds| && hi <= |sched|
    decreases hi - lo
  {
    if hi == lo then 0
    else MistakesBetween(sched, preds, lo, hi - 1) + Mispredictions(preds[hi - 1], sched[hi - 1].labels, |preds[hi - 1]|)
  }

  /** Later predictions do not change the mistakes counted for earlier visits. */
  lemma {:induction false} MistakesFrame(sched: seq<Sentence>, preds: seq<seq<Tag>>, preds': seq<seq<Tag>>, lo: nat, hi: nat)
    requires lo <= hi <= |preds| <= |preds'| && hi <= |sched| && preds'[..|preds|] == preds
    ensures MistakesBetween(sched, preds', lo, hi) == MistakesBetween(sched, preds, lo, hi)
    decreases hi - lo
  {
    if hi > lo {
      MistakesFrame(sched, preds, preds', lo, hi - 1);
      assert preds'[hi - 1] == preds'[..|preds|][hi - 1];
    }
  }

  /** The sum of k's weight over the snapshots. */
  function SnapSum(snaps: seq<Weights>, k: FeatureKey): int
  {
    if snaps == [] then 0 else SnapSum(snaps[..|snaps| - 1], k) + GetOr(snaps[|snaps| - 1], k, 0)
  }

  /** Every key of some snapshot. */
  function SnapKeys(snaps: seq<Weights>): set<FeatureKey>
  {
    if snaps == [] then {} else SnapKeys(snaps[..|snaps| - 1]) + snaps[|snaps| - 1].Keys
  }

  /**
   The training state after the visits of the trace: `feat_vec` is the last
   snapshot, every snapshot sums to 0, and sigma holds, key by key, the sum
   over the snapshots.
   */
  ghost predicate Consistent(tagger: Tagger, sched: seq<Sentence>, tagset: seq<Tag>,
                             preds: seq<seq<Tag>>, snaps: seq<Weights>, fv: Weights, sigma: Weights)
  {
    && Trace(tagger, sched, tagset, preds, snaps)
    && fv == Prev(snaps, |snaps|)
    && (forall m :: 0 <= m < |snaps| ==> Total(snaps[m]) == 0)
    && Total(fv) == 0
    && (forall k :: k in sigma <==> k in SnapKeys(snaps))
    && (forall k :: GetOr(sigma, k, 0) == SnapSum(snaps, k))
    && Total(sigma) == 0
  }

  /** A visit that ran keeps the state consistent with the trace extended by it. */
  lemma VisitConsistent(tagger: Tagger, sched: seq<Sentence>, tagset: seq<Tag>,
                        preds: seq<seq<Tag>>, snaps: seq<Weights>, fv: Weights, sigma: Weights,
                        pred: seq<Tag>, fv': Weights, sigma': Weights)
    requires Consistent(tagger, sched, tagset, preds, snaps, fv, sigma) && |snaps| < |sched|
    requires tagset != []
    requires pred == tagger(fv, sched[|snaps|].words, sched[|snaps|].feats, tagset, tagset[0])
    requires InRange(sched[|snaps|].feats, pred, sched[|snaps|].labels)
    requires fv' == Updated(fv, sched[|snaps|].feats, pred, sched[|snaps|].labels) && Total(fv') == Total(fv)
    requires forall k :: k in sigma' <==> k in sigma || k in fv'
    requires forall k :: GetOr(sigma', k, 0) == GetOr(sigma, k, 0) + GetOr(fv', k, 0)
    requires Total(sigma') == Total(sigma) + Total(fv')
    ensures Consistent(tagger, sched, tagset, preds + [pred], snaps + [fv'], fv', sigma')
  {
    var preds', snaps' := preds + [pred], snaps + [fv'];
    forall m | 0 <= m < |snaps'| ensures Step(tagger, sched, tagset, preds', snaps', m) {
      if m < |snaps| {
        assert Step(tagger, sched, tagset, preds, snaps, m);
        assert Prev(snaps', m) == Prev(snaps, m);
      }
    }
    assert snaps'[..|snaps|] == snaps;
  }

  /**
   Lines 45-83 for one visit of sentence s: the tagger runs on the current
   weights with the first tag as default, the sentence is updated, and the
   new weights are added to sigma.
   */
  method TrainSentence(tagger: Tagger, s: Sentence, tagset: seq<Tag>, fv: Weights, sigma: Weights, mistakes: nat)
    returns (ok: bool, pred: seq<Tag>, fv': Weights, sigma': Weights, mistakes': nat)
    ensures ok <==> tagset != [] && InRange(s.feats, tagger(fv, s.words, s.feats, tagset, tagset[0]), s.labels)
    ensures ok ==> pred == tagger(fv, s.words, s.feats, tagset, tagset[0])
    ensures ok ==> fv' == Updated(fv, s.feats, pred, s.labels) && Total(fv') == Total(fv)
    ensures ok ==> mistakes' == mistakes + Mispredictions(pred, s.labels, |pred|)
    ensures ok ==> forall k :: k in sigma' <==> k in sigma || k in fv'
    ensures ok ==> forall k :: GetOr(sigma', k, 0) == GetOr(sigma, k, 0) + GetOr(fv', k, 0)
    ensures ok ==> Total(sigma') == Total(sigma) + Total(fv')
  {
    if tagset == [] {
      // `tagset[0]` raises IndexError
      return false, [], fv, sigma, mistakes;
    }
    pred := tagger(fv, s.words, s.feats, tagset, tagset[0]);
    ok, fv', mistakes' := UpdateSentence(fv, s.feats, pred, s.labels, mistakes);
    if ok {
      sigma' := AccumulateSigma(sigma, fv');
    } else {
      sigma' := sigma;
    }
  }

  /**
   Lines 43-83: one epoch, visiting the sentences of data in order from the
   state after the given trace. It stops at the first visit that fails.
   */
  method TrainEpoch(tagger: Tagger, data: seq<Sentence>, tagset: seq<Tag>, ghost sched: seq<Sentence>,
                    fv: Weights, sigma: Weights, ghost preds: seq<seq<Tag>>, ghost snaps: seq<Weights>)
    returns (ok: bool, fv': Weights, sigma': Weights, mistakes: nat,
             ghost preds': seq<seq<Tag>>, ghost snaps': seq<Weights>)
    requires Consistent(tagger, sched, tagset, preds, snaps, fv, sigma)
    requires |snaps| + |data| <= |sched| && sched[|snaps|..|snaps| + |data|] == data
    ensures Consistent(tagger, sched, tagset, preds', snaps', fv', sigma')
    ensures |snaps| <= |snaps'| && preds'[..|preds|] == preds
    ensures ok ==> |snaps'| == |snaps| + |data| && mistakes == MistakesBetween(sched, preds', |snaps|, |snaps'|)
    ensures !ok ==> |snaps'| < |snaps| + |data| && NextFails(tagger, sched, tagset, snaps')
  {
    fv', sigma', mistakes, preds', snaps' := fv, sigma, 0, preds, snaps;
    for n := 0 to |data|
      invariant Consistent(tagger, sched, tagset, preds', snaps', fv', sigma')
      invariant |snaps'| == |snaps| + n && preds'[..|preds|] == preds
      invariant mistakes == MistakesBetween(sched, preds', |snaps|, |snaps'|)
    {
      assert sched[|snaps'|] == data[n] by {
        assert sched[|snaps|..|snaps| + |data|][n] == data[n];
      }
      var pred, fv1, sigma1, mistakes1;
      ok, pred, fv1, sigma1, mistakes1 := TrainSentence(tagger, data[n], tagset, fv', sigma', mistakes);
      if !ok {
        return;
      }
      VisitConsistent(tagger, sched, tagset, preds', snaps', fv', sigma', pred, fv1, sigma1);
      MistakesFrame(sched, preds', preds' + [pred], |snaps|, |snaps'|);
      assert (preds' + [pred])[..|preds|] == preds' [..|preds|];
      fv', sigma', mistakes := fv1, sigma1, mistakes1;
      preds', snaps' := preds' + [pred], snaps' + [fv1];
    }
    ok := true;
  }

  /** Epoch e of the run visits the sentences of data in order, at the visits after the first e epochs. */
  lemma RepeatSlice(data: seq<Sentence>, e: nat, epochs: nat)
    requires e < epochs
    ensures |Repeat(data, e)| + |data| <= |Repeat(data, epochs)|
    ensures Repeat(data, epochs)[|Repeat(data, e)|..|Repeat(data, e)| + |data|] == data
  {
    var rest := epochs - e - 1;
    RepeatAdd(data, e + 1, rest);
    assert e + 1 + rest == epochs;
    var before, after := Repeat(data, e), Repeat(data, rest);
    assert Repeat(data, e + 1) == before + data;
    assert Repeat(data, epochs) == before + data + after;
    MiddleSlice(before, data, after);
  }

  /** Proof step only: the middle part of a concatenation of three sequences. */
  lemma MiddleSlice<T>(a: seq<T>, b: seq<T>, c: seq<T>)
    ensures (a + b + c)[|a|..|a| + |b|] == b
  {
  }

  /** The first visit of epoch e. */
  function EpochStart(data: seq<Sentence>, e: nat): nat
  {
    |Repeat(data, e)|
  }

  /** One past the last visit of epoch e. */
  function EpochEnd(data: seq<Sentence>, e: nat): nat
  {
    |Repeat(data, e)| + |data|
  }

  /** Count e is the number of mispredicted positions over the visits of epoch e. */
  ghost predicate EpochCounts(sched: seq<Sentence>, data: seq<Sentence>, preds: seq<seq<Tag>>, counts: seq<nat>)
  {
    forall e :: 0 <= e < |counts| ==>
      && EpochStart(data, e) <= EpochEnd(data, e) <= |preds| && EpochEnd(data, e) <= |sched|
      && counts[e] == MistakesBetween(sched, preds, EpochStart(data, e), EpochEnd(data, e))
  }

  /** Finishing one more epoch adds its count and keeps the earlier ones. */
  lemma EpochCountsExtend(sched: seq<Sentence>, data: seq<Sentence>, preds: seq<seq<Tag>>, preds': seq<seq<Tag>>,
                          counts: seq<nat>, m: nat)
    requires EpochCounts(sched, data, preds, counts)
    requires |preds| == EpochStart(data, |counts|) && |preds| <= |preds'| && preds'[..|preds|] == preds
    requires |preds'| == |preds| + |data| <= |sched|
    requires m == MistakesBetween(sched, preds', |preds|, |preds'|)
    ensures EpochCounts(sched, data, preds', counts + [m])
  {
    var counts' := counts + [m];
    forall e | 0 <= e < |counts'|
      ensures EpochStart(data, e) <= EpochEnd(data, e) <= |preds'| && EpochEnd(data, e) <= |sched|
      ensures counts'[e] == MistakesBetween(sched, preds', EpochStart(data, e), EpochEnd(data, e))
    {
      if e < |counts| {
        assert counts[e] == counts'[e];
        MistakesFrame(sched, preds, preds', EpochStart(data, e), EpochEnd(data, e));
      } else {
        assert counts'[e] == m && EpochStart(data, e) == |preds| && EpochEnd(data, e) == |preds'|;
      }
    }
  }

  /**
   Lines 36-85: the epochs, from empty `feat_vec` and sigma. The run stops at
   the first visit that fails; otherwise every epoch ran in full and left
   its mistake count.
   */
  method RunEpochs(tagger: Tagger, data: seq<Sentence>, tagset: seq<Tag>, epochs: nat)
    returns (ok: bool, fv: Weights, sigma: Weights, counts: seq<nat>,
             ghost preds: seq<seq<Tag>>, ghost snaps: seq<Weights>)
    ensures Consistent(tagger, Repeat(data, epochs), tagset, preds, snaps, fv, sigma)
    ensures ok <==> |snaps| == |Repeat(data, epochs)|
    ensures !ok ==> NextFails(tagger, Repeat(data, epochs), tagset, snaps)
    ensures ok ==> |counts| == epochs && EpochCounts(Repeat(data, epochs), data, preds, counts)
  {
    ghost var sched := Repeat(data, epochs);
    fv, sigma, counts := map[], map[], [];
    preds, snaps := [], [];
    for epoch := 0 to epochs
      invariant Consistent(tagger, sched, tagset, preds, snaps, fv, sigma)
      invariant |snaps| == EpochStart(data, epoch) && |counts| == epoch
      invariant EpochCounts(sched, data, preds, counts)
    {
      RepeatSlice(data, epoch, epochs);
      ghost var preds0 := preds;
      var mistakes;
      ok, fv, sigma, mistakes, preds, snaps := TrainEpoch(tagger, data, tagset, sched, fv, sigma, preds, snaps);
      if !ok {
        return;
      }
      EpochCountsExtend(sched, data, preds0, preds, counts, mistakes);
      counts := counts + [mistakes];
    }
    ok := true;
  }

  /** What `perc_train` returns: the averaged weights and the per-epoch mistake counts it prints, or an IndexError. */
  datatype Training = Trained(weights: map<FeatureKey, real>, epochMistakes: seq<nat>) | IndexError

  /**
   Lines 35-93. Over the schedule `Repeat(data, epochs)` the trace records
   each prediction and the resulting `feat_vec`. Training fails exactly when
   a visit raises IndexError, and that visit is the one after the trace.
   Otherwise every sentence was visited once per epoch, every snapshot sums
   to 0, epoch e's count is the number of mispredicted positions in its
   visits, and each averaged weight is the mean of that key's weight over
   all snapshots, so the averaged weights sum to 0 as well.
   */
  method PercTrain(tagger: Tagger, data: seq<Sentence>, tagset: seq<Tag>, numEpochs: int)
    returns (r: Training, ghost preds: seq<seq<Tag>>, ghost snaps: seq<Weights>)
    ensures Trace(tagger, Repeat(data, Epochs(numEpochs)), tagset, preds, snaps)
    ensures forall m :: 0 <= m < |snaps| ==> Total(snaps[m]) == 0
    ensures r.IndexError? <==> |snaps| < |Repeat(data, Epochs(numEpochs))|
    ensures r.IndexError? ==> NextFails(tagger, Repeat(data, Epochs(numEpochs)), tagset, snaps)
    ensures r.Trained? ==> |r.epochMistakes| == Epochs(numEpochs)
    ensures r.Trained? ==> EpochCounts(Repeat(data, Epochs(numEpochs)), data, preds, r.epochMistakes)
    ensures r.Trained? ==> forall k :: k in r.weights <==> k in SnapKeys(snaps)
    ensures r.Trained? ==> forall k :: k in r.weights ==>
      |snaps| > 0 && r.weights[k] == SnapSum(snaps, k) as real / |snaps| as real
    ensures r.Trained? ==> SumReal(r.weights.Keys, r.weights) == 0.0
  {
    var epochs := Epochs(numEpochs);
    var ok, fv, sigma, counts;
    ok, fv, sigma, counts, preds, snaps := RunEpochs(tagger, data, tagset, epochs);
    if !ok {
      return IndexError, preds, snaps;
    }
    RepeatLength(data, epochs);
    var divisor := |data| * numEpochs;
    if sigma != map[] {
      SnapKeysNonEmpty(snaps, sigma);
      assert divisor == |snaps|;
    }
    var weights := Average(sigma, divisor);
    r := Trained(weights, counts);
    forall k | k in weights ensures |snaps| > 0 && weights[k] == SnapSum(snaps, k) as real / |snaps| as real {
      SnapKeysNonEmpty(snaps, sigma);
      assert sigma[k] == GetOr(sigma, k, 0);
    }
    if divisor != 0 {
      DivZero(divisor as real);
    }
  }

  /** Some snapshot has a key only when there is a snapshot. */
  lemma SnapKeysNonEmpty(snaps: seq<Weights>, sigma: Weights)
    requires sigma != map[] && forall k :: k in sigma <==> k in SnapKeys(snaps)
    ensures snaps != []
  {
    var k :| k in sigma;
    assert k in SnapKeys(snaps);
  }
}
