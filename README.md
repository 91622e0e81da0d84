# IBM Model 1 word aligner and averaged-perceptron trainer, in Dafny

This project models two components of a course repository on statistical
NLP. It proves properties about each.

**The word aligner** is `align()` in `hw4-Word_Alignment/align.py`. It
estimates the translation table t(f, e) of IBM Model 1 without a null
word, using Expectation-Maximization over a parallel corpus. It then
decodes one alignment line per sentence pair. The model covers:

- the counting pass that fixes the source-vocabulary size (`Corpus`);
- the table with its lazy uniform default `10 / |source vocabulary|`;
- the five EM passes (`Estimator`);
- the decoder (`Decoder`);
- the whole run (`Aligner`).

Probabilities are `real`s.

**The trainer** is `perc_train()` in `hw3-Phrasal_Chunking/default.py`.
It trains a chunker's feature weights with the averaged perceptron. The
model covers each part of it in module `Perceptron`:

- the −1/+1 updates at every mispredicted position;
- the running sum sigma of the weights after every sentence;
- the final division of sigma by the number of visits.

The Viterbi tagger `perc.perc_test` is a function-typed parameter. The
true tags of each sentence are part of its record.

Both sources work by updating dictionaries in loops. The model therefore
consists of methods with loop invariants, each proved against a
specification function (`SourceFrequency`, `ExpectedCount`, `EmStep`,
`Iterate`, `Alignment`, `Updated`, `SnapSum`, ...). The lemmas state the
source's promises about those functions.

- `SparseMaps` holds the shared pieces:
  - `GetOr`, the read of a `defaultdict` that does not insert;
  - ghost sums over a map's keys;
  - small lemmas on real division.
- Python's `defaultdict` is a Dafny `map`.
- A loop over `set(x)` visits `Unique(x)`: the distinct tokens in order of
  first occurrence. Every sum the source builds this way is
  order-independent.
- Loops over a dictionary's keys pick an arbitrary remaining key.

## Model

| member | source | states |
|---|---|---|
| Corpus.Unique | hw4-Word_Alignment/align.py:46-51 | the tokens `set(x)` visits: free of repetitions, exactly the tokens of x, no more of them than x has |
| Corpus.SourceVocabMembers | hw4-Word_Alignment/align.py:45-47 | w is in the source vocabulary iff some sentence pair has w on its source side |
| Corpus.CoPairsMembers | hw4-Word_Alignment/align.py:45-49 | a pair co-occurs iff some sentence pair holds its source token on one side and its target token on the other |
| Corpus.SourceFrequencyCountsSentences | hw4-Word_Alignment/align.py:45-47 | `f_count[w]` counts sentence pairs, not occurrences: it is the number of sentence pairs containing w, at most the corpus size, and positive iff w is in the vocabulary |
| Corpus.CountRow | hw4-Word_Alignment/align.py:48-49 | one co-occurrence count is added for fi and each distinct target token, and nothing else changes |
| Corpus.CountSource | hw4-Word_Alignment/align.py:46-49 | each distinct source token of the pair gets +1 in `f_count`, and each of its pairs with a distinct target token gets +1 in `fe_count`; every other count is untouched |
| Corpus.CountTarget | hw4-Word_Alignment/align.py:50-51 | each distinct target token of the pair gets +1 in `e_count`, and every other count is untouched |
| Corpus.CountVocabulary | hw4-Word_Alignment/align.py:41-51 | the keys of the three counters are the source vocabulary, the target vocabulary and the co-occurring pairs; each value is the number of sentence pairs containing that token or pair |
| Estimator.Prior | hw4-Word_Alignment/align.py:55-57 | the default `nulls / Vf_size` times the vocabulary size is 10; it is positive, at most 1 for 10 or more source tokens and above 1 for fewer |
| Estimator.Get | hw4-Word_Alignment/align.py:57-90 | a read `t[(f, e)]` returns the written entry if there is one and the default otherwise; on a table whose entries lie in (0, 1] it is positive |
| Estimator.SumTPositive | hw4-Word_Alignment/align.py:68-70 | every read of a bounded table is positive and at most Z, so Z is positive on a non-empty target side |
| Estimator.Normalizer | hw4-Word_Alignment/align.py:68-70 | the loop computes Z, the sum of t(f, e) over the distinct target tokens |
| Estimator.Responsibility | hw4-Word_Alignment/align.py:76 | `c = t(f, e) / Z` is non-negative, and positive exactly when f and e co-occur in the sentence pair |
| Estimator.ResponsibilitiesSumToOne | hw4-Word_Alignment/align.py:68-76 | for a source token of a pair with a target side, its responsibilities over the distinct target tokens sum to exactly 1 |
| Estimator.SumResponsibilitiesPrefix | hw4-Word_Alignment/align.py:68-76 | the responsibilities over the first k distinct target tokens sum to their share of Z |
| Estimator.ExpectedCountSupport | hw4-Word_Alignment/align.py:66-79 | an expected count is non-negative, and positive exactly on the co-occurring pairs |
| Estimator.AddKeepsBalance | hw4-Word_Alignment/align.py:78-79 | adding the same c to `fe_count[(f, e)]` and `e_count[e]` keeps every `e_count[e]` equal to the sum of its column of `fe_count` |
| Estimator.AddResponsibility | hw4-Word_Alignment/align.py:78-79 | the two accumulators stay balanced and positive; exactly `fe_count[p]` grows by c |
| Estimator.AddRow | hw4-Word_Alignment/align.py:71-79 | the loop over the distinct target tokens adds `t(fi, e) / Z` to exactly the pairs (fi, e), and keeps the accumulators balanced and positive |
| Estimator.AccumulateRow | hw4-Word_Alignment/align.py:71-79 | for one source token the pairs it forms gain its responsibility; an empty target side changes nothing |
| Estimator.AccumulateSentence | hw4-Word_Alignment/align.py:67-79 | one sentence pair adds its responsibility to every pair and writes exactly its co-occurring pairs; an empty target side changes nothing and raises no error |
| Estimator.ExpectationStep | hw4-Word_Alignment/align.py:62-79 | after the reset and the pass, `fe_count` has exactly the co-occurring pairs as keys, each holding its expected count, and `e_count` is balanced against it |
| Estimator.MaximizationStep | hw4-Word_Alignment/align.py:81-82 | the loop builds `Maximize`: `t(f, e) = fe_count / e_count` for exactly the keys of `fe_count`; every other entry, and the default, are kept |
| Estimator.MaximizeReadsColumns | hw4-Word_Alignment/align.py:81-82 | the maximization reads `e_count` only at the target tokens of `fe_count`'s keys |
| Estimator.MaximizationNormalizes | hw4-Word_Alignment/align.py:81-82 | after a maximization on balanced accumulators, t sums to 1 over every target column, and each written entry lies in (0, 1] |
| Estimator.EmStepNormalizes | hw4-Word_Alignment/align.py:62-82 | the EM pass as a function (each co-occurring pair gets its expected count over its column's expected count) keeps the default, writes exactly the co-occurring pairs, keeps the rest, stays within (0, 1], and sums to 1 over every column of a target token with counts |
| Estimator.Iterate | hw4-Word_Alignment/align.py:61-82 | k EM passes applied in turn keep the default and every entry in (0, 1] |
| Estimator.IterateNormalizes | hw4-Word_Alignment/align.py:61-82 | after k passes exactly the pairs written before and, once a pass has run, the co-occurring pairs are written, other pairs keep their value, and every column of a target token with counts sums to 1 |
| Estimator.EmIteration | hw4-Word_Alignment/align.py:62-82 | the new table is `EmStep` of the old one: it writes exactly the co-occurring pairs, keeps the rest, stays within (0, 1], and normalizes every column of a target token with counts |
| Estimator.Train | hw4-Word_Alignment/align.py:54-82 | the table after the loop is `Iterate` of the starting table for the given number of passes; the passes keep the default, write exactly the co-occurring pairs, keep the rest, and leave every column normalized |
| Decoder.ScanIsEarliestMaximum | hw4-Word_Alignment/align.py:87-92 | bestp bounds every entry; when positive it is the entry at bestj and every earlier entry is strictly smaller; otherwise bestp and bestj stay 0 |
| Decoder.ScanPositive | hw4-Word_Alignment/align.py:87-92 | a non-empty target side over a bounded table yields a positive bestp |
| Decoder.BestTarget | hw4-Word_Alignment/align.py:87-92 | the loop over the target positions computes the running best `(bestp, bestj)` |
| Decoder.AlignmentCharacterized | hw4-Word_Alignment/align.py:86-94 | link (i, j) is output iff i's best entry exceeds the threshold and j is the earliest position holding it; links ascend in i, at most one per position |
| Decoder.LinksInRange | hw4-Word_Alignment/align.py:87-94 | with a non-negative threshold every link names an existing source and target position |
| Decoder.NegativeThresholdLinksEmptyTarget | hw4-Word_Alignment/align.py:87-94 | with a negative threshold, a pair with an empty target side gets the link (i, 0) for every source position |
| Decoder.ThresholdMonotone | hw4-Word_Alignment/align.py:93-94 | raising the threshold only removes links |
| Decoder.DecodeSentence | hw4-Word_Alignment/align.py:86-95 | the links of one output line are the alignment of that sentence pair |
| Decoder.Decode | hw4-Word_Alignment/align.py:85-95 | there is one output line per sentence pair, in corpus order, each holding that pair's alignment |
| Aligner.VocabularyReadable | hw4-Word_Alignment/align.py:55-57 | the default `nulls / Vf_size` is only read when the vocabulary is not empty, so it never divides by zero |
| Aligner.SentencePairsCoOccur | hw4-Word_Alignment/align.py:66-82 | every source and target token of one sentence pair form a co-occurring pair |
| Aligner.Untrained | hw4-Word_Alignment/align.py:55-57 | before any pass nothing is written and the default divides by the source vocabulary size, which is readable for every sentence pair |
| Aligner.Align | hw4-Word_Alignment/align.py:36-95 | the table is five EM passes `Iterate`d from the untrained table; the default divides by the source vocabulary size; exactly the co-occurring pairs are written, each in (0, 1]; every target column that has counts sums to 1; unwritten pairs read the default and the decoder never reads one; line n is the alignment of pair n |
| Aligner.NoLinksAtThresholdOne | hw4-Word_Alignment/align.py:87-94 | with a threshold of 1 or more, a trained table yields no links |
| Aligner.EveryPositionLinkedAtZero | hw4-Word_Alignment/align.py:87-94 | with threshold 0 and a target side, every source position gets exactly one link, to its best target |
| Aligner.CountLinks | hw4-Word_Alignment/align.py:86-94 | with threshold 0 and a target side, the first k positions give k links |
| Perceptron.UpdatedFrame | hw3-Phrasal_Chunking/default.py:55-76 | a key that none of the sentence's updates names keeps its weight and its presence |
| Perceptron.NoMistakesNoChange | hw3-Phrasal_Chunking/default.py:49-51 | a sentence tagged right at every position leaves `feat_vec` unchanged |
| Perceptron.WrongBigramRightTag | hw3-Phrasal_Chunking/default.py:49-76 | a position whose tag is right but whose previous tag is wrong, so that the predicted bigram differs from the true one, writes no key and changes no weight |
| Perceptron.Bump | hw3-Phrasal_Chunking/default.py:57-60 | `feat_vec[key]` grows by d, starting from d when absent, and nothing else changes; the total grows by d |
| Perceptron.UpdateWindow | hw3-Phrasal_Chunking/default.py:55-65 | over features lo..hi−1, (feature, predicted tag) loses 1 and (feature, true tag) gains 1; the total is kept |
| Perceptron.UpdatePosition | hw3-Phrasal_Chunking/default.py:55-76 | a mispredicted position applies the window updates and, past position 0, −1 to the predicted bigram and +1 to the true one; the total is kept |
| Perceptron.UpdateSentence | hw3-Phrasal_Chunking/default.py:46-76 | it fails iff an index runs out (a missing true tag, or a mispredicted position without its 20 features); otherwise `feat_vec` becomes `Updated`, its total is kept, and each mispredicted position is one mistake |
| Perceptron.AccumulateSigma | hw3-Phrasal_Chunking/default.py:79-83 | sigma gains every entry of `feat_vec`, keeping its other keys; totals add up |
| Perceptron.Average | hw3-Phrasal_Chunking/default.py:88-89 | each averaged weight is sigma's weight divided by the divisor, with the same keys, and the averaged weights sum to sigma's total over the divisor |
| Perceptron.RepeatLength | hw3-Phrasal_Chunking/default.py:40-43 | e epochs make e·\|data\| visits, the divisor of line 89 |
| Perceptron.TrainSentence | hw3-Phrasal_Chunking/default.py:45-83 | one visit fails iff there is no default tag or the tagger's output runs an index out; otherwise the tagger ran on the current weights, `feat_vec` is `Updated`, and sigma gained the new weights |
| Perceptron.VisitConsistent | hw3-Phrasal_Chunking/default.py:43-83 | a visit that ran keeps the state equal to the trace extended by it: `feat_vec` is the last snapshot, sigma is the sum of the snapshots, and every total is 0 |
| Perceptron.TrainEpoch | hw3-Phrasal_Chunking/default.py:43-83 | one epoch visits the sentences in order and counts the mispredicted positions of its visits, or stops at the first visit that fails |
| Perceptron.RunEpochs | hw3-Phrasal_Chunking/default.py:36-85 | the epochs either complete every visit, giving each epoch's mistake count, or stop at the first visit that fails |
| Perceptron.PercTrain | hw3-Phrasal_Chunking/default.py:35-93 | training fails iff some visit raises IndexError, and that visit is the one after the trace; otherwise each epoch reports its mistakes, each averaged weight is the mean of its weight over all snapshots, and the averaged weights sum to 0 |

## Left out

- Reading the two corpus files, `islice` truncation, option parsing, logging, and the text written to stdout and stderr (`"%i-%i "`, the newline, the progress messages). The corpus is a value, and the output lines are sequences of index pairs.
- Floating point: probabilities and averaged weights are exact `real`s, without IEEE rounding.
- The smoothing constants `n` and `V` and the commented-out smoothed update: the code never uses them.
- Insert-on-read of `defaultdict`: a read `t[(f, e)]` in the source stores the default. Every such read happens at a co-occurring pair, and each of those is overwritten by the next maximization, so the model reads without storing. The counts of the first counting pass are not read once lines 62-64 replace them, except `len(f_count)` at line 55.
- Iteration order over `set(...)` and dictionary keys. The model fixes an order or picks an arbitrary one, and every sum built this way does not depend on the order.
- `perc.perc_test`, the Viterbi tagger, is not part of this model. It is a total function-typed parameter.
- Splitting each word to find its true tag (`word.split()[2]`): the true tags are given in each `Sentence`.
- Perceptron.PercTrain: returns the per-epoch mistake counts instead of printing them, and builds the averaged map as a new value instead of overwriting `sigma` in place.
- Perceptron.Average: requires a non-zero divisor when sigma has entries. The division by zero the source would raise cannot happen from `perc_train`, because a non-empty sigma means some sentence was visited.
- The rest of `default.py` is not part of this model: the command-line driver that reads the tag set and the data, and writes the model file.

## Behaviour kept as written

The model follows the code in these cases:

- A sentence pair with an empty target side raises no error. Its normalizer Z is never divided by, because the loop that divides does not run (Estimator.AccumulateSentence).
- The default `10 / |source vocabulary|` exceeds 1 when the vocabulary has fewer than ten tokens. Boundedness is therefore stated for written entries only (Estimator.Prior).
- The threshold is not range-checked. A negative one links every source position of an empty target side to position 0 (Decoder.NegativeThresholdLinksEmptyTarget).
- A non-positive epoch count is not rejected: `range(numepochs)` is then empty (Perceptron.Epochs).
- The trainer's docstring (`default.py:25`) asks that zero weights not be stored. The code stores every key it updates, even when the key's net change leaves it at 0, and `Updated` keeps those keys.
- The docstring (`default.py:27`) also names a corner case: a wrong bigram at a position whose own tag is right. The code updates nothing at such a position (Perceptron.WrongBigramRightTag).
