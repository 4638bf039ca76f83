# Bag-of-words baseline and degree of agreement, in Dafny

This project models the sequential core of the logistic / random-forest
baseline of a question-difficulty predictor (`Logistic/data_process.py`):

- **Vocabulary builder** (`create_word_dict`), module `WordDict`
  (`word_dict.dfy`). It scans a corpus record by record. For each record it
  takes content + question + option text, and it gives every token it has not
  seen before the next integer index, starting at 0. One counter runs across the
  whole corpus. The method `CreateWordDict` keeps the source's nested loops over
  a `map<Token, int>`. It is proved equal to `BuildDict`, a left-to-right fold
  over the flattened corpus. The lemmas show what that fold guarantees:
  - the keys are exactly the corpus tokens;
  - the indices are exactly `0 .. |dict|-1`, and no index is used twice;
  - a token's index is the number of distinct tokens seen before its first
    occurrence;
  - indices never change once given out.
- **Feature builder** (`create_bow_feature`), module `BowFeature`
  (`bow_feature.dfy`). For one record it allocates a zero `array<int>` as long
  as the dictionary. For every token it increments the slot at that token's
  index. The feature is proved equal to `Histogram`, a per-slot count of token
  positions. The lemmas show that:
  - the entries sum to the number of tokens;
  - under a dictionary built by the vocabulary builder, the entry at a token's
    index equals that token's number of occurrences;
  - slots no token addresses stay zero.

  The list is a Python list, so an index `v` in `-n .. -1` addresses slot
  `v + n` (`PyIndex`). A token missing from the dictionary raises an error in
  the source. So does an index outside `-n .. n-1`. The precondition
  `Indexable` excludes both. `BuiltDictIndexable` shows that a dictionary built
  from a corpus always meets it for that corpus's records.
- **Degree of agreement** (the DOA loop of `evaluation`), module `Agreement`
  (`agreement.dfy`). The method `Evaluation` runs the nested `i < j` loop with
  its `continue` branch:
  - a pair is skipped when both its true values and its predicted values tie;
  - every other pair counts in `n`;
  - a pair also counts in `correctNum` when the true order and the predicted
    order agree strictly.

  The method returns the sentinel `-1` when `n == 0` and `correctNum / n`
  otherwise. Its loop invariants tie the two counters to the sets of pairs
  visited so far. The lemmas show:
  - `0 <= correctNum <= n <= len*(len-1)/2`;
  - the result is the sentinel exactly when every pair ties on both sides;
  - a perfect ranking scores 1 and a fully tied truth scores 0;
  - the score depends only on the relative order of the predictions.

A pair with tied truth and untied predictions is counted in `n` but never in
`correctNum` (`Logistic/data_process.py:119-125`); the model follows the code
(`Tied`, `TiedTruth`).

Labels are exact reals, because the loop only compares them with `<`, `==`
and `>`. Python integers are unbounded, like Dafny's `int`, so no wrap-around
arises in the counters or indices.

## Model

| member | source | states |
|---|---|---|
| `WordDict.Words` | Logistic/data_process.py:33 | a record's token stream has the combined length of content, question and option text, and holds exactly their tokens |
| `WordDict.Flatten` | Logistic/data_process.py:31-33 | the corpus token stream holds exactly the tokens that occur in some record |
| `WordDict.CreateWordDict` | Logistic/data_process.py:27-37 | the nested loop yields `BuildDict` of the flattened corpus, the counter ends equal to the dictionary size, the keys are exactly the tokens of the records, and the indices form a numbering |
| `WordDict.DictKeys` | Logistic/data_process.py:31-37 | the dictionary's keys are exactly the distinct tokens scanned, no more and no fewer |
| `WordDict.DictNumbering` | Logistic/data_process.py:29-37 | every index lies in `0 .. |dict|-1`, no two tokens share an index, and every integer in that range is used |
| `WordDict.DictFirstOccurrence` | Logistic/data_process.py:35-37 | a token's index equals the number of distinct tokens occurring before its first occurrence |
| `WordDict.DictOrder` | Logistic/data_process.py:35-37 | one token's index is smaller than another's if and only if its first occurrence is earlier |
| `WordDict.DictExtends` | Logistic/data_process.py:31-37 | scanning further tokens never removes a key or changes an index already given out |
| `WordDict.DictRepeat` | Logistic/data_process.py:35-37 | a token seen before leaves the dictionary, and hence the counter, unchanged |
| `BowFeature.CreateBowFeature` | Logistic/data_process.py:42-53 | the feature is a fresh array of the dictionary's length whose entries are the per-slot token counts of the record's content + question + option text |
| `BowFeature.HistogramSum` | Logistic/data_process.py:50-53 | the feature entries sum to the number of tokens of the record, repeats included |
| `BowFeature.HistogramCounts` | Logistic/data_process.py:51-53 | under a numbering, the entry at a token's index equals the token's number of occurrences in the record |
| `BowFeature.HistogramUnused` | Logistic/data_process.py:51-53 | an entry that no token of the record addresses is 0 |
| `BowFeature.BuiltDictIndexable` | Logistic/data_process.py:44-53 | a dictionary built from a corpus has every token of each of its records as a key, with an index in range, so the lookup never fails |
| `Agreement.Evaluation` | Logistic/data_process.py:115-130 | the nested pair loop returns `Doa`: `-1` when no pair escapes the double tie, otherwise the number of strictly agreeing pairs divided by the number of counted pairs; the result is `-1` or lies in `[0, 1]` |
| `Agreement.AllPairsSize` | Logistic/data_process.py:117-118 | the two loops visit `len*(len-1)/2` pairs `i < j` |
| `Agreement.DoaBounds` | Logistic/data_process.py:115-129 | `0 <= correctNum <= n <= len*(len-1)/2`, and the metric is the sentinel or lies in `[0, 1]` |
| `Agreement.SentinelCases` | Logistic/data_process.py:117-128 | the sentinel is returned if and only if every pair ties on both sides, in particular for fewer than two values |
| `Agreement.PerfectPrediction` | Logistic/data_process.py:117-125 | with predictions equal to distinct true values, `correctNum == n == len*(len-1)/2`, and the metric is 1 for two or more values |
| `Agreement.TiedTruth` | Logistic/data_process.py:117-125 | with all true values tied and distinct predictions, `correctNum == 0` and `n == len*(len-1)/2`, and the metric is 0 for two or more values |
| `Agreement.MonotoneInvariance` | Logistic/data_process.py:119-124 | a strictly increasing transform of the predictions leaves both pair sets, and the metric, unchanged |
| `Agreement.OrderPreservingPrediction` | Logistic/data_process.py:117-129 | predictions that are a strictly increasing function of two or more distinct true values give a metric of exactly 1 |
| `Agreement.Scenarios` | Logistic/data_process.py:115-130 | `[1,2,3]` against itself gives 3 of 3 pairs and score 1; tied truth `[1,1,1]` against `[1,2,3]` gives 0 of 3 and score 0; the empty set gives the sentinel |

## Left out

- Agreement.Evaluation: returns only the degree of agreement. The Pearson correlation (`Logistic/data_process.py:111-113`) is a floating-point library call with NaN detection and is not modelled. The sentinel pair `(-1, -1)` appears as the single value `-1`.
- Agreement.Evaluation: also accepts inputs shorter than two. In the source the correlation call runs first and rejects them; the DOA loop on its own returns the sentinel for them, and that is what is modelled. Equal lengths are required, as the correlation call demands.
- Agreement.Evaluation: labels are exact reals, so NaN is not modelled. A NaN label fails all three comparisons, so in the source its pairs count in `n` and never in `correctNum`.
- Agreement.Evaluation: returns the exact real quotient `correctNum / n`. The source's `correct_num / n` (`Logistic/data_process.py:129`) is Python float division and returns the nearest binary64 value, so for 1 agreeing pair of 3 counted pairs the source returns 0.333…3, not exactly 1/3. Rounding is not modelled. The `print(test_y)` on the sentinel path (`Logistic/data_process.py:127`) is output only and is dropped.
- BowFeature.CreateBowFeature: models one record. The loop over input lines, reading the pickled dictionary, printing its size, the `tqdm` progress bar, and writing `{id, feature, diff}` as JSON are I/O and are left out.
- WordDict.CreateWordDict: the corpus is an in-memory sequence of records, so JSON parsing is not modelled. Saving the dictionary with `pickle` is not modelled either.
- `logger_fn` (`Logistic/data_process.py:14-24`): logging and directory setup only.
- `get_data_logistic` and `get_data_rf` (`Logistic/data_process.py:62-106`): file reading, JSON parsing, numpy arrays, and float scaling with integer truncation. This is floating-point conversion outside the sequential core.
- `C-MIDP/text_cmidp.py`: the neural scoring network is a TensorFlow computation graph. Its work is done by a foreign auto-differentiation runtime.
