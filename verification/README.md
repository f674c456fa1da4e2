# ner-task in Dafny

This project models the data pipeline of a small named-entity-recognition
baseline for CoNLL-2003-style corpora. The pipeline reads two-column
tab-separated word/tag files into sentences and builds a per-tag word index.
It interns strings as dense ids and counts word frequencies to build a
vocabulary, then rewrites rare words to an unknown token. It trains two
trivial classifiers: majority tag and memorisation. It builds per-token
feature sets, and it scores a hypothesis tagging against a reference with
per-tag precision, recall and F1.

Each source file has its own module, and each module is a set of pure
functions over immutable datatypes:

- `TermDicts`: the `TermDict` interning table.
- `Corpus` and `Dataset`: the two revisions of the CoNLL loader.
- `Vocab`: the vocabulary and the unkify rewrite.
- `Evaluation`: the `evaluate` function.
- `Models`: the two classifiers.
- `Featuresets` and `Features`: the feature builders.

The shared vocabulary sits in four helper modules:

- `Results`: the `Result`/`Option` types, and the errors Python would raise (`KeyError`, `IndexError`, unpacking and `ValueError`s).
- `Seqs`: flattening, dropping empty sentences, first-seen de-duplication (Python dict key order) and `Counter`.
- `Text`: `str.strip`, `str.split()` and `str.split(sep)`.
- `Tokens`: word/tag pairs, rows, reference sentence segmentation and the per-tag word index, a `defaultdict(list)` that keeps key insertion order.

Each loader takes rows that are already split on tabs, which is what the
`csv` reader yields, and is written as a fold that mirrors its `for` loop. A
loader is proved equal to an independent reference: the rows cut at blank
rows. Scores use exact `real` arithmetic.

Two details of the code shape the model:

- The vocabulary cutoff is inclusive (`count >= min_word_count`, src/vocab.py:19).
- `get_id` asserts that the unknown token is registered (src/utils.py:24). `Init` registers it, so the fallback always succeeds.

The code has two broken imports:

- `src/corpus.py` imports `WordTagPair` from `src/utils.py`, which does not define it. The model uses the record from `src/dataset.py`.
- `src/vocab.py` imports `DOCSTART_WORD`/`DOCSTART_TAG` from `src/corpus.py`, which does not define them. The word is taken to be `CoNLLCorpus.DOCSTART_TOKEN` and the tag is a parameter.

## Model

| member | source | states |
|---|---|---|
| TermDicts.Init | src/utils.py:5-11 | The new dictionary satisfies the dense-bijection invariant. Without an unknown token it is empty. With one, the unknown token is the sole term and has id 0. |
| TermDicts.Add | src/utils.py:13-17 | An absent term gets id = number of terms before the call, and the id range stays dense `[0, n)`. Earlier ids are unchanged, and the two maps stay mutually inverse. Adding a present term leaves the dictionary identical. |
| TermDicts.GetId | src/utils.py:19-27 | A registered term yields its own id. An unregistered term yields the unknown token's id 0 when one is configured, and `KeyError` otherwise. Every id returned is assigned. |
| TermDicts.GetTerm | src/utils.py:29-30 | Succeeds exactly for assigned ids `0 <= id < n`, and fails with `KeyError` otherwise, with no fallback. The term it returns maps back to that id. |
| TermDicts.TermRoundTrip | src/utils.py:15-21 | For every registered term `t`, `get_term(get_id(t)) == t`. |
| TermDicts.IdRoundTrip | src/utils.py:19-30 | For every assigned id `i`, `get_id(get_term(i)) == i`. |
| TermDicts.UnknownFallsBack | src/utils.py:22-25 | An unregistered term decodes to the unknown token when one is configured. |
| TermDicts.ByIdTerms | src/utils.py:32-34 | Listing the terms by id gives no duplicates and exactly the key set `terms`. |
| TermDicts.AddAllFirstSeen | src/utils.py:13-17 | After adding a sequence of terms, the id order is the previous order followed by the new terms in first-seen order. |
| TermDicts.BuildSpec | src/utils.py:5-17 | A dictionary built from an optional unknown token and a term sequence orders its ids by first occurrence, unknown token first. `terms` is the set of all terms given, and its size is the number of distinct terms. |
| Tokens.ReadRow | src/corpus.py:37 | A non-empty row gives the pair `(row[0], row[1])`, ignoring extra columns. A one-field row fails with `IndexError`. |
| Tokens.BlocksCount | src/dataset.py:50-54 | Cutting rows at blank rows gives one block more than there are blank rows. |
| Tokens.BlocksConcat | src/dataset.py:44-54 | The blocks concatenate back to every non-blank row's pair, in file order. |
| Tokens.Record | src/corpus.py:38 | Appending a pair adds its word to the end of its tag's list and leaves every other tag's list unchanged. A new tag is appended to the key order, and the total length grows by one. |
| Tokens.IndexOfSpec | src/corpus.py:38 | The tag index lists, for every tag, the words tagged with it in input order. Its keys are the tags in first-seen order, and its total length is the number of pairs. |
| Tokens.WordsTaggedCount | src/corpus.py:38 | The word list of a tag is as long as the number of pairs with that tag. |
| Corpus.Open | src/corpus.py:13-18 | The constructor keeps `strip_docstarts`, which defaults to true, and loads at once. It succeeds exactly when every kept row is blank or has at least two fields, and fails with `IndexError` otherwise. On success the sentences are the non-empty blocks of the kept rows, and the index is their tag index. |
| Corpus.Flatten | src/corpus.py:23-24 | A pair occurs in `flatten()` exactly when it occurs in some sentence, and the result is as long as all sentences together. |
| Corpus.Summarize | src/corpus.py:46-56 | The sentence count is the number of stored sentences. There is one per-tag line for each index key, in key order, giving that tag's list length. The word total is the sum of those per-tag counts. |
| Corpus.RunFails | src/corpus.py:33-39 | The load loop fails exactly when some kept non-blank row has one field, and the failure is `IndexError`. |
| Corpus.Load | src/corpus.py:26-44 | Succeeds exactly when every kept row is blank or has at least two fields. With `strip_docstarts`, rows whose first field is `-DOCSTART-` are dropped without closing the sentence. The sentences are the blocks between blank rows with empty blocks removed. The pending sentence is flushed at the end. The index is the tag index of the kept pairs. |
| Corpus.LoadSpec | src/corpus.py:23-44 | Every stored sentence is non-empty. `flatten` is the kept rows' pairs in order. The tag index maps each tag to exactly the words of `flatten` with that tag, in input order. The sum of its list lengths equals `len(flatten())`. |
| Corpus.LoadIgnoresPriorState | src/corpus.py:26-28 | Loading discards earlier state, so loading the same rows again gives the same corpus. |
| Corpus.SummarizeLoaded | src/corpus.py:46-56 | `summarize` reports the sentence count and a word count equal to the number of pairs. Its per-tag lines come in first-seen order, each giving the number of pairs with that tag. |
| Corpus.AgreesWithDataset | src/corpus.py:33-44 | On the kept rows, the newer loader fails exactly when the older one does, and its sentences are the older loader's sentences with the empty ones dropped. |
| Dataset.PairString | src/dataset.py:16-17 | `str(pair)` is the word, then `/` at position `len(word)`, then the tag. |
| Dataset.SentenceString | src/dataset.py:21-22 | An empty sentence renders as the empty string, and a one-pair sentence as that pair's string. |
| Dataset.PairStringRoundTrip | src/dataset.py:16-17 | `str(pair)` is `word/tag`, and it parses back to the pair when the tag contains no `/`. |
| Dataset.SentenceStringAppend | src/dataset.py:21-22 | The rendering of a sentence is the renderings of its parts joined by two spaces. |
| Dataset.SentenceStringLength | src/dataset.py:21-22 | A rendered sentence is as long as its rendered pairs plus two characters between each pair. |
| Dataset.Open | src/dataset.py:26-35 | `which` defaults to `train` and `load` to true. A `which` other than `train`/`dev` fails before anything is loaded. Otherwise the corpus is empty, or loaded when `load` is set. |
| Dataset.RunFails | src/dataset.py:45-49 | The load loop fails exactly when some non-blank row has one field, and the failure is `IndexError`. There is no `-DOCSTART-` case. |
| Dataset.Load | src/dataset.py:37-54 | Every blank row closes the current sentence, even an empty one. A non-empty pending sentence is flushed at the end. The index is the tag index of all pairs. |
| Dataset.LoadSpec | src/dataset.py:44-54 | There are as many sentences as blank rows, plus one if a non-empty sentence is pending at the end. Concatenating them gives every pair in file order. The tag index holds exactly each tag's words, and its total is the number of pairs. |
| Dataset.Summarize | src/dataset.py:56-65 | The sentence count is the number of stored sentences. There is one per-tag line for each index key, in key order, giving that tag's list length. The word total is the sum of those per-tag counts. |
| Dataset.SummarizeLoaded | src/dataset.py:56-65 | After a load, `summarize` reports the number of blank rows (plus a trailing sentence) as sentences and the number of pairs as words. Its per-tag lines come in first-seen order, each giving the number of pairs with that tag. |
| Vocab.New | src/vocab.py:8-13 | A fresh vocabulary keeps its configuration, with `min_word_count` defaulting to 2. Its counts, word set and tag set are empty. |
| Vocab.Train | src/vocab.py:15-20 | An empty corpus fails to unpack. Otherwise each word's count is its number of occurrences, and the word set is exactly the words with `count >= min_word_count`. The tag set is every training tag, independent of the cutoff. |
| Vocab.WordsetBounds | src/vocab.py:18-19 | The word set is a subset of the training words, and equals them when `min_word_count <= 1`. |
| Vocab.CutoffMonotone | src/vocab.py:18-19 | Raising the cutoff never adds words to the word set. |
| Vocab.TrainReplaces | src/vocab.py:16-20 | Training replaces the previous state: the result is the same as training a fresh vocabulary. |
| Vocab.UnkWord | src/vocab.py:45-48 | In-vocabulary words are kept, and every other word becomes the unknown token. |
| Vocab.UnkifySentence | src/vocab.py:43-48 | The rewrite keeps every tag and the sentence length. |
| Vocab.UnkifyLines | src/vocab.py:39-49 | The output is empty exactly when there are no paragraphs. Otherwise it opens with the DOCSTART line and a blank line. `UnkifyReadsBackHeaders` fixes the layout of every later paragraph. |
| Vocab.UnkifyLineCount | src/vocab.py:39-49 | The output has two header lines per paragraph, one blank line per sentence and one line per token. |
| Vocab.UnkifyReadsBackHeaders | src/vocab.py:39-49 | Reading the unkified lines back with `-DOCSTART-` rows kept succeeds. For every paragraph in order, it gives the DOCSTART pair as a sentence of its own, then the paragraph's non-empty rewritten sentences. So each paragraph opens with the DOCSTART line and a blank line. |
| Vocab.ReadLaid | src/vocab.py:39-49 | Each paragraph's lines read back as its DOCSTART row, a blank row, and the rows of its rewritten sentences, each sentence closed by a blank row. |
| Vocab.UnkifyReadsBack | src/vocab.py:39-49 | Reading the unkified lines back with the corpus loader, with `-DOCSTART-` stripped, succeeds. The sentences are the rewritten input sentences in order, empty ones dropped. This holds when no word or tag contains a tab and neither the unknown token nor any word is `-DOCSTART-`. |
| Evaluation.ParseMetric | src/evaluation.py:7-9 | Accepts exactly `all`, `precision`, `recall` and `f1`, and rejects anything else with a metric error. Each accepted name selects its own metric: `all` gives all three, and each other name gives the score of that name. |
| Text.Strip | src/evaluation.py:12 | `strip()` is empty exactly for an all-whitespace line. Otherwise it starts and ends with a non-space. It is the slice of the line after the leading whitespace, and only whitespace follows it. |
| Evaluation.Clean | src/evaluation.py:11-14 | Every kept line is non-blank and has no surrounding whitespace. There are never more kept lines than input lines. |
| Evaluation.CleanOne | src/evaluation.py:12-14 | A single line is dropped when it is all whitespace, and otherwise kept as its stripped form. |
| Evaluation.CleanAppend | src/evaluation.py:12-14 | Cleaning works line by line: cleaning two blocks of lines is cleaning each and concatenating. With `CleanOne` this pins down the result line for line. |
| Evaluation.CleanIdempotent | src/evaluation.py:12-14 | Cleaning twice is the same as cleaning once. |
| Evaluation.ParseLine | src/evaluation.py:23-24 | A line unpacks exactly when it splits on whitespace into two fields, which become the word and the tag. Otherwise unpacking fails. |
| Evaluation.Count | src/evaluation.py:22-29 | The counting loop fails only by unpacking. On success no counter key is lost. |
| Evaluation.CountSpec | src/evaluation.py:22-29 | Counting fails exactly when some line does not unpack. Otherwise each tag's reference and hypothesis counts grow by its occurrences on that side. Its true positives grow by the positions where the two tags are equal; words are never compared. |
| Evaluation.TruePosBound | src/evaluation.py:26-29 | A tag's true positives are at most its reference count and at most its hypothesis count. |
| Evaluation.TagScores | src/evaluation.py:36-38 | Precision is `tp/hyp`, or 0 when `hyp` is 0. Recall is `tp/ref`. F1 is 0 when precision plus recall is 0. |
| Evaluation.ScoreBounds | src/evaluation.py:36-38 | When `tp <= ref, hyp` and `ref >= 1`, all three scores lie in [0,1] and F1 is `2tp/(ref+hyp)`. F1 is 0 exactly when `tp` is 0. |
| Evaluation.Select | src/evaluation.py:39-46 | `all` gives the triple, and each other metric gives only its component. |
| Evaluation.Report | src/evaluation.py:34-46 | The result has exactly one entry per tag of the reference counter. Each entry is a triple exactly when the metric is `all`. |
| Evaluation.Evaluate | src/evaluation.py:6-48 | `metric` defaults to `all`. Errors come in order: bad metric first, then a line-count mismatch after cleaning, then an unpack failure. The result's keys are exactly the reference tags. Every value is a triple exactly when the metric is `all`. |
| Evaluation.EvaluateSpec | src/evaluation.py:34-46 | Each reported tag occurs in the reference. Its value is the selected score of its true positives, reference count and hypothesis count over the cleaned lines, and those scores are in [0,1]. |
| Evaluation.ReportExample | src/evaluation.py:34-46 | Tags LOC (hit) and O (reference only) with a hypothesis-only MISC report LOC as (1,1,1), O as (0,0,0), and leave MISC out. |
| Models.Labels | src/models.py:11-12 | `labels()` of either classifier (the same body at lines 29-30): `list(tagset)` holds each tag of the set exactly once, so its length is the set's size. |
| Models.TrainMajority | src/models.py:17-21 | An empty token list fails to unpack. Otherwise the tag set is the set of training labels and contains the majority tag. |
| Models.MostCommon | src/models.py:20-21 | The majority tag occurs in training, and no tag is more frequent. Every tag seen before it is strictly less frequent, so the first maximal tag wins. |
| Models.ClassifyMajority | src/models.py:14-15 | The answer lies in the classifier's tag set whenever the majority tag does, as it does after training. |
| Models.ClassifyTrained | src/models.py:14-21 | A trained majority classifier gives the same answer for any two feature sets. That answer is a training label that no other label outnumbers. |
| Models.MajorityIsBestConstant | src/models.py:14-21 | `classify` returns the majority tag for every token. No constant answer gets more training tokens right. |
| Models.MajorityIgnoresFeatures | src/models.py:18-21 | Training on dummy or on word feature sets gives the same classifier. |
| Models.MemoLoop | src/models.py:39-41 | The loop fails only with `KeyError`. On success it loses no memo key and no tag. |
| Models.TrainMemo | src/models.py:35-42 | Training from an empty memo fails with `KeyError` exactly when a feature set has no `word`. Otherwise the memo maps exactly the training words, each to the tag of its last occurrence, and the tag set is exactly the training labels. |
| Models.MemoLoopSpec | src/models.py:36-42 | Training fails with `KeyError` exactly when a feature set has no `word`. Otherwise each seen word maps to the tag of its last occurrence, and earlier memo entries are kept. The tag set gains every training tag. |
| Models.ClassifyMemo | src/models.py:32-33 | Returns the memorised tag, and raises `KeyError` when the feature set has no `word` or the word was never seen. |
| Models.MemoRecallsTraining | src/models.py:32-42 | After training on word feature sets, each word is classified with the tag of its last occurrence. An unseen word raises `KeyError`, and the tag set is all training tags. |
| Models.MemoConsistent | src/models.py:32-42 | When every word always has the same tag, the memo reproduces the training tags exactly. |
| Models.MemoNeedsWords | src/models.py:33-40 | Memo training on dummy feature sets fails with `KeyError` unless the corpus is empty. |
| Featuresets.FeaturesetLabels | src/featuresets.py:1-6 | Both feature-set lists preserve length, and their labels are the corpus tags in order. |
| Featuresets.WordFeaturesetWords | src/featuresets.py:1-6 | Each word feature set reads back its own word under `word`. Dummy feature sets have no `word`. |
| Featuresets.MakeDummyFeaturesets | src/featuresets.py:1-2 | One entry per tagged word, each an empty dictionary. |
| Featuresets.MakeWordFeaturesets | src/featuresets.py:5-6 | One entry per tagged word, each exactly `{'word': word}`. |
| Features.ExtractDummyFeatures | src/features.py:1-2 | One example per pair, each with the constant input `(0, 0)`. |
| Features.ExtractIdentityFeatures | src/features.py:5-6 | One example per pair, each with the 1-tuple `(word_id,)` as input. |
| Features.ExtractTargets | src/features.py:1-6 | In both extractors, the targets are the corpus tag ids in order. |
| Features.IdentityRoundTrip | src/features.py:5-6 | The identity examples decode back to the original corpus of id pairs. |
| Features.DummyIgnoresWords | src/features.py:1-2 | Corpora with the same tag ids give the same dummy examples, whatever their words. |
| Text.Fields | src/evaluation.py:23-24 | `str.split()` gives non-empty, whitespace-free fields, and no fields exactly for an all-whitespace line. `FieldsJoin` is its round-trip partner. |
| Text.FieldsJoin | src/evaluation.py:23-24 | Whitespace splitting recovers the fields of any line made of non-empty, space-free fields joined by one whitespace separator string, with no leading or trailing whitespace. |
| Text.JoinSplitOn | src/corpus.py:31 | Splitting a line on tabs and rejoining the parts gives the line back. |
| Text.SplitOnJoin | src/corpus.py:31 | Tab-free fields joined by tabs split back into the same fields. |

## Left out

- `src/main.py` is not part of this model: it is argument parsing, scikit-learn, joblib persistence and numpy glue.
- The `Dataset` class in `src/utils.py` is not modelled; it wraps numpy arrays.
- The argument parsing and printing in every `__main__` block is not modelled, except the unkify rewrite of `src/vocab.py`, which is modelled as a pure function producing the output lines. The final `'\n'.join` and print are not modelled.
- File opening and the `csv` reader are outside the model. The loaders take rows already split on tabs, and `Vocab.ReadLines` splits lines on tabs for the read-back lemma. CSV quoting is off in the source, so a plain split matches.
- The "Wrong tag" diagnostic printing in `evaluate` is I/O and is not modelled.
- The text formatting of `summarize` in both loaders is not modelled; only the counts it prints are.
- The state left behind by an exception is not modelled, because an `Err` carries no object. A `load()` that raises `IndexError` partway leaves `_sentences` and `_tag_index` half filled (src/corpus.py:27-44, src/dataset.py:38-54). A `Vocabulary.train` that fails to unpack raises at src/vocab.py:16, before any assignment, so the old counts survive.
- `Evaluation.Evaluate`: the result is an unordered map. The source's dict keeps the reference tags in first-seen order (src/evaluation.py:34-35), and that is the order `__main__` prints them in.
- `sample_sentences` and `sample_words` draw at random and are left out.
- `Evaluation.TagScores`: scores are exact rationals, not IEEE doubles, and the `{:.2f}` formatting is not modelled.
- The NLTK `ClassifierI` base class and the `tagged_words()`/`tagged_paras()` corpus-reader API are left out. Their outputs become sequences of pairs and of paragraphs. The `-DOCSTART-` tag used by the unkify rewrite is a parameter.
- The commented-out maxent feature extractor in `src/featuresets.py` is left out.
- `WordTagIdPair`, read by `src/features.py`, is defined nowhere in the code. It is modelled as a record with the two fields the extractors read.
- `Evaluation.ReportExample`: checks the per-tag report on a fixed tally, not on literal input lines, because unfolding the whitespace splitter on literal strings is too costly for the verifier.
- `Vocab.UnkifyReadsBack`: rows are read back with a plain tab split of each line, not from the joined text.
- `Vocab.UnkifyReadsBackHeaders`: rows are read back the same way, with a plain tab split of each line.
