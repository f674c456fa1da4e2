/** The baseline classifiers (src/models.py): `MajorityTag`, which always
    answers the most common training tag, and `MemoTraining`, which
    answers the tag a word last had in training. */
module Models {
  import opened Results
  import opened Seqs
  import opened Tokens
  import opened Featuresets

  /** `labels()` of both classifiers: `list(self.tagset)`, each tag once,
      in whatever order the set yields them. */
  method Labels(tagset: set<string>) returns (ls: seq<string>)
    ensures forall t :: t in ls <==> t in tagset
    ensures NoDups(ls)
    ensures |ls| == |tagset|
  {
    ls := [];
    var rest := tagset;
    while rest != {}
      invariant rest <= tagset
      invariant forall t :: t in ls <==> t in tagset && t !in rest
      invariant NoDups(ls)
      invariant |ls| + |rest| == |tagset|
      decreases |rest|
    {
      var t :| t in rest;
      ls := ls + [t];
      rest := rest - {t};
    }
  }

  // MajorityTag

  datatype MajorityTag = MajorityTag(majorityTag: string, tagset: set<string>)

  /** `max(items, key=count)`: scans left to right and replaces the best
      only on a strictly larger count, so the first maximal item wins. */
  function MaxBy(counts: map<string, nat>, best: string, rest: seq<string>): (m: string)
    requires best in counts
    requires forall i :: 0 <= i < |rest| ==> rest[i] in counts
    ensures m in counts
    decreases |rest|
  {
    if rest == [] then best
    else if counts[rest[0]] > counts[best] then MaxBy(counts, rest[0], rest[1..])
    else MaxBy(counts, best, rest[1..])
  }

  /** `m` is the first item of `s` whose count is maximal: no item counts
      more, and every item before it counts less. */
  ghost predicate IsFirstMax(counts: map<string, nat>, s: seq<string>, m: string)
    requires m in counts
    requires forall i :: 0 <= i < |s| ==> s[i] in counts
  {
    && (forall i :: 0 <= i < |s| ==> counts[s[i]] <= counts[m])
    && exists k :: 0 <= k < |s| && s[k] == m && forall i :: 0 <= i < k ==> counts[s[i]] < counts[m]
  }

  /** The scan returns the first item of `[best] + rest` whose count is
      maximal. */
  lemma {:induction false} MaxBySpec(counts: map<string, nat>, best: string, rest: seq<string>)
    requires best in counts
    requires forall i :: 0 <= i < |rest| ==> rest[i] in counts
    ensures IsFirstMax(counts, [best] + rest, MaxBy(counts, best, rest))
    decreases |rest|
  {
    if rest == [] {
      assert ([best] + rest)[0] == best;
    } else {
      var x := rest[0];
      if counts[x] > counts[best] {
        MaxBySpec(counts, x, rest[1..]);
        assert [x] + rest[1..] == rest;
        MaxByGreater(counts, best, rest, MaxBy(counts, x, rest[1..]));
      } else {
        MaxBySpec(counts, best, rest[1..]);
        MaxByNotGreater(counts, best, rest, MaxBy(counts, best, rest[1..]));
      }
    }
  }

  /** A strictly larger second item takes over from the first. */
  lemma MaxByGreater(counts: map<string, nat>, best: string, rest: seq<string>, m: string)
    requires best in counts && rest != []
    requires forall i :: 0 <= i < |rest| ==> rest[i] in counts
    requires counts[rest[0]] > counts[best]
    requires m in counts && IsFirstMax(counts, rest, m)
    ensures IsFirstMax(counts, [best] + rest, m)
  {
    var s := [best] + rest;
    assert forall i :: 1 <= i < |s| ==> s[i] == rest[i - 1];
    var k :| 0 <= k < |rest| && rest[k] == m && forall i :: 0 <= i < k ==> counts[rest[i]] < counts[m];
    assert counts[best] < counts[rest[0]] <= counts[m];
    assert s[k + 1] == m;
    assert forall i :: 0 <= i < k + 1 ==> counts[s[i]] < counts[m];
  }

  /** A second item that is not larger drops out of the race. */
  lemma MaxByNotGreater(counts: map<string, nat>, best: string, rest: seq<string>, m: string)
    requires best in counts && rest != []
    requires forall i :: 0 <= i < |rest| ==> rest[i] in counts
    requires counts[rest[0]] <= counts[best]
    requires m in counts && IsFirstMax(counts, [best] + rest[1..], m)
    ensures IsFirstMax(counts, [best] + rest, m)
  {
    var s := [best] + rest;
    var s' := [best] + rest[1..];
    assert forall i :: 1 <= i < |s'| ==> s'[i] == s[i + 1];
    assert s'[0] == s[0] == best && s[1] == rest[0];
    assert counts[s'[0]] <= counts[m];
    var k :| 0 <= k < |s'| && s'[k] == m && forall i :: 0 <= i < k ==> counts[s'[i]] < counts[m];
    forall i | 0 <= i < |s| ensures counts[s[i]] <= counts[m] {
      if i >= 2 {
        assert s[i] == s'[i - 1];
      }
    }
    if k == 0 {
      assert s[0] == m;
    } else {
      assert counts[best] < counts[m];
      assert s[k + 1] == m;
      forall i | 0 <= i < k + 1 ensures counts[s[i]] < counts[m] {
        if i >= 2 {
          assert s[i] == s'[i - 1];
        }
      }
    }
  }

  /** `Counter(tags).most_common(1)[0][0]`: the first tag, in first-seen
      order, whose count is maximal. It occurs in `tags` and no tag occurs
      more often; every tag first seen before it occurs less often. */
  function MostCommon(tags: seq<string>): (m: string)
    requires tags != []
    ensures m in tags
    ensures forall t :: t in tags ==> multiset(tags)[t] <= multiset(tags)[m]
    ensures var order := Dedup({}, tags);
      exists k :: 0 <= k < |order| && order[k] == m &&
        forall i :: 0 <= i < k ==> multiset(tags)[order[i]] < multiset(tags)[m]
  {
    var order := Dedup({}, tags);
    DedupSpec({}, tags);
    ScanMostCommon(tags, order);
    MaxBy(Counts(tags), order[0], order[1..])
  }

  /** The scan over the first-seen order picks a most frequent tag, the
      first one in that order. */
  lemma ScanMostCommon(tags: seq<string>, order: seq<string>)
    requires order != []
    requires forall t :: t in order <==> t in tags
    ensures var m := MaxBy(Counts(tags), order[0], order[1..]);
      && m in tags
      && (forall t :: t in tags ==> multiset(tags)[t] <= multiset(tags)[m])
      && exists k :: 0 <= k < |order| && order[k] == m &&
           forall i :: 0 <= i < k ==> multiset(tags)[order[i]] < multiset(tags)[m]
  {
    var counts := Counts(tags);
    HeadTail(order);
    MaxBySpec(counts, order[0], order[1..]);
    FirstMaxCounts(tags, order, MaxBy(counts, order[0], order[1..]));
  }

  /** A first maximum by `Counts` over a listing of the distinct tags is a
      most frequent tag. */
  lemma FirstMaxCounts(tags: seq<string>, order: seq<string>, m: string)
    requires forall t :: t in order <==> t in tags
    requires m in Counts(tags)
    requires forall i :: 0 <= i < |order| ==> order[i] in Counts(tags)
    requires IsFirstMax(Counts(tags), order, m)
    ensures m in tags
    ensures forall t :: t in tags ==> multiset(tags)[t] <= multiset(tags)[m]
    ensures exists k :: 0 <= k < |order| && order[k] == m &&
              forall i :: 0 <= i < k ==> multiset(tags)[order[i]] < multiset(tags)[m]
  {
    var counts := Counts(tags);
    forall t | t in tags ensures multiset(tags)[t] <= multiset(tags)[m] {
      var i :| 0 <= i < |order| && order[i] == t;
    }
  }

  /** `MajorityTag.train(train_toks)`: unpacking `zip(*[])` fails on no
      tokens; otherwise the most common label and the set of labels. */
  function TrainMajority(toks: seq<Labeled>): (r: Result<MajorityTag>)
    ensures r.Ok? <==> toks != []
    ensures r.Err? ==> r.error == UnpackError
    ensures r.Ok? ==> forall t :: t in r.value.tagset <==> t in LabelsOf(toks)
    ensures r.Ok? ==> r.value.majorityTag in r.value.tagset
  {
    if toks == [] then Err(UnpackError)
    else
      var tags := LabelsOf(toks);
      Ok(MajorityTag(MostCommon(tags), Counts(tags).Keys))
  }

  /** `MajorityTag.classify(featureset)`: the majority tag, whatever the
      features. */
  function ClassifyMajority(c: MajorityTag, features: Featureset): (r: string)
    ensures c.majorityTag in c.tagset ==> r in c.tagset
  {
    c.majorityTag
  }

  /** A trained majority classifier gives the same answer for any two
      feature sets: a training label that no other label outnumbers. */
  lemma ClassifyTrained(toks: seq<Labeled>, features: Featureset, other: Featureset)
    requires TrainMajority(toks).Ok?
    ensures var c := TrainMajority(toks).value;
      ClassifyMajority(c, features) == ClassifyMajority(c, other)
    ensures var r, tags := ClassifyMajority(TrainMajority(toks).value, features), LabelsOf(toks);
      && r in tags
      && forall t :: t in tags ==> multiset(tags)[t] <= multiset(tags)[r]
  {
  }

  /** How many positions of `predicted` agree with `gold`. */
  function Hits(predicted: seq<string>, gold: seq<string>): nat
    requires |predicted| == |gold|
  {
    if gold == [] then 0
    else (if predicted[0] == gold[0] then 1 else 0) + Hits(predicted[1..], gold[1..])
  }

  /** The predictions of a classifier that answers `t` everywhere. */
  function Constant(t: string, n: nat): (r: seq<string>)
    ensures |r| == n
    ensures forall i :: 0 <= i < n ==> r[i] == t
  {
    if n == 0 then [] else [t] + Constant(t, n - 1)
  }

  lemma {:induction false} ConstantHits(t: string, gold: seq<string>)
    ensures Hits(Constant(t, |gold|), gold) == multiset(gold)[t]
  {
    if gold != [] {
      var p := Constant(t, |gold|);
      var g := gold[1..];
      ConstantHits(t, g);
      assert p == [t] + Constant(t, |g|);
      assert p[1..] == Constant(t, |g|);
      assert Hits(p, gold) == (if t == gold[0] then 1 else 0) + Hits(Constant(t, |g|), g);
      assert gold == [gold[0]] + g;
      assert multiset(gold) == multiset{gold[0]} + multiset(g);
    }
  }

  /** The trained majority classifier answers its tag on every training
      token, and no constant answer gets more training tokens right. */
  lemma MajorityIsBestConstant(toks: seq<Labeled>, t: string)
    requires toks != []
    ensures var c := TrainMajority(toks).value;
      var gold := LabelsOf(toks);
      var predicted := seq(|toks|, i requires 0 <= i < |toks| => ClassifyMajority(c, toks[i].features));
      && predicted == Constant(c.majorityTag, |toks|)
      && Hits(Constant(t, |toks|), gold) <= Hits(predicted, gold)
  {
    var c := TrainMajority(toks).value;
    var gold := LabelsOf(toks);
    ConstantHits(t, gold);
    ConstantHits(c.majorityTag, gold);
    if t !in gold {
      assert multiset(gold)[t] == 0;
    }
  }

  /** Majority training reads only the labels: the dummy and the word
      feature sets of the same words train the same classifier. */
  lemma MajorityIgnoresFeatures(tagged: seq<WordTagPair>)
    ensures TrainMajority(MakeDummyFeaturesets(tagged)) == TrainMajority(MakeWordFeaturesets(tagged))
  {
    FeaturesetLabels(tagged);
  }

  // MemoTraining

  datatype MemoTraining = MemoTraining(memo: map<string, string>, tagset: set<string>)

  /** The loop of `MemoTraining.train`: each token's `featureset['word']`
      is looked up (KeyError when absent) and mapped to its tag,
      overwriting an earlier entry. */
  function MemoLoop(m: MemoTraining, toks: seq<Labeled>): (r: Result<MemoTraining>)
    ensures r.Err? ==> r.error == KeyError
    ensures r.Ok? ==> m.memo.Keys <= r.value.memo.Keys && m.tagset <= r.value.tagset
    decreases |toks|
  {
    if toks == [] then Ok(m)
    else if WordKey !in toks[0].features then Err(KeyError)
    else
      var w := toks[0].features[WordKey];
      MemoLoop(MemoTraining(m.memo[w := toks[0].tag], m.tagset + {toks[0].tag}), toks[1..])
  }

  /** `MemoTraining.train(train_toks)`: the loop from an empty memo. It
      fails exactly when a token has no word feature; otherwise it maps
      exactly the training words, each to the tag of its last occurrence,
      and its tag set is exactly the training labels. */
  function TrainMemo(toks: seq<Labeled>): (r: Result<MemoTraining>)
    ensures r.Ok? <==> HasWords(toks)
    ensures r.Err? ==> r.error == KeyError
    ensures r.Ok? ==> forall w :: w in r.value.memo <==> HasWord(toks, w)
    ensures r.Ok? ==> forall w, i :: LastWith(toks, w, i) ==> w in r.value.memo && r.value.memo[w] == toks[i].tag
    ensures r.Ok? ==> forall t :: t in r.value.tagset <==> t in LabelsOf(toks)
  {
    MemoLoopSpec(MemoTraining(map[], {}), toks);
    MemoLoop(MemoTraining(map[], {}), toks)
  }

  /** Every token has a word feature. */
  predicate HasWords(toks: seq<Labeled>)
  {
    forall i :: 0 <= i < |toks| ==> WordKey in toks[i].features
  }

  /** Token `i` is the last one with word `w`. */
  predicate LastWith(toks: seq<Labeled>, w: string, i: int)
    requires HasWords(toks)
  {
    && 0 <= i < |toks| && toks[i].features[WordKey] == w
    && forall j :: i < j < |toks| ==> toks[j].features[WordKey] != w
  }

  predicate HasWord(toks: seq<Labeled>, w: string)
    requires HasWords(toks)
  {
    exists i :: 0 <= i < |toks| && toks[i].features[WordKey] == w
  }

  /** Memo training fails exactly when some token has no word feature;
      otherwise each training word maps to the tag of its last
      occurrence, words never seen keep their earlier entry, and the tag
      set gains every label. */
  lemma {:induction false} MemoLoopSpec(m: MemoTraining, toks: seq<Labeled>)
    ensures MemoLoop(m, toks).Ok? <==> HasWords(toks)
    ensures MemoLoop(m, toks).Err? ==> MemoLoop(m, toks).error == KeyError
    ensures MemoLoop(m, toks).Ok? ==>
      var r := MemoLoop(m, toks).value;
      && (forall w :: w in r.memo <==> w in m.memo || HasWord(toks, w))
      && (forall w, i :: LastWith(toks, w, i) ==> r.memo[w] == toks[i].tag)
      && (forall w :: w in m.memo && !HasWord(toks, w) ==> r.memo[w] == m.memo[w])
      && (forall t :: t in r.tagset <==> t in m.tagset || t in LabelsOf(toks))
    decreases |toks|
  {
    if toks != [] {
      var rest := toks[1..];
      assert HasWords(toks) <==> WordKey in toks[0].features && HasWords(rest) by {
        assert forall i :: 0 <= i < |rest| ==> rest[i] == toks[i + 1];
      }
      if WordKey in toks[0].features {
        var w0 := toks[0].features[WordKey];
        var m' := MemoTraining(m.memo[w0 := toks[0].tag], m.tagset + {toks[0].tag});
        MemoLoopSpec(m', rest);
        if HasWords(toks) {
          MemoStep(m, toks);
        }
      }
    }
  }

  /** The facts about the rest of the tokens carry over to all of them. */
  lemma MemoStep(m: MemoTraining, toks: seq<Labeled>)
    requires toks != [] && HasWords(toks)
    requires var w0 := toks[0].features[WordKey];
      var m' := MemoTraining(m.memo[w0 := toks[0].tag], m.tagset + {toks[0].tag});
      var rest := toks[1..];
      && HasWords(rest)
      && MemoLoop(m', rest).Ok?
      && (forall w :: w in MemoLoop(m', rest).value.memo <==> w in m'.memo || HasWord(rest, w))
      && (forall w, i :: LastWith(rest, w, i) ==> MemoLoop(m', rest).value.memo[w] == rest[i].tag)
      && (forall w :: w in m'.memo && !HasWord(rest, w) ==> MemoLoop(m', rest).value.memo[w] == m'.memo[w])
      && (forall t :: t in MemoLoop(m', rest).value.tagset <==> t in m'.tagset || t in LabelsOf(rest))
    ensures MemoLoop(m, toks).Ok?
    ensures var r := MemoLoop(m, toks).value;
      && (forall w :: w in r.memo <==> w in m.memo || HasWord(toks, w))
      && (forall w, i :: LastWith(toks, w, i) ==> r.memo[w] == toks[i].tag)
      && (forall w :: w in m.memo && !HasWord(toks, w) ==> r.memo[w] == m.memo[w])
      && (forall t :: t in r.tagset <==> t in m.tagset || t in LabelsOf(toks))
  {
    var w0 := toks[0].features[WordKey];
    var m' := MemoTraining(m.memo[w0 := toks[0].tag], m.tagset + {toks[0].tag});
    var rest := toks[1..];
    var r := MemoLoop(m', rest).value;
    assert MemoLoop(m, toks) == MemoLoop(m', rest);
    forall w ensures HasWord(toks, w) <==> w == w0 || HasWord(rest, w) {
      if HasWord(rest, w) {
        var j :| 0 <= j < |rest| && rest[j].features[WordKey] == w;
        assert toks[j + 1] == rest[j];
      }
      if HasWord(toks, w) && w != w0 {
        var j :| 0 <= j < |toks| && toks[j].features[WordKey] == w;
        assert rest[j - 1] == toks[j];
      }
    }
    forall w, i | LastWith(toks, w, i) ensures r.memo[w] == toks[i].tag {
      if i == 0 {
        assert !HasWord(rest, w) by {
          forall j | 0 <= j < |rest| ensures rest[j].features[WordKey] != w {
            assert rest[j] == toks[j + 1];
          }
        }
      } else {
        assert LastWith(rest, w, i - 1) by {
          forall j | i - 1 < j < |rest| ensures rest[j].features[WordKey] != w {
            assert rest[j] == toks[j + 1];
          }
        }
      }
    }
    assert LabelsOf(toks) == [toks[0].tag] + LabelsOf(rest);
  }

  /** `MemoTraining.classify(featureset)`: KeyError when the feature set
      has no word, or the word was never seen in training. */
  function ClassifyMemo(c: MemoTraining, features: Featureset): (r: Result<string>)
    ensures r.Ok? <==> WordKey in features && features[WordKey] in c.memo
    ensures r.Err? ==> r.error == KeyError
    ensures r.Ok? ==> r.value == c.memo[features[WordKey]]
  {
    if WordKey !in features then Err(KeyError)
    else if features[WordKey] !in c.memo then Err(KeyError)
    else Ok(c.memo[features[WordKey]])
  }

  /** A word is consistently tagged when all its occurrences share a tag. */
  predicate Consistent(tagged: seq<WordTagPair>)
  {
    forall i, j :: 0 <= i < |tagged| && 0 <= j < |tagged| && tagged[i].word == tagged[j].word ==>
      tagged[i].tag == tagged[j].tag
  }

  /** Trained on word feature sets, memorisation succeeds, answers every
      training word with the tag of its last occurrence, raises KeyError
      on a word outside training, and collects exactly the corpus tags. */
  lemma MemoRecallsTraining(tagged: seq<WordTagPair>, w: string)
    ensures TrainMemo(MakeWordFeaturesets(tagged)).Ok?
    ensures var c := TrainMemo(MakeWordFeaturesets(tagged)).value;
      && (forall i :: 0 <= i < |tagged| && (forall j :: i < j < |tagged| ==> tagged[j].word != tagged[i].word) ==>
            ClassifyMemo(c, map[WordKey := tagged[i].word]) == Ok(tagged[i].tag))
      && ((forall i :: 0 <= i < |tagged| ==> tagged[i].word != w) ==>
            ClassifyMemo(c, map[WordKey := w]) == Err(KeyError))
      && (forall t :: t in c.tagset <==> t in TagsOf(tagged))
  {
    WordMemo(tagged);
    var c := TrainMemo(MakeWordFeaturesets(tagged)).value;
    forall i | 0 <= i < |tagged| && (forall j :: i < j < |tagged| ==> tagged[j].word != tagged[i].word)
      ensures ClassifyMemo(c, map[WordKey := tagged[i].word]) == Ok(tagged[i].tag)
    {
      RecallLast(tagged, i);
    }
    if forall i :: 0 <= i < |tagged| ==> tagged[i].word != w {
      RecallUnseen(tagged, w);
    }
  }

  /** The last occurrence of a word decides its memorised tag. */
  lemma RecallLast(tagged: seq<WordTagPair>, i: int)
    requires 0 <= i < |tagged|
    requires forall j :: i < j < |tagged| ==> tagged[j].word != tagged[i].word
    ensures TrainMemo(MakeWordFeaturesets(tagged)).Ok?
    ensures ClassifyMemo(TrainMemo(MakeWordFeaturesets(tagged)).value, map[WordKey := tagged[i].word]) == Ok(tagged[i].tag)
  {
    WordMemo(tagged);
    assert LastWith(MakeWordFeaturesets(tagged), tagged[i].word, i);
  }

  /** A word outside training is not memorised. */
  lemma RecallUnseen(tagged: seq<WordTagPair>, w: string)
    requires forall i :: 0 <= i < |tagged| ==> tagged[i].word != w
    ensures TrainMemo(MakeWordFeaturesets(tagged)).Ok?
    ensures ClassifyMemo(TrainMemo(MakeWordFeaturesets(tagged)).value, map[WordKey := w]) == Err(KeyError)
  {
    WordMemo(tagged);
    assert !HasWord(MakeWordFeaturesets(tagged), w);
  }

  /** Memo training from scratch on word feature sets. */
  lemma WordMemo(tagged: seq<WordTagPair>)
    ensures HasWords(MakeWordFeaturesets(tagged))
    ensures TrainMemo(MakeWordFeaturesets(tagged)).Ok?
    ensures forall t :: t in TrainMemo(MakeWordFeaturesets(tagged)).value.tagset <==> t in TagsOf(tagged)
  {
    FeaturesetLabels(tagged);
  }

  /** When every word is consistently tagged, memorisation reproduces the
      training tags exactly. */
  lemma MemoConsistent(tagged: seq<WordTagPair>)
    requires Consistent(tagged)
    ensures TrainMemo(MakeWordFeaturesets(tagged)).Ok?
    ensures forall i :: 0 <= i < |tagged| ==>
      ClassifyMemo(TrainMemo(MakeWordFeaturesets(tagged)).value, map[WordKey := tagged[i].word]) == Ok(tagged[i].tag)
  {
    var toks := MakeWordFeaturesets(tagged);
    WordMemo(tagged);
    var c := TrainMemo(toks).value;
    forall i | 0 <= i < |tagged| ensures ClassifyMemo(c, map[WordKey := tagged[i].word]) == Ok(tagged[i].tag) {
      var k := LastIndex(toks, tagged[i].word, i);
      assert tagged[k].word == tagged[i].word;
    }
  }

  /** Dummy feature sets have no word, so memorisation on a non-empty
      list of them fails with KeyError. */
  lemma MemoNeedsWords(tagged: seq<WordTagPair>)
    ensures TrainMemo(MakeDummyFeaturesets(tagged)).Ok? <==> tagged == []
    ensures tagged != [] ==> TrainMemo(MakeDummyFeaturesets(tagged)) == Err(KeyError)
  {
    MemoLoopSpec(MemoTraining(map[], {}), MakeDummyFeaturesets(tagged));
    if tagged != [] {
      assert WordKey !in MakeDummyFeaturesets(tagged)[0].features;
    }
  }

  /** The last token with word `w`, given one at or after `i`. */
  lemma LastIndex(toks: seq<Labeled>, w: string, i: int) returns (k: int)
    requires HasWords(toks) && 0 <= i < |toks| && toks[i].features[WordKey] == w
    ensures i <= k && LastWith(toks, w, k)
    decreases |toks| - i
  {
    if j :| i < j < |toks| && toks[j].features[WordKey] == w {
      k := LastIndex(toks, w, j);
    } else {
      k := i;
    }
  }
}
