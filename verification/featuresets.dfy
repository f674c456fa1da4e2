/** Feature sets for the NLTK-style classifiers (src/featuresets.py): one
    labelled feature dictionary per tagged word. */
module Featuresets {
  import opened Tokens

  /** A feature dictionary with string keys and values. */
  type Featureset = map<string, string>

  /** A `(featureset, tag)` training token. */
  datatype Labeled = Labeled(features: Featureset, tag: string)

  /** The key under which the word feature set stores the word. */
  const WordKey := "word"

  /** `make_dummy_featuresets`: an empty dictionary for every tagged word. */
  function MakeDummyFeaturesets(tagged: seq<WordTagPair>): (r: seq<Labeled>)
    ensures |r| == |tagged|
    ensures forall i :: 0 <= i < |r| ==> r[i].features == map[] && r[i].tag == tagged[i].tag
  {
    if tagged == [] then [] else [Labeled(map[], tagged[0].tag)] + MakeDummyFeaturesets(tagged[1..])
  }

  /** `make_word_featuresets`: `{'word': word}` for every tagged word. */
  function MakeWordFeaturesets(tagged: seq<WordTagPair>): (r: seq<Labeled>)
    ensures |r| == |tagged|
    ensures forall i :: 0 <= i < |r| ==> r[i].features == map[WordKey := tagged[i].word] && r[i].tag == tagged[i].tag
  {
    if tagged == [] then [] else [Labeled(map[WordKey := tagged[0].word], tagged[0].tag)] + MakeWordFeaturesets(tagged[1..])
  }

  /** The labels of training tokens, in order. */
  function LabelsOf(toks: seq<Labeled>): (ls: seq<string>)
    ensures |ls| == |toks|
    ensures forall i :: 0 <= i < |toks| ==> ls[i] == toks[i].tag
  {
    if toks == [] then [] else [toks[0].tag] + LabelsOf(toks[1..])
  }

  /** Both feature sets carry the corpus tags as labels, in order: the
      label column is exactly the tag column of the tagged words. */
  lemma {:induction false} FeaturesetLabels(tagged: seq<WordTagPair>)
    ensures LabelsOf(MakeDummyFeaturesets(tagged)) == TagsOf(tagged)
    ensures LabelsOf(MakeWordFeaturesets(tagged)) == TagsOf(tagged)
  {
    if tagged != [] {
      FeaturesetLabels(tagged[1..]);
      assert MakeDummyFeaturesets(tagged)[1..] == MakeDummyFeaturesets(tagged[1..]);
      assert MakeWordFeaturesets(tagged)[1..] == MakeWordFeaturesets(tagged[1..]);
    }
  }

  /** The word of each token is read back from its word feature set. */
  lemma WordFeaturesetWords(tagged: seq<WordTagPair>, i: int)
    requires 0 <= i < |tagged|
    ensures WordKey in MakeWordFeaturesets(tagged)[i].features
    ensures MakeWordFeaturesets(tagged)[i].features[WordKey] == tagged[i].word
    ensures WordKey !in MakeDummyFeaturesets(tagged)[i].features
  {
  }
}
