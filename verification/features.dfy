/** Feature extraction for the scikit-learn baseline (src/features.py):
    one `(input, target)` example per id-encoded token. */
module Features {

  /** A token with its word and tag ids. The record is imported from
      src/vocab.py, which does not define it; only the two id fields are
      read. */
  datatype WordTagIdPair = WordTagIdPair(wordId: nat, tagId: nat)

  /** An `(input tuple, target)` example. */
  datatype Example = Example(input: seq<int>, target: nat)

  /** `extract_dummy_features`: the constant input `(0, 0)` for every
      token, with its tag id as target. */
  function ExtractDummyFeatures(corpus: seq<WordTagIdPair>): (r: seq<Example>)
    ensures |r| == |corpus|
    ensures forall i :: 0 <= i < |r| ==> r[i] == Example([0, 0], corpus[i].tagId)
  {
    if corpus == [] then [] else [Example([0, 0], corpus[0].tagId)] + ExtractDummyFeatures(corpus[1..])
  }

  /** `extract_identity_features`: the 1-tuple `(word_id,)` for every
      token, with its tag id as target. */
  function ExtractIdentityFeatures(corpus: seq<WordTagIdPair>): (r: seq<Example>)
    ensures |r| == |corpus|
    ensures forall i :: 0 <= i < |r| ==> r[i] == Example([corpus[i].wordId], corpus[i].tagId)
  {
    if corpus == [] then [] else [Example([corpus[0].wordId], corpus[0].tagId)] + ExtractIdentityFeatures(corpus[1..])
  }

  function Targets(examples: seq<Example>): (ts: seq<nat>)
    ensures |ts| == |examples|
    ensures forall i :: 0 <= i < |examples| ==> ts[i] == examples[i].target
  {
    if examples == [] then [] else [examples[0].target] + Targets(examples[1..])
  }

  function TagIds(corpus: seq<WordTagIdPair>): (ts: seq<nat>)
    ensures |ts| == |corpus|
    ensures forall i :: 0 <= i < |corpus| ==> ts[i] == corpus[i].tagId
  {
    if corpus == [] then [] else [corpus[0].tagId] + TagIds(corpus[1..])
  }

  /** Both extractors keep one example per token and use the token's tag
      id as its target, in order. */
  lemma {:induction false} ExtractTargets(corpus: seq<WordTagIdPair>)
    ensures Targets(ExtractDummyFeatures(corpus)) == TagIds(corpus)
    ensures Targets(ExtractIdentityFeatures(corpus)) == TagIds(corpus)
  {
    if corpus != [] {
      ExtractTargets(corpus[1..]);
      assert ExtractDummyFeatures(corpus)[1..] == ExtractDummyFeatures(corpus[1..]);
      assert ExtractIdentityFeatures(corpus)[1..] == ExtractIdentityFeatures(corpus[1..]);
    }
  }

  /** Reading a token back from an identity example. */
  function Decode(e: Example): WordTagIdPair
    requires |e.input| == 1 && e.input[0] >= 0
  {
    WordTagIdPair(e.input[0], e.target)
  }

  /** The identity examples lose nothing: decoding them gives the corpus
      back. */
  lemma IdentityRoundTrip(corpus: seq<WordTagIdPair>)
    ensures var ex := ExtractIdentityFeatures(corpus);
      && (forall i :: 0 <= i < |ex| ==> |ex[i].input| == 1 && ex[i].input[0] >= 0)
      && seq(|ex|, i requires 0 <= i < |ex| && |ex[i].input| == 1 && ex[i].input[0] >= 0 => Decode(ex[i])) == corpus
  {
  }

  /** The dummy examples carry only the tags: corpora with the same tag
      ids give the same examples, whatever their words. */
  lemma DummyIgnoresWords(a: seq<WordTagIdPair>, b: seq<WordTagIdPair>)
    requires TagIds(a) == TagIds(b)
    ensures ExtractDummyFeatures(a) == ExtractDummyFeatures(b)
  {
    assert |a| == |TagIds(a)| == |b|;
    forall i | 0 <= i < |a| ensures a[i].tagId == b[i].tagId {
      assert TagIds(a)[i] == TagIds(b)[i];
    }
  }
}
