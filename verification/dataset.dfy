/** `CoNLL` (src/dataset.py): the earlier loader, which closes a sentence on
    every blank row, even an empty one, plus the string forms of pairs and
    sentences. */
module Dataset {
  import opened Results
  import opened Seqs
  import opened Text
  import opened Tokens

  /** `str(pair)`: the word and the tag separated by a slash. */
  function PairString(p: WordTagPair): (r: string)
    ensures |r| == |p.word| + 1 + |p.tag|
    ensures r[|p.word|] == '/'
    ensures r[..|p.word|] == p.word && r[|p.word| + 1..] == p.tag
  {
    p.word + "/" + p.tag
  }

  /** Splits a `word/tag` string at its last slash. */
  function ParsePair(s: string): Option<WordTagPair>
  {
    var k := FindLast(s, '/');
    if k < 0 then None else Some(WordTagPair(s[..k], s[k + 1..]))
  }

  /** The slash form is reversible whenever the tag has no slash (words
      may contain slashes). */
  lemma PairStringRoundTrip(p: WordTagPair)
    requires '/' !in p.tag
    ensures ParsePair(PairString(p)) == Some(p)
  {
    var s := PairString(p);
    assert forall j :: |p.word| < j < |s| ==> s[j] == p.tag[j - |p.word| - 1];
  }

  function PairStrings(s: Sentence): (r: seq<string>)
    ensures |r| == |s|
    ensures forall i :: 0 <= i < |s| ==> r[i] == PairString(s[i])
  {
    if s == [] then [] else [PairString(s[0])] + PairStrings(s[1..])
  }

  /** `str(sentence)`: the pair strings joined by two spaces. */
  function SentenceString(s: Sentence): (r: string)
    ensures s == [] ==> r == ""
    ensures |s| == 1 ==> r == PairString(s[0])
  {
    Join(PairStrings(s), "  ")
  }

  /** The rendering of a sentence is the renderings of its parts, two
      spaces apart. */
  lemma SentenceStringAppend(a: Sentence, b: Sentence)
    requires a != [] && b != []
    ensures SentenceString(a + b) == SentenceString(a) + "  " + SentenceString(b)
  {
    assert PairStrings(a + b) == PairStrings(a) + PairStrings(b);
    JoinAppend(PairStrings(a), PairStrings(b), "  ");
  }

  /** The number of characters of each word and tag plus one slash per
      pair. */
  function RenderedSize(s: Sentence): nat
  {
    if s == [] then 0 else |s[0].word| + 1 + |s[0].tag| + RenderedSize(s[1..])
  }

  /** A rendered non-empty sentence is as long as its pair strings plus two
      characters per gap. */
  lemma {:induction false} SentenceStringLength(s: Sentence)
    requires s != []
    ensures |SentenceString(s)| == RenderedSize(s) + 2 * (|s| - 1)
  {
    if |s| > 1 {
      SentenceStringLength(s[1..]);
      assert s == [s[0]] + s[1..];
      SentenceStringAppend([s[0]], s[1..]);
    }
  }

  /** The constructor's defaults: the training set, read at once. */
  const DefaultWhich := "train"
  const DefaultLoad := true

  /** The two datasets a `CoNLL` object may load. */
  predicate IsWhich(which: string)
  {
    which == "train" || which == "dev"
  }

  /** The state of a `CoNLL` object: which file, its sentences and its
      `_tag_index`. */
  datatype CoNLL = CoNLL(which: string, sentences: seq<Sentence>, tagIndex: TagIndex)

  /** One iteration of the loop in `load`: a blank row always stores the
      sentence read so far. */
  function Step(st: Loader, row: Row): Result<Loader>
  {
    if row != [] then
      var pair :- ReadRow(row);
      Ok(Loader(st.done, st.pending + [pair], Record(st.index, pair)))
    else Ok(Loader(st.done + [st.pending], [], st.index))
  }

  function Run(st: Loader, rows: seq<Row>): Result<Loader>
    decreases |rows|
  {
    if rows == [] then Ok(st)
    else
      var st' :- Step(st, rows[0]);
      Run(st', rows[1..])
  }

  /** The flush after the loop: only a non-empty sentence is stored. */
  function Finish(st: Loader): seq<Sentence>
  {
    if st.pending != [] then st.done + [st.pending] else st.done
  }

  lemma {:induction false} RunFails(st: Loader, rows: seq<Row>)
    ensures Run(st, rows).Ok? <==> WellFormed(rows)
    ensures Run(st, rows).Err? ==> Run(st, rows).error == IndexError
    decreases |rows|
  {
    if rows != [] {
      assert rows == [rows[0]] + rows[1..];
      WellFormedCons(rows[0], rows[1..]);
      if RowOk(rows[0]) {
        RunFails(Step(st, rows[0]).value, rows[1..]);
      }
    }
  }

  /** The state the loop should reach: every block but the last is stored,
      empty or not, the first continuing the pending sentence; the last
      block is left pending; every pair is recorded in the index. */
  function Expected(st: Loader, rows: seq<Row>): Loader
    requires WellFormed(rows)
  {
    var x := Continue(st.pending, Blocks(rows));
    Loader(st.done + x[..|x| - 1], x[|x| - 1], RecordAll(st.index, Pairs(rows)))
  }

  lemma {:induction false} RunSpec(st: Loader, rows: seq<Row>)
    requires WellFormed(rows)
    ensures Run(st, rows) == Ok(Expected(st, rows))
    decreases |rows|
  {
    RunFails(st, rows);
    if rows == [] {
      assert Pairs([]) == [];
      assert st.pending + [] == st.pending;
      assert Continue(st.pending, [[]]) == [st.pending];
      assert st.done + [] == st.done;
    } else {
      var row, rest := rows[0], rows[1..];
      assert rows == [row] + rest;
      WellFormedCons(row, rest);
      var b' := Blocks(rest);
      if row != [] {
        var p := PairOf(row);
        var st' := Loader(st.done, st.pending + [p], Record(st.index, p));
        BlocksCons(row, rest);
        assert Run(st, rows) == Run(st', rest);
        RunSpec(st', rest);
        ContinueCons(st.pending, p, b');
        RecordAllCons(st.index, p, Pairs(rest));
      } else {
        var st' := Loader(st.done + [st.pending], [], st.index);
        assert Run(st, rows) == Run(st', rest);
        RunSpec(st', rest);
        ExpectedBlank(st, rows);
      }
    }
  }

  lemma {:induction false} ExpectedBlank(st: Loader, rows: seq<Row>)
    requires rows != [] && rows[0] == []
    requires WellFormed(rows) && WellFormed(rows[1..])
    ensures Expected(Loader(st.done + [st.pending], [], st.index), rows[1..]) == Expected(st, rows)
  {
    var rest := rows[1..];
    var b' := Blocks(rest);
    assert rows == [[]] + rest;
    BlankCons(rest);
    ContinueEmpty(b');
    ContinueAfterBlank(st.pending, b');
    AppendAssoc(st.done, [st.pending], b'[..|b'| - 1]);
  }

  /** The blocks of `rows` as `load` stores them: all of them, except a
      last block that is empty. */
  function StoredBlocks(rows: seq<Row>): seq<Sentence>
    requires WellFormed(rows)
  {
    var b := Blocks(rows);
    if b[|b| - 1] != [] then b else b[..|b| - 1]
  }

  /** `load()`: resets the sentences and the index, then reads `rows`.
      It fails with IndexError exactly when a row has one field; otherwise
      it stores one sentence per blank row (possibly empty) and the final
      pending sentence if non-empty, and indexes every pair. */
  function Load(c: CoNLL, rows: seq<Row>): (r: Result<CoNLL>)
    ensures r.Ok? <==> WellFormed(rows)
    ensures r.Err? ==> r.error == IndexError
    ensures r.Ok? ==> r.value.which == c.which
    ensures r.Ok? ==> r.value.sentences == StoredBlocks(rows)
    ensures r.Ok? ==> r.value.tagIndex == IndexOf(Pairs(rows))
  {
    var start := Loader([], [], EmptyIndex);
    RunFails(start, rows);
    var st :- Run(start, rows);
    LoadShape(rows);
    Ok(CoNLL(c.which, Finish(st), st.index))
  }

  lemma {:induction false} LoadShape(rows: seq<Row>)
    requires WellFormed(rows)
    ensures Run(Loader([], [], EmptyIndex), rows).Ok?
    ensures var st := Run(Loader([], [], EmptyIndex), rows).value;
      && Finish(st) == StoredBlocks(rows)
      && st.index == IndexOf(Pairs(rows))
  {
    var start := Loader([], [], EmptyIndex);
    RunSpec(start, rows);
    var b := Blocks(rows);
    ContinueEmpty(b);
    FinishStored(b, IndexOf(Pairs(rows)));
  }

  /** Flushing the last block stores it only when it is non-empty. */
  lemma FinishStored(b: seq<Sentence>, ix: TagIndex)
    requires |b| >= 1
    ensures Finish(Loader([] + b[..|b| - 1], b[|b| - 1], ix))
         == if b[|b| - 1] != [] then b else b[..|b| - 1]
  {
    assert [] + b[..|b| - 1] == b[..|b| - 1];
    SplitLast(b);
  }

  /** All pairs of the stored sentences, in order. */
  function Flatten(c: CoNLL): seq<WordTagPair>
  {
    Concat(c.sentences)
  }

  /** A loaded dataset has one sentence per blank row, plus one when a
      non-empty sentence is pending at the end; its sentences together hold
      every row's pair in order; and the index lists under each tag exactly
      the words carrying it, its list lengths adding up to the number of
      pairs. */
  lemma {:induction false} LoadSpec(c: CoNLL, rows: seq<Row>)
    requires Load(c, rows).Ok?
    ensures var loaded := Load(c, rows).value;
      var b := Blocks(rows);
      && |loaded.sentences| == BlankCount(rows) + (if b[|b| - 1] != [] then 1 else 0)
      && Flatten(loaded) == Pairs(rows)
      && ValidIndex(loaded.tagIndex)
      && (forall t :: Lookup(loaded.tagIndex, t) == WordsTagged(Flatten(loaded), t))
      && Total(loaded.tagIndex) == |Flatten(loaded)|
  {
    var loaded := Load(c, rows).value;
    assert loaded.sentences == StoredBlocks(rows);
    StoredBlocksSpec(rows);
    IndexOfSpec(Pairs(rows));
  }

  /** The stored blocks: one per blank row, plus a non-empty last one; they
      hold every pair in order. */
  lemma StoredBlocksSpec(rows: seq<Row>)
    requires WellFormed(rows)
    ensures var b := Blocks(rows);
      |StoredBlocks(rows)| == BlankCount(rows) + (if b[|b| - 1] != [] then 1 else 0)
    ensures Concat(StoredBlocks(rows)) == Pairs(rows)
  {
    var b := Blocks(rows);
    BlocksCount(rows);
    BlocksConcat(rows);
    if b[|b| - 1] == [] {
      var init := b[..|b| - 1];
      assert Concat(b) == Concat(init) by {
        SplitLast(b);
        ConcatAppend(init, [[]]);
        ConcatCons<WordTagPair>([], []);
        AppendEmpty(Concat(init));
      }
    }
  }

  /** The constructor: rejects an unknown `which` before anything is read;
      with `load` it then reads the rows of that dataset. */
  function Open(rows: seq<Row>, which: string := DefaultWhich, load: bool := DefaultLoad): (r: Result<CoNLL>)
    ensures !IsWhich(which) ==> r == Err(BadWhich)
    ensures IsWhich(which) && !load ==> r == Ok(CoNLL(which, [], EmptyIndex))
    ensures IsWhich(which) && load ==> r == Load(CoNLL(which, [], EmptyIndex), rows)
  {
    if !IsWhich(which) then Err(BadWhich)
    else
      var c := CoNLL(which, [], EmptyIndex);
      if load then Load(c, rows) else Ok(c)
  }

  /** `summarize()`: the counts it prints. The word total is the sum of
      the per-tag lines, which follow the index's key order. */
  function Summarize(c: CoNLL): (s: Summary)
    ensures s.sentences == |c.sentences|
    ensures s.words == CountSum(s.perTag)
    ensures |s.perTag| == |c.tagIndex.order|
    ensures forall i :: 0 <= i < |s.perTag| ==> s.perTag[i] == (c.tagIndex.order[i], |Lookup(c.tagIndex, c.tagIndex.order[i])|)
  {
    SummaryOf(c.sentences, c.tagIndex)
  }

  /** The summary of a loaded dataset: one sentence per blank row (plus a
      pending one), all pairs as word tokens, and one line per distinct tag
      in first-seen order with its number of occurrences. */
  lemma SummarizeLoaded(c: CoNLL, rows: seq<Row>)
    requires Load(c, rows).Ok?
    ensures var b, s := Blocks(rows), Summarize(Load(c, rows).value);
      var order := Dedup({}, TagsOf(Pairs(rows)));
      && s.sentences == BlankCount(rows) + (if b[|b| - 1] != [] then 1 else 0)
      && s.words == |Pairs(rows)|
      && |s.perTag| == |order|
      && forall i :: 0 <= i < |order| ==> s.perTag[i] == (order[i], multiset(TagsOf(Pairs(rows)))[order[i]])
  {
    SummarizeOf(c.which, rows);
  }

  lemma SummarizeOf(which: string, rows: seq<Row>)
    requires WellFormed(rows)
    ensures var b, s := Blocks(rows), Summarize(CoNLL(which, StoredBlocks(rows), IndexOf(Pairs(rows))));
      var order := Dedup({}, TagsOf(Pairs(rows)));
      && s.sentences == BlankCount(rows) + (if b[|b| - 1] != [] then 1 else 0)
      && s.words == |Pairs(rows)|
      && |s.perTag| == |order|
      && forall i :: 0 <= i < |order| ==> s.perTag[i] == (order[i], multiset(TagsOf(Pairs(rows)))[order[i]])
  {
    StoredBlocksSpec(rows);
    IndexSummary(StoredBlocks(rows), Pairs(rows));
  }
}
