/** `CoNLLCorpus` (src/corpus.py): sentences of word/tag pairs read from
    tab-split rows, with optional stripping of `-DOCSTART-` rows, and the
    per-tag word index. */
module Corpus {
  import opened Results
  import opened Seqs
  import opened Tokens
  import Dataset

  const DocStartToken := "-DOCSTART-"

  /** `strip_docstarts` defaults to true in the constructor. */
  const DefaultStripDocstarts := true

  /** The state of a corpus object: its option, its sentences and its
      `_tag_index`. */
  datatype CoNLLCorpus = CoNLLCorpus(stripDocstarts: bool, sentences: seq<Sentence>, tagIndex: TagIndex)

  /** A `-DOCSTART-` row that `load` skips. */
  predicate Stripped(strip: bool, row: Row)
  {
    strip && row != [] && row[0] == DocStartToken
  }

  /** The rows `load` does not skip, in order. */
  function Kept(strip: bool, rows: seq<Row>): seq<Row>
  {
    if rows == [] then []
    else (if Stripped(strip, rows[0]) then [] else [rows[0]]) + Kept(strip, rows[1..])
  }

  lemma {:induction false} KeptAppend(strip: bool, a: seq<Row>, b: seq<Row>)
    ensures Kept(strip, a + b) == Kept(strip, a) + Kept(strip, b)
  {
    if a == [] {
      assert a + b == b;
    } else {
      assert (a + b)[1..] == a[1..] + b;
      KeptAppend(strip, a[1..], b);
    }
  }

  /** One iteration of the loop in `load` on one row. */
  function Step(strip: bool, st: Loader, row: Row): Result<Loader>
  {
    if row != [] then
      if Stripped(strip, row) then Ok(st)
      else
        var pair :- ReadRow(row);
        Ok(Loader(st.done, st.pending + [pair], Record(st.index, pair)))
    else if st.pending != [] then Ok(Loader(st.done + [st.pending], [], st.index))
    else Ok(st)
  }

  /** The loop of `load` over `rows`; the first failing row aborts it. */
  function Run(strip: bool, st: Loader, rows: seq<Row>): Result<Loader>
    decreases |rows|
  {
    if rows == [] then Ok(st)
    else
      var st' :- Step(strip, st, rows[0]);
      Run(strip, st', rows[1..])
  }

  /** The flush after the loop: a non-empty pending sentence is stored. */
  function Finish(st: Loader): seq<Sentence>
  {
    if st.pending != [] then st.done + [st.pending] else st.done
  }

  /** The loop fails exactly on a kept row with a single field, and then
      with IndexError. */
  lemma {:induction false} RunFails(strip: bool, st: Loader, rows: seq<Row>)
    ensures Run(strip, st, rows).Ok? <==> WellFormed(Kept(strip, rows))
    ensures Run(strip, st, rows).Err? ==> Run(strip, st, rows).error == IndexError
    decreases |rows|
  {
    if rows != [] {
      var row, rest := rows[0], rows[1..];
      var k' := Kept(strip, rest);
      if Stripped(strip, row) {
        assert Kept(strip, rows) == k';
        RunFails(strip, st, rest);
      } else {
        assert Kept(strip, rows) == [row] + k';
        assert ([row] + k')[1..] == k';
        WellFormedCons(row, k');
        if RowOk(row) {
          RunFails(strip, Step(strip, st, row).value, rest);
        }
      }
    }
  }

  /** The state the loop should reach from `st` over `rows`, stated with
      the reference segmentation: the non-empty blocks of the kept rows are
      stored (the first one continuing the pending sentence), the last block
      is left pending, and every kept pair is recorded in the index. */
  function Expected(strip: bool, st: Loader, rows: seq<Row>): Loader
    requires WellFormed(Kept(strip, rows))
  {
    var x := Continue(st.pending, Blocks(Kept(strip, rows)));
    Loader(st.done + NonEmpty(x[..|x| - 1]), x[|x| - 1], RecordAll(st.index, Pairs(Kept(strip, rows))))
  }

  /** The loop is correct against the reference segmentation. */
  lemma {:induction false} RunSpec(strip: bool, st: Loader, rows: seq<Row>)
    requires WellFormed(Kept(strip, rows))
    ensures Run(strip, st, rows) == Ok(Expected(strip, st, rows))
    decreases |rows|, 1
  {
    RunFails(strip, st, rows);
    if rows == [] {
      assert Kept(strip, rows) == [];
      assert Pairs([]) == [];
      assert st.pending + [] == st.pending;
      assert Continue(st.pending, [[]]) == [st.pending];
      assert st.done + NonEmpty([]) == st.done;
    } else {
      var row, rest := rows[0], rows[1..];
      assert rows == [row] + rest;
      if Stripped(strip, row) {
        assert Kept(strip, rows) == Kept(strip, rest);
        assert Run(strip, st, rows) == Run(strip, st, rest);
        RunSpec(strip, st, rest);
      } else {
        assert Kept(strip, rows) == [row] + Kept(strip, rest);
        WellFormedCons(row, Kept(strip, rest));
        if row != [] {
          TokenStep(strip, st, rows);
        } else {
          BlankStep(strip, st, rows);
        }
      }
    }
  }

  lemma {:induction false} TokenStep(strip: bool, st: Loader, rows: seq<Row>)
    requires rows != [] && |rows[0]| >= 2 && !Stripped(strip, rows[0])
    requires WellFormed(Kept(strip, rows))
    ensures Run(strip, st, rows) == Ok(Expected(strip, st, rows))
    decreases |rows|, 0
  {
    var row, rest := rows[0], rows[1..];
    var k' := Kept(strip, rest);
    KeptCons(strip, rows);
    BlocksCons(row, k');
    var p := PairOf(row);
    var st' := Loader(st.done, st.pending + [p], Record(st.index, p));
    assert Run(strip, st, rows) == Run(strip, st', rest);
    RunSpec(strip, st', rest);
    ContinueCons(st.pending, p, Blocks(k'));
    RecordAllCons(st.index, p, Pairs(k'));
  }

  lemma KeptCons(strip: bool, rows: seq<Row>)
    requires rows != [] && !Stripped(strip, rows[0])
    ensures Kept(strip, rows) == [rows[0]] + Kept(strip, rows[1..])
  {
  }

  lemma {:induction false} BlankStep(strip: bool, st: Loader, rows: seq<Row>)
    requires rows != [] && rows[0] == []
    requires WellFormed(Kept(strip, rows))
    ensures Run(strip, st, rows) == Ok(Expected(strip, st, rows))
    decreases |rows|, 0
  {
    var rest := rows[1..];
    var st' := Closed(st);
    BlankKept(strip, rows);
    assert Run(strip, st, rows) == Run(strip, st', rest) by {
      if st.pending == [] {
        assert st == Loader(st.done + [], [], st.index);
      }
    }
    RunSpec(strip, st', rest);
    ExpectedBlank(strip, st, rows);
  }

  /** The loader after a blank row. */
  function Closed(st: Loader): Loader
  {
    Loader(st.done + (if st.pending != [] then [st.pending] else []), [], st.index)
  }

  lemma BlankKept(strip: bool, rows: seq<Row>)
    requires rows != [] && rows[0] == []
    requires WellFormed(Kept(strip, rows))
    ensures Kept(strip, rows) == [[]] + Kept(strip, rows[1..])
    ensures WellFormed(Kept(strip, rows[1..]))
  {
    WellFormedCons([], Kept(strip, rows[1..]));
  }

  lemma {:induction false} ExpectedBlank(strip: bool, st: Loader, rows: seq<Row>)
    requires rows != [] && rows[0] == []
    requires WellFormed(Kept(strip, rows))
    requires WellFormed(Kept(strip, rows[1..]))
    requires Kept(strip, rows) == [[]] + Kept(strip, rows[1..])
    ensures Expected(strip, Closed(st), rows[1..]) == Expected(strip, st, rows)
  {
    var k' := Kept(strip, rows[1..]);
    var b' := Blocks(k');
    BlankCons(k');
    ContinueEmpty(b');
    ContinueBlank(st.pending, b');
    AppendAssoc(st.done, if st.pending != [] then [st.pending] else [], NonEmpty(b'[..|b'| - 1]));
  }

  /** After a blank row, the pending sentence is closed (stored only if
      non-empty) and the remaining blocks follow it. */
  lemma ContinueBlank(pending: Sentence, b: seq<Sentence>)
    requires |b| >= 1
    ensures var x := Continue(pending, [[]] + b);
      && NonEmpty(x[..|x| - 1]) == (if pending != [] then [pending] else []) + NonEmpty(b[..|b| - 1])
      && x[|x| - 1] == b[|b| - 1]
  {
    ContinueAfterBlank(pending, b);
    NonEmptyAppend([pending], b[..|b| - 1]);
  }

  /** `load()`: resets the sentences and the index, then reads `rows`.
      It fails with IndexError exactly when a kept row has one field;
      otherwise the sentences are the non-empty blocks of the kept rows
      and the index is built from their pairs in order. */
  function Load(c: CoNLLCorpus, rows: seq<Row>): (r: Result<CoNLLCorpus>)
    ensures r.Ok? <==> WellFormed(Kept(c.stripDocstarts, rows))
    ensures r.Err? ==> r.error == IndexError
    ensures r.Ok? ==> r.value.stripDocstarts == c.stripDocstarts
    ensures r.Ok? ==> r.value.sentences == NonEmpty(Blocks(Kept(c.stripDocstarts, rows)))
    ensures r.Ok? ==> r.value.tagIndex == IndexOf(Pairs(Kept(c.stripDocstarts, rows)))
  {
    var start := Loader([], [], EmptyIndex);
    RunFails(c.stripDocstarts, start, rows);
    var st :- Run(c.stripDocstarts, start, rows);
    LoadShape(c.stripDocstarts, rows);
    Ok(CoNLLCorpus(c.stripDocstarts, Finish(st), st.index))
  }

  lemma {:induction false} LoadShape(strip: bool, rows: seq<Row>)
    requires WellFormed(Kept(strip, rows))
    ensures Run(strip, Loader([], [], EmptyIndex), rows).Ok?
    ensures var st := Run(strip, Loader([], [], EmptyIndex), rows).value;
      && Finish(st) == NonEmpty(Blocks(Kept(strip, rows)))
      && st.index == IndexOf(Pairs(Kept(strip, rows)))
  {
    var start := Loader([], [], EmptyIndex);
    RunSpec(strip, start, rows);
    var b := Blocks(Kept(strip, rows));
    ContinueEmpty(b);
    FinishNonEmpty(b, IndexOf(Pairs(Kept(strip, rows))));
  }

  /** Flushing the last block keeps exactly the non-empty blocks. */
  lemma FinishNonEmpty(b: seq<Sentence>, ix: TagIndex)
    requires |b| >= 1
    ensures Finish(Loader([] + NonEmpty(b[..|b| - 1]), b[|b| - 1], ix)) == NonEmpty(b)
  {
    var init, last := b[..|b| - 1], b[|b| - 1];
    var kept := NonEmpty(init);
    var tail: seq<Sentence> := if last == [] then [] else [last];
    assert NonEmpty(b) == kept + tail by {
      SplitLast(b);
      NonEmptyAppend(init, [last]);
      NonEmptySingle(last);
    }
    AppendEmpty(kept);
  }

  /** A loaded corpus: no sentence is empty, the sentences together hold
      every kept pair in order, the index lists under each tag exactly the
      words carrying it with keys in first-seen order, and its list lengths
      add up to the number of pairs. */
  lemma {:induction false} LoadSpec(c: CoNLLCorpus, rows: seq<Row>)
    requires Load(c, rows).Ok?
    ensures var loaded := Load(c, rows).value;
      var kept := Kept(c.stripDocstarts, rows);
      && (forall i :: 0 <= i < |loaded.sentences| ==> loaded.sentences[i] != [])
      && Flatten(loaded) == Pairs(kept)
      && ValidIndex(loaded.tagIndex)
      && (forall t :: Lookup(loaded.tagIndex, t) == WordsTagged(Flatten(loaded), t))
      && loaded.tagIndex.order == Dedup({}, TagsOf(Flatten(loaded)))
      && Total(loaded.tagIndex) == |Flatten(loaded)|
  {
    var kept := Kept(c.stripDocstarts, rows);
    ConcatNonEmpty(Blocks(kept));
    BlocksConcat(kept);
    IndexOfSpec(Pairs(kept));
  }

  /** The constructor: an empty corpus with the given option, then
      `load()`. It keeps the option, and on success holds the non-empty
      blocks of the kept rows and their tag index. */
  function Open(rows: seq<Row>, stripDocstarts: bool := DefaultStripDocstarts): (r: Result<CoNLLCorpus>)
    ensures r.Ok? <==> WellFormed(Kept(stripDocstarts, rows))
    ensures r.Err? ==> r.error == IndexError
    ensures r.Ok? ==> r.value.stripDocstarts == stripDocstarts
    ensures r.Ok? ==> r.value.sentences == NonEmpty(Blocks(Kept(stripDocstarts, rows)))
    ensures r.Ok? ==> r.value.tagIndex == IndexOf(Pairs(Kept(stripDocstarts, rows)))
  {
    Load(CoNLLCorpus(stripDocstarts, [], EmptyIndex), rows)
  }

  /** `flatten()`: the pairs of all sentences, in order. A pair occurs in
      it exactly when it occurs in some sentence, and it is as long as the
      sentences together. */
  function Flatten(c: CoNLLCorpus): (r: seq<WordTagPair>)
    ensures forall p :: p in r <==> exists i :: 0 <= i < |c.sentences| && p in c.sentences[i]
    ensures |r| == TotalLength(c.sentences)
  {
    ConcatMembers(c.sentences);
    Concat(c.sentences)
  }

  /** `load` resets its state first: the result depends only on the option
      and the rows, so loading the same rows again changes nothing. */
  lemma LoadIgnoresPriorState(c: CoNLLCorpus, rows: seq<Row>)
    ensures Load(c, rows) == Open(rows, c.stripDocstarts)
    ensures Load(c, rows).Ok? ==> Load(Load(c, rows).value, rows) == Load(c, rows)
  {
  }

  /** `summarize()`: the counts it prints. The word total is the sum of
      the per-tag lines, which follow the index's key order. */
  function Summarize(c: CoNLLCorpus): (s: Summary)
    ensures s.sentences == |c.sentences|
    ensures s.words == CountSum(s.perTag)
    ensures |s.perTag| == |c.tagIndex.order|
    ensures forall i :: 0 <= i < |s.perTag| ==> s.perTag[i] == (c.tagIndex.order[i], |Lookup(c.tagIndex, c.tagIndex.order[i])|)
  {
    SummaryOf(c.sentences, c.tagIndex)
  }

  /** On a loaded corpus the summary's token count is the number of
      flattened pairs, it lists each tag once in first-seen order, and each
      tag's count is its number of occurrences. */
  lemma {:induction false} SummarizeLoaded(c: CoNLLCorpus, rows: seq<Row>)
    requires Load(c, rows).Ok?
    ensures var loaded := Load(c, rows).value;
      var s := Summarize(loaded);
      && s.sentences == |loaded.sentences|
      && s.words == |Flatten(loaded)|
      && |s.perTag| == |Dedup({}, TagsOf(Flatten(loaded)))|
      && forall i :: 0 <= i < |s.perTag| ==>
           && s.perTag[i].0 == Dedup({}, TagsOf(Flatten(loaded)))[i]
           && s.perTag[i].1 == multiset(TagsOf(Flatten(loaded)))[s.perTag[i].0]
  {
    var loaded := Load(c, rows).value;
    LoadSpec(c, rows);
    forall t {
      WordsTaggedCount(Flatten(loaded), t);
    }
  }

  /** The two revisions of the loader agree up to empty sentences: this
      loader fails exactly when the earlier one fails on the kept rows, and
      otherwise keeps exactly the earlier one's non-empty sentences. */
  lemma {:induction false} AgreesWithDataset(c: CoNLLCorpus, d: Dataset.CoNLL, rows: seq<Row>)
    ensures var earlier := Dataset.Load(d, Kept(c.stripDocstarts, rows));
      && (Load(c, rows).Ok? <==> earlier.Ok?)
      && (Load(c, rows).Ok? ==> Load(c, rows).value.sentences == NonEmpty(earlier.value.sentences))
  {
    var kept := Kept(c.stripDocstarts, rows);
    if WellFormed(kept) {
      var b := Blocks(kept);
      if b[|b| - 1] == [] {
        assert b == b[..|b| - 1] + [[]];
        NonEmptyAppend(b[..|b| - 1], [[]]);
      }
    }
  }
}
