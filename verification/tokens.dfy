/** The records both corpus loaders share: word/tag pairs, tab-split rows,
    the reference segmentation of rows into blocks, and the per-tag word
    index (`_tag_index`, a `defaultdict(list)` keyed in first-seen order). */
module Tokens {
  import opened Results
  import opened Seqs

  /** One token: a word and its tag. */
  datatype WordTagPair = WordTagPair(word: string, tag: string)

  type Sentence = seq<WordTagPair>

  /** One row as `csv.reader(..., delimiter='\t')` yields it; a blank line
      is the empty row. */
  type Row = seq<string>

  /** `WordTagPair(row[0], row[1])` on a non-blank row: extra fields are
      ignored and a row with one field raises IndexError. */
  function ReadRow(row: Row): (r: Result<WordTagPair>)
    requires row != []
    ensures r.Ok? <==> |row| >= 2
    ensures r.Ok? ==> r.value.word == row[0] && r.value.tag == row[1]
    ensures r.Err? ==> r.error == IndexError
  {
    if |row| < 2 then Err(IndexError) else Ok(WordTagPair(row[0], row[1]))
  }

  /** A row both loaders accept: blank, or with at least two fields. */
  predicate RowOk(row: Row)
  {
    row == [] || |row| >= 2
  }

  predicate WellFormed(rows: seq<Row>)
  {
    forall i :: 0 <= i < |rows| ==> RowOk(rows[i])
  }

  lemma WellFormedCons(row: Row, rows: seq<Row>)
    ensures WellFormed([row] + rows) <==> RowOk(row) && WellFormed(rows)
  {
    var all := [row] + rows;
    assert all[0] == row;
    assert forall i :: 0 <= i < |rows| ==> rows[i] == all[i + 1];
  }

  function PairOf(row: Row): WordTagPair
    requires |row| >= 2
  {
    WordTagPair(row[0], row[1])
  }

  /** The pairs of the non-blank rows, in row order. */
  function Pairs(rows: seq<Row>): seq<WordTagPair>
    requires WellFormed(rows)
  {
    if rows == [] then []
    else (if rows[0] == [] then [] else [PairOf(rows[0])]) + Pairs(rows[1..])
  }

  function BlankCount(rows: seq<Row>): nat
  {
    if rows == [] then 0 else (if rows[0] == [] then 1 else 0) + BlankCount(rows[1..])
  }

  /** Reference segmentation: the pairs of `rows` cut at every blank row.
      There is one block before each blank row and one after the last;
      blocks may be empty. */
  function Blocks(rows: seq<Row>): (b: seq<Sentence>)
    requires WellFormed(rows)
    ensures |b| >= 1
  {
    if rows == [] then [[]]
    else
      var rest := Blocks(rows[1..]);
      if rows[0] == [] then [[]] + rest
      else [[PairOf(rows[0])] + rest[0]] + rest[1..]
  }

  /** There is one block per blank row, plus the last one. */
  lemma {:induction false} BlocksCount(rows: seq<Row>)
    requires WellFormed(rows)
    ensures |Blocks(rows)| == BlankCount(rows) + 1
  {
    if rows != [] {
      BlocksCount(rows[1..]);
    }
  }

  /** The blocks together hold the pairs of all non-blank rows, in order. */
  lemma {:induction false} BlocksConcat(rows: seq<Row>)
    requires WellFormed(rows)
    ensures Concat(Blocks(rows)) == Pairs(rows)
  {
    if rows != [] {
      var row, tail := rows[0], rows[1..];
      var rest := Blocks(tail);
      HeadTail(rows);
      if row == [] {
        BlankCons(tail);
        ConcatCons([], rest);
      } else {
        BlocksCons(row, tail);
        ConcatCons([PairOf(row)] + rest[0], rest[1..]);
        HeadTail(rest);
        ConcatCons(rest[0], rest[1..]);
        AppendAssoc([PairOf(row)], rest[0], Concat(rest[1..]));
      }
      BlocksConcat(tail);
    }
  }

  /** The variables of the loading loop: the stored sentences, the
      sentence being read (`tmp_sent` / `tmp`) and the tag index. */
  datatype Loader = Loader(done: seq<Sentence>, pending: Sentence, index: TagIndex)

  /** The blocks still to come, with the first one continuing `pending`. */
  function Continue(pending: Sentence, b: seq<Sentence>): (x: seq<Sentence>)
    requires |b| >= 1
    ensures |x| == |b|
  {
    [pending + b[0]] + b[1..]
  }

  /** A token row adds its pair to the first block. */
  lemma BlocksCons(row: Row, rows: seq<Row>)
    requires |row| >= 2 && WellFormed([row] + rows)
    ensures WellFormed(rows)
    ensures Blocks([row] + rows) == [[PairOf(row)] + Blocks(rows)[0]] + Blocks(rows)[1..]
    ensures Pairs([row] + rows) == [PairOf(row)] + Pairs(rows)
  {
    WellFormedCons(row, rows);
    assert ([row] + rows)[1..] == rows;
  }

  lemma ContinueCons(pending: Sentence, p: WordTagPair, b: seq<Sentence>)
    requires |b| >= 1
    ensures Continue(pending, [[p] + b[0]] + b[1..]) == Continue(pending + [p], b)
  {
    AppendAssoc(pending, [p], b[0]);
  }

  lemma RecordAllCons(ix: TagIndex, p: WordTagPair, ps: seq<WordTagPair>)
    ensures RecordAll(ix, [p] + ps) == RecordAll(Record(ix, p), ps)
  {
    assert ([p] + ps)[1..] == ps;
  }

  /** A blank row in front adds an empty first block and no pair. */
  lemma BlankCons(rows: seq<Row>)
    requires WellFormed(rows)
    ensures WellFormed([[]] + rows)
    ensures Blocks([[]] + rows) == [[]] + Blocks(rows)
    ensures Pairs([[]] + rows) == Pairs(rows)
  {
    WellFormedCons([], rows);
    assert ([[]] + rows)[1..] == rows;
  }

  lemma ContinueEmpty(b: seq<Sentence>)
    requires |b| >= 1
    ensures Continue([], b) == b
  {
    assert [] + b[0] == b[0];
    assert b == [b[0]] + b[1..];
  }

  /** After a blank row the pending sentence stands alone, ahead of the
      remaining blocks. */
  lemma ContinueAfterBlank(pending: Sentence, b: seq<Sentence>)
    requires |b| >= 1
    ensures var x := Continue(pending, [[]] + b);
      && x[..|x| - 1] == [pending] + b[..|b| - 1]
      && x[|x| - 1] == b[|b| - 1]
  {
    var x := Continue(pending, [[]] + b);
    assert pending + [] == pending;
    assert ([[]] + b)[1..] == b;
    assert x == [pending] + b;
  }

  /** A blank row between two runs of rows separates their blocks. */
  lemma {:induction false} BlocksSplit(a: seq<Row>, b: seq<Row>)
    requires WellFormed(a) && WellFormed(b)
    ensures WellFormed(a + [[]] + b)
    ensures Blocks(a + [[]] + b) == Blocks(a) + Blocks(b)
  {
    var ab := a + [[]] + b;
    assert WellFormed(ab) by {
      forall i | 0 <= i < |ab| ensures RowOk(ab[i]) {
        if i < |a| { assert ab[i] == a[i]; }
        else if i > |a| { assert ab[i] == b[i - |a| - 1]; }
      }
    }
    if a == [] {
      assert ab == [[]] + b;
      BlankCons(b);
    } else {
      var row, a' := a[0], a[1..];
      var tail := a' + [[]] + b;
      assert ab == [row] + tail by {
        HeadTail(a);
        AppendAssoc([row], a', [[]]);
        AppendAssoc([row], a' + [[]], b);
      }
      BlocksSplit(a', b);
      WellFormedCons(row, tail);
      WellFormedCons(row, a');
      HeadTail(a);
      var ba, bb := Blocks(a'), Blocks(b);
      if row == [] {
        BlankCons(tail);
        BlankCons(a');
        AppendAssoc([[]], ba, bb);
      } else {
        BlocksCons(row, tail);
        BlocksCons(row, a');
        DropAppend(ba, bb);
        AppendAssoc([[PairOf(row)] + ba[0]], ba[1..], bb);
      }
    }
  }

  /** Rows without a blank row form one block: all their pairs. */
  lemma {:induction false} BlocksNoBlank(rows: seq<Row>)
    requires forall i :: 0 <= i < |rows| ==> |rows[i]| >= 2
    ensures WellFormed(rows)
    ensures Blocks(rows) == [Pairs(rows)]
  {
    if rows != [] {
      BlocksNoBlank(rows[1..]);
    }
  }

  /** The tags of `ps`, in order. */
  function TagsOf(ps: seq<WordTagPair>): (ts: seq<string>)
    ensures |ts| == |ps|
    ensures forall i :: 0 <= i < |ps| ==> ts[i] == ps[i].tag
  {
    if ps == [] then [] else [ps[0].tag] + TagsOf(ps[1..])
  }

  /** The words of `ps` tagged `t`, in order. */
  function WordsTagged(ps: seq<WordTagPair>, t: string): seq<string>
  {
    if ps == [] then []
    else (if ps[0].tag == t then [ps[0].word] else []) + WordsTagged(ps[1..], t)
  }

  /** The words tagged `t` are as many as the occurrences of `t`. */
  lemma {:induction false} WordsTaggedCount(ps: seq<WordTagPair>, t: string)
    ensures |WordsTagged(ps, t)| == multiset(TagsOf(ps))[t]
  {
    if ps != [] {
      WordsTaggedCount(ps[1..], t);
      assert TagsOf(ps) == [ps[0].tag] + TagsOf(ps[1..]);
    }
  }

  /** `_tag_index`: a map from tag to the words seen with it, and the
      order in which its keys were first inserted. */
  datatype TagIndex = TagIndex(order: seq<string>, words: map<string, seq<string>>)

  const EmptyIndex := TagIndex([], map[])

  /** The key order lists every key exactly once. */
  predicate ValidIndex(ix: TagIndex)
  {
    && NoDups(ix.order)
    && (forall t :: t in ix.words ==> t in ix.order)
    && (forall t :: t in ix.order ==> t in ix.words)
  }

  /** `ix[t]` on the defaultdict: the empty list for an absent key. */
  function Lookup(ix: TagIndex, t: string): seq<string>
  {
    if t in ix.words then ix.words[t] else []
  }

  function SumLens(order: seq<string>, words: map<string, seq<string>>): nat
  {
    if order == [] then 0
    else (if order[0] in words then |words[order[0]]| else 0) + SumLens(order[1..], words)
  }

  /** The sum of the list lengths over all keys (`n_words` in `summarize`). */
  function Total(ix: TagIndex): nat
  {
    SumLens(ix.order, ix.words)
  }

  lemma {:induction false} SumLensOther(order: seq<string>, words: map<string, seq<string>>, t: string, ws: seq<string>)
    requires t !in order
    ensures SumLens(order, words[t := ws]) == SumLens(order, words)
  {
    if order != [] {
      SumLensOther(order[1..], words, t, ws);
    }
  }

  lemma {:induction false} SumLensGrow(order: seq<string>, words: map<string, seq<string>>, t: string, w: string)
    requires NoDups(order) && t in order && t in words
    ensures SumLens(order, words[t := words[t] + [w]]) == SumLens(order, words) + 1
  {
    if order[0] == t {
      assert t !in order[1..];
      SumLensOther(order[1..], words, t, words[t] + [w]);
    } else {
      SumLensGrow(order[1..], words, t, w);
    }
  }

  lemma {:induction false} SumLensAppend(order: seq<string>, words: map<string, seq<string>>, t: string)
    requires t in words
    ensures SumLens(order + [t], words) == SumLens(order, words) + |words[t]|
  {
    if order == [] {
      assert SumLens([t], words) == |words[t]| + SumLens([], words);
    } else {
      assert (order + [t])[1..] == order[1..] + [t];
      SumLensAppend(order[1..], words, t);
    }
  }

  /** `_tag_index[p.tag].append(p.word)`. */
  function Record(ix: TagIndex, p: WordTagPair): (r: TagIndex)
    ensures Lookup(r, p.tag) == Lookup(ix, p.tag) + [p.word]
    ensures forall t :: t != p.tag ==> Lookup(r, t) == Lookup(ix, t)
    ensures ValidIndex(ix) ==> ValidIndex(r) && Total(r) == Total(ix) + 1
    ensures ValidIndex(ix) ==> r.order == ix.order + (if p.tag in ix.order then [] else [p.tag])
  {
    if p.tag in ix.words then
      var r := TagIndex(ix.order, ix.words[p.tag := ix.words[p.tag] + [p.word]]);
      assert ValidIndex(ix) ==> p.tag in ix.order;
      assert ValidIndex(ix) ==> Total(r) == Total(ix) + 1 by {
        if ValidIndex(ix) {
          SumLensGrow(ix.order, ix.words, p.tag, p.word);
        }
      }
      r
    else
      var r := TagIndex(ix.order + [p.tag], ix.words[p.tag := [p.word]]);
      assert ValidIndex(ix) ==> p.tag !in ix.order;
      assert ValidIndex(ix) ==> ValidIndex(r) && Total(r) == Total(ix) + 1 by {
        if ValidIndex(ix) {
          SumLensAppend(ix.order, r.words, p.tag);
          SumLensOther(ix.order, ix.words, p.tag, [p.word]);
        }
      }
      r
  }

  /** Records every pair of `ps`, in order. */
  function RecordAll(ix: TagIndex, ps: seq<WordTagPair>): TagIndex
    decreases |ps|
  {
    if ps == [] then ix else RecordAll(Record(ix, ps[0]), ps[1..])
  }

  /** After recording `ps`, each tag's list has gained exactly the words of
      `ps` with that tag, in order; new tags are appended in first-seen
      order; the list lengths have grown by `|ps|` in total. */
  lemma {:induction false} RecordAllSpec(ix: TagIndex, ps: seq<WordTagPair>)
    requires ValidIndex(ix)
    ensures var r := RecordAll(ix, ps);
      && ValidIndex(r)
      && (forall t :: Lookup(r, t) == Lookup(ix, t) + WordsTagged(ps, t))
      && r.order == ix.order + Dedup(ix.words.Keys, TagsOf(ps))
      && Total(r) == Total(ix) + |ps|
  {
    RecordAllCounts(ix, ps);
    RecordAllLookup(ix, ps);
    RecordAllOrder(ix, ps);
  }

  lemma {:induction false} RecordAllCounts(ix: TagIndex, ps: seq<WordTagPair>)
    requires ValidIndex(ix)
    ensures ValidIndex(RecordAll(ix, ps))
    ensures Total(RecordAll(ix, ps)) == Total(ix) + |ps|
    decreases |ps|
  {
    if ps != [] {
      RecordAllCounts(Record(ix, ps[0]), ps[1..]);
    }
  }

  lemma {:induction false} RecordAllLookup(ix: TagIndex, ps: seq<WordTagPair>)
    ensures forall t :: Lookup(RecordAll(ix, ps), t) == Lookup(ix, t) + WordsTagged(ps, t)
    decreases |ps|
  {
    if ps != [] {
      var p := ps[0];
      var ix' := Record(ix, p);
      RecordAllLookup(ix', ps[1..]);
      assert RecordAll(ix, ps) == RecordAll(ix', ps[1..]);
      forall t ensures Lookup(RecordAll(ix, ps), t) == Lookup(ix, t) + WordsTagged(ps, t) {
        var x: seq<string> := if p.tag == t then [p.word] else [];
        assert Lookup(ix', t) == Lookup(ix, t) + x by {
          AppendEmpty(Lookup(ix, t));
        }
        assert WordsTagged(ps, t) == x + WordsTagged(ps[1..], t);
        AppendAssoc(Lookup(ix, t), x, WordsTagged(ps[1..], t));
      }
    }
  }

  lemma {:induction false} RecordAllOrder(ix: TagIndex, ps: seq<WordTagPair>)
    requires ValidIndex(ix)
    ensures RecordAll(ix, ps).order == ix.order + Dedup(ix.words.Keys, TagsOf(ps))
    decreases |ps|
  {
    if ps != [] {
      var p := ps[0];
      var ix' := Record(ix, p);
      RecordAllOrder(ix', ps[1..]);
      var ts := TagsOf(ps);
      assert ts == [p.tag] + TagsOf(ps[1..]);
      RecordOrder(ix, p, TagsOf(ps[1..]));
    }
  }

  /** One `Record` extends the key order exactly as first-seen deduplication does. */
  lemma RecordOrder(ix: TagIndex, p: WordTagPair, ts: seq<string>)
    requires ValidIndex(ix)
    ensures ix.order + Dedup(ix.words.Keys, [p.tag] + ts)
         == Record(ix, p).order + Dedup(Record(ix, p).words.Keys, ts)
  {
    var K := ix.words.Keys;
    DedupCons(K, p.tag, ts);
    RecordKeys(ix, p);
    if p.tag !in K {
      AppendAssoc(ix.order, [p.tag], Dedup(K + {p.tag}, ts));
    }
  }

  /** A new tag is appended to the key order; a known one leaves it as is. */
  lemma RecordKeys(ix: TagIndex, p: WordTagPair)
    ensures p.tag in ix.words ==> Record(ix, p).order == ix.order && Record(ix, p).words.Keys == ix.words.Keys
    ensures p.tag !in ix.words ==>
      Record(ix, p).order == ix.order + [p.tag] && Record(ix, p).words.Keys == ix.words.Keys + {p.tag}
  {
  }

  /** The index built from nothing over `ps` (what a load leaves behind). */
  function IndexOf(ps: seq<WordTagPair>): TagIndex
  {
    RecordAll(EmptyIndex, ps)
  }

  /** The index of `ps` lists under each tag exactly the words with that
      tag, its keys are the distinct tags in first-seen order, and its
      list lengths add up to the number of pairs. */
  lemma {:induction false} IndexOfSpec(ps: seq<WordTagPair>)
    ensures var ix := IndexOf(ps);
      && ValidIndex(ix)
      && (forall t :: Lookup(ix, t) == WordsTagged(ps, t))
      && ix.order == Dedup({}, TagsOf(ps))
      && Total(ix) == |ps|
  {
    assert EmptyIndex.words.Keys == {};
    RecordAllSpec(EmptyIndex, ps);
  }

  /** The counts `summarize` prints: sentences, word tokens, and word
      tokens per tag in the index's key order. */
  datatype Summary = Summary(sentences: nat, words: nat, perTag: seq<(string, nat)>)

  function TagCounts(order: seq<string>, ix: TagIndex): (r: seq<(string, nat)>)
    ensures |r| == |order|
    ensures forall i :: 0 <= i < |order| ==> r[i] == (order[i], |Lookup(ix, order[i])|)
  {
    if order == [] then [] else [(order[0], |Lookup(ix, order[0])|)] + TagCounts(order[1..], ix)
  }

  /** The sum of the counts of per-tag lines. */
  function CountSum(counts: seq<(string, nat)>): nat
  {
    if counts == [] then 0 else counts[0].1 + CountSum(counts[1..])
  }

  /** Summing the list lengths over the keys adds up the per-tag lines. */
  lemma {:induction false} SumLensCounts(order: seq<string>, ix: TagIndex)
    ensures SumLens(order, ix.words) == CountSum(TagCounts(order, ix))
  {
    if order != [] {
      var tc := TagCounts(order, ix);
      SumLensCounts(order[1..], ix);
      assert tc[1..] == TagCounts(order[1..], ix);
    }
  }

  /** `summarize` of either loader: the number of sentences, the sum of
      the index's list lengths (`n_words`), and each tag's list length in
      key order. The total equals the sum of the per-tag lines. */
  function SummaryOf(sentences: seq<Sentence>, ix: TagIndex): (s: Summary)
    ensures s.sentences == |sentences|
    ensures s.words == CountSum(s.perTag)
    ensures |s.perTag| == |ix.order|
    ensures forall i :: 0 <= i < |s.perTag| ==> s.perTag[i] == (ix.order[i], |Lookup(ix, ix.order[i])|)
  {
    SumLensCounts(ix.order, ix);
    Summary(|sentences|, Total(ix), TagCounts(ix.order, ix))
  }

  /** On the index of `ps`, the word count is the number of pairs and the
      per-tag counts list each tag of `ps` once, in first-seen order, with
      its number of occurrences. */
  lemma IndexSummary(sentences: seq<Sentence>, ps: seq<WordTagPair>)
    ensures var s, order := SummaryOf(sentences, IndexOf(ps)), Dedup({}, TagsOf(ps));
      && s.words == |ps|
      && |s.perTag| == |order|
      && forall i :: 0 <= i < |order| ==> s.perTag[i] == (order[i], multiset(TagsOf(ps))[order[i]])
  {
    IndexOfSpec(ps);
    forall t {
      WordsTaggedCount(ps, t);
    }
  }
}
