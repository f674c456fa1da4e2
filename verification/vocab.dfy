/** `Vocabulary` (src/vocab.py): word frequencies with an inclusive
    minimum-count cutoff, the tag set, and the unkify rewrite that the
    script part of the file applies to a corpus. */
module Vocab {
  import opened Results
  import opened Seqs
  import opened Text
  import opened Tokens
  import Corpus

  /** `min_word_count` defaults to 2 in the constructor. */
  const DefaultMinWordCount := 2

  /** `unk_word_token`, `min_word_count`, `word_counts`, `wordset` and
      `tagset`. The count is a Python int, so it may be any integer. */
  datatype Vocabulary = Vocabulary(
    unkWordToken: string,
    minWordCount: int,
    wordCounts: map<string, nat>,
    wordset: set<string>,
    tagset: set<string>)

  /** `Vocabulary(unk_word_token, min_word_count)`: nothing counted yet. */
  function New(unk: string, minCount: int := DefaultMinWordCount): (v: Vocabulary)
    ensures v.unkWordToken == unk && v.minWordCount == minCount
    ensures |v.wordCounts| == 0 && |v.wordset| == 0 && |v.tagset| == 0
  {
    Vocabulary(unk, minCount, map[], {}, {})
  }

  /** The words of `ps`, in order. */
  function WordsOf(ps: seq<WordTagPair>): (ws: seq<string>)
    ensures |ws| == |ps|
    ensures forall i :: 0 <= i < |ps| ==> ws[i] == ps[i].word
  {
    if ps == [] then [] else [ps[0].word] + WordsOf(ps[1..])
  }

  /** `train(corpus_reader)` on the reader's tagged words. Unpacking
      `zip(*[])` into two names fails, so an empty corpus is an error.
      Otherwise every field is replaced: counts of all words, the words
      counted at least `min_word_count` times, and all tags. */
  function Train(v: Vocabulary, tagged: seq<WordTagPair>): (r: Result<Vocabulary>)
    ensures r.Ok? <==> tagged != []
    ensures r.Err? ==> r.error == UnpackError
    ensures r.Ok? ==> r.value.unkWordToken == v.unkWordToken && r.value.minWordCount == v.minWordCount
    ensures r.Ok? ==> forall w :: w in r.value.wordCounts <==> w in WordsOf(tagged)
    ensures r.Ok? ==> forall w :: w in r.value.wordCounts ==> r.value.wordCounts[w] == multiset(WordsOf(tagged))[w]
    ensures r.Ok? ==> forall w :: w in r.value.wordset <==>
                        w in WordsOf(tagged) && multiset(WordsOf(tagged))[w] >= v.minWordCount
    ensures r.Ok? ==> forall t :: t in r.value.tagset <==> t in TagsOf(tagged)
  {
    if tagged == [] then Err(UnpackError)
    else
      var counts := Counts(WordsOf(tagged));
      var kept := set w | w in counts && counts[w] >= v.minWordCount;
      var tags := set t | t in TagsOf(tagged);
      Ok(Vocabulary(v.unkWordToken, v.minWordCount, counts, kept, tags))
  }

  /** The word set only ever holds training words; with a cutoff of at
      most 1 it holds all of them. */
  lemma WordsetBounds(v: Vocabulary, tagged: seq<WordTagPair>)
    requires tagged != []
    ensures Train(v, tagged).value.wordset <= (set i | 0 <= i < |tagged| :: tagged[i].word)
    ensures v.minWordCount <= 1 ==>
              Train(v, tagged).value.wordset == (set i | 0 <= i < |tagged| :: tagged[i].word)
  {
    var r := Train(v, tagged).value;
    var ws := WordsOf(tagged);
    var all := set i | 0 <= i < |tagged| :: tagged[i].word;
    WordsOfSet(tagged);
    assert r.wordset <= all;
    if v.minWordCount <= 1 {
      forall w | w in all ensures w in r.wordset {
        assert w in ws;
      }
    }
  }

  /** The training words as a set. */
  lemma WordsOfSet(tagged: seq<WordTagPair>)
    ensures forall w :: w in WordsOf(tagged) <==> w in (set i | 0 <= i < |tagged| :: tagged[i].word)
  {
    var ws := WordsOf(tagged);
    forall w | w in ws ensures w in (set i | 0 <= i < |tagged| :: tagged[i].word) {
      var i :| 0 <= i < |ws| && ws[i] == w;
      assert tagged[i].word == w;
    }
  }

  /** A cutoff keeps a word exactly when a lower cutoff keeps it and its
      count reaches the higher one: raising the cutoff only removes words. */
  lemma CutoffMonotone(v: Vocabulary, tagged: seq<WordTagPair>, higher: int)
    requires tagged != [] && v.minWordCount <= higher
    ensures Train(v.(minWordCount := higher), tagged).value.wordset <= Train(v, tagged).value.wordset
  {
  }

  /** `train` replaces the earlier state: what a vocabulary held before
      has no influence on the result. */
  lemma TrainReplaces(v: Vocabulary, tagged: seq<WordTagPair>)
    ensures Train(v, tagged) == Train(New(v.unkWordToken, v.minWordCount), tagged)
  {
  }

  /** The word the unkify script writes for `w`. */
  function UnkWord(v: Vocabulary, w: string): (u: string)
    ensures w in v.wordset ==> u == w
    ensures w !in v.wordset ==> u == v.unkWordToken
  {
    if w in v.wordset then w else v.unkWordToken
  }

  /** The unkified sentence: tags untouched, out-of-vocabulary words
      replaced by the unknown token. */
  function UnkifySentence(v: Vocabulary, s: Sentence): (r: Sentence)
    ensures |r| == |s|
    ensures forall i :: 0 <= i < |s| ==> r[i] == WordTagPair(UnkWord(v, s[i].word), s[i].tag)
  {
    if s == [] then [] else [WordTagPair(UnkWord(v, s[0].word), s[0].tag)] + UnkifySentence(v, s[1..])
  }

  function UnkifyParagraph(v: Vocabulary, para: seq<Sentence>): (r: seq<Sentence>)
    ensures |r| == |para|
    ensures forall i :: 0 <= i < |para| ==> r[i] == UnkifySentence(v, para[i])
  {
    if para == [] then [] else [UnkifySentence(v, para[0])] + UnkifyParagraph(v, para[1..])
  }

  /** The unkified paragraphs of a corpus. */
  function UnkifyParagraphs(v: Vocabulary, paras: seq<seq<Sentence>>): (r: seq<seq<Sentence>>)
    ensures |r| == |paras|
    ensures forall i :: 0 <= i < |paras| ==> r[i] == UnkifyParagraph(v, paras[i])
  {
    if paras == [] then [] else [UnkifyParagraph(v, paras[0])] + UnkifyParagraphs(v, paras[1..])
  }

  /** One output line: two fields separated by a tab. */
  function TabLine(a: string, b: string): string
  {
    a + "\t" + b
  }

  /** The lines of one sentence: a line per token, then a blank line. */
  function SentenceLines(v: Vocabulary, s: Sentence): seq<string>
  {
    if s == [] then [""] else [TabLine(UnkWord(v, s[0].word), s[0].tag)] + SentenceLines(v, s[1..])
  }

  /** The lines of the sentences of one paragraph. */
  function ParagraphBody(v: Vocabulary, para: seq<Sentence>): seq<string>
  {
    if para == [] then [] else SentenceLines(v, para[0]) + ParagraphBody(v, para[1..])
  }

  /** The `out` list of the unkify script: each paragraph starts with a
      DOCSTART line and a blank line. The DOCSTART word and tag are
      parameters, since src/corpus.py does not define the names the
      script imports for them. */
  function UnkifyLines(v: Vocabulary, docWord: string, docTag: string, paras: seq<seq<Sentence>>): (r: seq<string>)
    ensures r == [] <==> paras == []
    ensures paras != [] ==> |r| >= 2 && r[0] == TabLine(docWord, docTag) && r[1] == ""
  {
    if paras == [] then []
    else [TabLine(docWord, docTag), ""] + ParagraphBody(v, paras[0]) + UnkifyLines(v, docWord, docTag, paras[1..])
  }

  /** Two lines per paragraph, one per sentence and one per token. */
  lemma {:induction false} UnkifyLineCount(v: Vocabulary, docWord: string, docTag: string, paras: seq<seq<Sentence>>)
    ensures |UnkifyLines(v, docWord, docTag, paras)| == 2 * |paras| + |Concat(paras)| + |Concat(Concat(paras))|
  {
    if paras != [] {
      UnkifyLineCount(v, docWord, docTag, paras[1..]);
      ParagraphLineCount(v, paras[0]);
      ConcatAppend([paras[0]], paras[1..]);
      assert paras == [paras[0]] + paras[1..];
      ConcatAppend(paras[0], Concat(paras[1..]));
    }
  }

  lemma {:induction false} ParagraphLineCount(v: Vocabulary, para: seq<Sentence>)
    ensures |ParagraphBody(v, para)| == |para| + |Concat(para)|
  {
    if para != [] {
      ParagraphLineCount(v, para[1..]);
      SentenceLineCount(v, para[0]);
    }
  }

  lemma {:induction false} SentenceLineCount(v: Vocabulary, s: Sentence)
    ensures |SentenceLines(v, s)| == |s| + 1
  {
    if s != [] {
      SentenceLineCount(v, s[1..]);
    }
  }

  // Reading the output back.

  /** A line as `csv.reader(..., delimiter='\t')` splits it: a blank line
      is the empty row. */
  function TsvRow(line: string): Row
  {
    if line == "" then [] else SplitOn(line, '\t')
  }

  function ReadLines(lines: seq<string>): (rows: seq<Row>)
    ensures |rows| == |lines|
    ensures forall i :: 0 <= i < |lines| ==> rows[i] == TsvRow(lines[i])
  {
    if lines == [] then [] else [TsvRow(lines[0])] + ReadLines(lines[1..])
  }

  lemma ReadLinesAppend(a: seq<string>, b: seq<string>)
    ensures ReadLines(a + b) == ReadLines(a) + ReadLines(b)
  {
  }

  lemma TabLineRow(a: string, b: string)
    requires '\t' !in a && '\t' !in b
    ensures TsvRow(TabLine(a, b)) == [a, b]
  {
    assert Join([a, b], "\t") == TabLine(a, b);
    SplitOnJoin([a, b], '\t');
  }

  /** The rows of a sentence's tokens. */
  function TokenRows(s: Sentence): (rows: seq<Row>)
    ensures |rows| == |s|
    ensures forall i :: 0 <= i < |s| ==> rows[i] == [s[i].word, s[i].tag]
  {
    if s == [] then [] else [[s[0].word, s[0].tag]] + TokenRows(s[1..])
  }

  /** The rows of sentences, each followed by a blank row. */
  function SentenceRows(ss: seq<Sentence>): seq<Row>
  {
    if ss == [] then [] else TokenRows(ss[0]) + [[]] + SentenceRows(ss[1..])
  }

  lemma {:induction false} SentenceRowsAppend(a: seq<Sentence>, b: seq<Sentence>)
    ensures SentenceRows(a + b) == SentenceRows(a) + SentenceRows(b)
  {
    if a == [] {
      assert a + b == b;
    } else {
      assert (a + b)[1..] == a[1..] + b;
      SentenceRowsAppend(a[1..], b);
    }
  }

  /** No word or tag holds a tab and no word is the DOCSTART word. */
  predicate Plain(s: Sentence)
  {
    forall i :: 0 <= i < |s| ==>
      '\t' !in s[i].word && '\t' !in s[i].tag && s[i].word != Corpus.DocStartToken
  }

  lemma PlainTail(s: Sentence)
    requires s != [] && Plain(s)
    ensures Plain(s[1..])
  {
    forall i | 0 <= i < |s| - 1 ensures s[1..][i] == s[i + 1] { }
  }

  /** Unkifying keeps a sentence plain when the unknown word is plain. */
  lemma PlainUnkify(v: Vocabulary, s: Sentence)
    requires '\t' !in v.unkWordToken && v.unkWordToken != Corpus.DocStartToken
    requires Plain(s)
    ensures Plain(UnkifySentence(v, s))
  {
    var u := UnkifySentence(v, s);
    forall i | 0 <= i < |u| ensures '\t' !in u[i].word && '\t' !in u[i].tag && u[i].word != Corpus.DocStartToken {
      assert u[i] == WordTagPair(UnkWord(v, s[i].word), s[i].tag);
    }
  }

  lemma {:induction false} ReadSentence(v: Vocabulary, s: Sentence)
    requires '\t' !in v.unkWordToken && v.unkWordToken != Corpus.DocStartToken
    requires Plain(s)
    ensures ReadLines(SentenceLines(v, s)) == TokenRows(UnkifySentence(v, s)) + [[]]
    ensures Plain(UnkifySentence(v, s))
  {
    PlainUnkify(v, s);
    if s != [] {
      PlainTail(s);
      ReadSentence(v, s[1..]);
      var w := UnkWord(v, s[0].word);
      var line, later := TabLine(w, s[0].tag), SentenceLines(v, s[1..]);
      var u, u' := UnkifySentence(v, s), UnkifySentence(v, s[1..]);
      assert ReadLines([line]) == [[w, s[0].tag]] by {
        TabLineRow(w, s[0].tag);
      }
      ReadLinesAppend([line], later);
      assert TokenRows(u) == [[w, s[0].tag]] + TokenRows(u') by {
        assert u[1..] == u';
      }
      AppendAssoc([[w, s[0].tag]], TokenRows(u'), [[]]);
    }
  }

  /** Every paragraph after stripping: a leading empty sentence (from
      its blank line) and then its unkified sentences. */
  function Reread(v: Vocabulary, paras: seq<seq<Sentence>>): seq<Sentence>
  {
    if paras == [] then [] else [[]] + UnkifyParagraph(v, paras[0]) + Reread(v, paras[1..])
  }

  lemma {:induction false} ReadParagraph(v: Vocabulary, para: seq<Sentence>)
    requires '\t' !in v.unkWordToken && v.unkWordToken != Corpus.DocStartToken
    requires forall i :: 0 <= i < |para| ==> Plain(para[i])
    ensures ReadLines(ParagraphBody(v, para)) == SentenceRows(UnkifyParagraph(v, para))
    ensures Corpus.Kept(true, SentenceRows(UnkifyParagraph(v, para))) == SentenceRows(UnkifyParagraph(v, para))
  {
    if para != [] {
      var u := UnkifyParagraph(v, para);
      ReadParagraph(v, para[1..]);
      ReadSentence(v, para[0]);
      ReadLinesAppend(SentenceLines(v, para[0]), ParagraphBody(v, para[1..]));
      assert u[1..] == UnkifyParagraph(v, para[1..]);
      assert SentenceRows(u) == TokenRows(u[0]) + [[]] + SentenceRows(u[1..]);
      KeptTokens(u[0]);
      Corpus.KeptAppend(true, TokenRows(u[0]) + [[]], SentenceRows(u[1..]));
      Corpus.KeptAppend(true, TokenRows(u[0]), [[]]);
      assert Corpus.Kept(true, [[]]) == [[]] by {
        var blank: seq<Row> := [[]];
        assert blank[1..] == [];
      }
    }
  }

  lemma {:induction false} KeptTokens(s: Sentence)
    requires forall i :: 0 <= i < |s| ==> s[i].word != Corpus.DocStartToken
    ensures Corpus.Kept(true, TokenRows(s)) == TokenRows(s)
  {
    if s != [] {
      KeptTokens(s[1..]);
      assert TokenRows(s)[1..] == TokenRows(s[1..]);
    }
  }

  lemma {:induction false} ReadAll(v: Vocabulary, docTag: string, paras: seq<seq<Sentence>>)
    requires '\t' !in v.unkWordToken && v.unkWordToken != Corpus.DocStartToken && '\t' !in docTag
    requires forall p, i :: 0 <= p < |paras| && 0 <= i < |paras[p]| ==> Plain(paras[p][i])
    ensures Corpus.Kept(true, ReadLines(UnkifyLines(v, Corpus.DocStartToken, docTag, paras)))
            == SentenceRows(Reread(v, paras))
  {
    if paras != [] {
      var head := [TabLine(Corpus.DocStartToken, docTag), ""];
      var body := ParagraphBody(v, paras[0]);
      var tail := UnkifyLines(v, Corpus.DocStartToken, docTag, paras[1..]);
      var u := UnkifyParagraph(v, paras[0]);
      var later := Reread(v, paras[1..]);
      ReadAll(v, docTag, paras[1..]);
      ReadParagraph(v, paras[0]);
      HeadRows(docTag);
      assert UnkifyLines(v, Corpus.DocStartToken, docTag, paras) == head + body + tail;
      ReadLinesAppend(head + body, tail);
      ReadLinesAppend(head, body);
      Corpus.KeptAppend(true, ReadLines(head) + ReadLines(body), ReadLines(tail));
      Corpus.KeptAppend(true, ReadLines(head), ReadLines(body));
      RereadStep(v, paras);
    }
  }

  /** The DOCSTART line is stripped; its blank line stays. */
  lemma HeadRows(docTag: string)
    requires '\t' !in docTag
    ensures Corpus.Kept(true, ReadLines([TabLine(Corpus.DocStartToken, docTag), ""])) == [[]]
  {
    TabLineRow(Corpus.DocStartToken, docTag);
    var hr := ReadLines([TabLine(Corpus.DocStartToken, docTag), ""]);
    assert hr == [[Corpus.DocStartToken, docTag], []];
    assert hr[1..] == [[]];
    var blank: seq<Row> := [[]];
    assert blank[1..] == [];
  }

  lemma RereadStep(v: Vocabulary, paras: seq<seq<Sentence>>)
    requires paras != []
    ensures SentenceRows(Reread(v, paras))
         == [[]] + SentenceRows(UnkifyParagraph(v, paras[0])) + SentenceRows(Reread(v, paras[1..]))
  {
    var u := UnkifyParagraph(v, paras[0]);
    var later := Reread(v, paras[1..]);
    var empty: Sentence := [];
    assert Reread(v, paras) == ([empty] + u) + later;
    SentenceRowsAppend([empty] + u, later);
    SentenceRowsCons(empty, u);
    assert TokenRows(empty) + [[]] == [[]];
  }

  lemma SentenceRowsCons(s: Sentence, ss: seq<Sentence>)
    ensures SentenceRows([s] + ss) == TokenRows(s) + [[]] + SentenceRows(ss)
  {
    assert ([s] + ss)[1..] == ss;
  }

  /** Sentences laid out one after another, each closed by a blank row,
      are read back as those sentences, less the empty ones. */
  lemma {:induction false} BlocksOfSentenceRows(ss: seq<Sentence>)
    ensures WellFormed(SentenceRows(ss))
    ensures NonEmpty(Blocks(SentenceRows(ss))) == NonEmpty(ss)
  {
    if ss == [] {
      assert Blocks([]) == [[]];
    } else {
      var s, rest := ss[0], ss[1..];
      var later := SentenceRows(rest);
      HeadTail(ss);
      SentenceRowsCons(s, rest);
      BlocksOfSentenceRows(rest);
      assert Blocks(TokenRows(s)) == [s] by {
        BlocksNoBlank(TokenRows(s));
        TokenPairs(s);
      }
      BlocksSplit(TokenRows(s), later);
      NonEmptyAppend([s], Blocks(later));
      NonEmptyAppend([s], rest);
    }
  }

  lemma {:induction false} TokenPairs(s: Sentence)
    ensures WellFormed(TokenRows(s))
    ensures Pairs(TokenRows(s)) == s
  {
    if s != [] {
      TokenPairs(s[1..]);
      assert TokenRows(s)[1..] == TokenRows(s[1..]);
    }
  }

  /** Dropping the leading empty sentence of every paragraph. */
  lemma {:induction false} RereadNonEmpty(v: Vocabulary, paras: seq<seq<Sentence>>)
    ensures NonEmpty(Reread(v, paras)) == NonEmpty(Concat(UnkifyParagraphs(v, paras)))
  {
    if paras != [] {
      var u := UnkifyParagraph(v, paras[0]);
      var rest := Reread(v, paras[1..]);
      RereadNonEmpty(v, paras[1..]);
      NonEmptyAppend([[]], u + rest);
      NonEmptyAppend(u, rest);
      var us := UnkifyParagraphs(v, paras);
      assert us == [u] + us[1..];
      assert us[1..] == UnkifyParagraphs(v, paras[1..]);
      NonEmptyAppend(u, Concat(us[1..]));
      assert [[]] + u + rest == [[]] + (u + rest);
    }
  }

  /** Unkify round trip: loading the script's output as a corpus with
      DOCSTART rows stripped gives back the unkified sentences, in order,
      without the paragraph breaks and without empty sentences. */
  lemma UnkifyReadsBack(v: Vocabulary, docTag: string, paras: seq<seq<Sentence>>)
    requires '\t' !in v.unkWordToken && v.unkWordToken != Corpus.DocStartToken && '\t' !in docTag
    requires forall p, i :: 0 <= p < |paras| && 0 <= i < |paras[p]| ==> Plain(paras[p][i])
    ensures var r := Corpus.Open(ReadLines(UnkifyLines(v, Corpus.DocStartToken, docTag, paras)), true);
      r.Ok? && r.value.sentences == NonEmpty(Concat(UnkifyParagraphs(v, paras)))
  {
    var rows := ReadLines(UnkifyLines(v, Corpus.DocStartToken, docTag, paras));
    ReadAll(v, docTag, paras);
    BlocksOfSentenceRows(Reread(v, paras));
    RereadNonEmpty(v, paras);
  }

  // Reading the output back with DOCSTART rows kept.

  /** The output as sentences: for each paragraph a one-token DOCSTART
      sentence (closed by the paragraph's blank line), then its unkified
      sentences. */
  function Laid(v: Vocabulary, docTag: string, paras: seq<seq<Sentence>>): seq<Sentence>
  {
    if paras == [] then []
    else [[WordTagPair(Corpus.DocStartToken, docTag)]] + UnkifyParagraph(v, paras[0]) + Laid(v, docTag, paras[1..])
  }

  /** What a loader that keeps DOCSTART rows stores: for each paragraph
      its DOCSTART pair as a sentence of its own, then the paragraph's
      non-empty unkified sentences. */
  function Headed(v: Vocabulary, docTag: string, paras: seq<seq<Sentence>>): seq<Sentence>
  {
    if paras == [] then []
    else [[WordTagPair(Corpus.DocStartToken, docTag)]] + NonEmpty(UnkifyParagraph(v, paras[0])) + Headed(v, docTag, paras[1..])
  }

  /** Every paragraph's lines are read as its DOCSTART row, a blank row,
      and the rows of its unkified sentences. */
  lemma {:induction false} ReadLaid(v: Vocabulary, docTag: string, paras: seq<seq<Sentence>>)
    requires '\t' !in v.unkWordToken && v.unkWordToken != Corpus.DocStartToken && '\t' !in docTag
    requires forall p, i :: 0 <= p < |paras| && 0 <= i < |paras[p]| ==> Plain(paras[p][i])
    ensures ReadLines(UnkifyLines(v, Corpus.DocStartToken, docTag, paras)) == SentenceRows(Laid(v, docTag, paras))
  {
    if paras != [] {
      var head := [TabLine(Corpus.DocStartToken, docTag), ""];
      var body := ParagraphBody(v, paras[0]);
      var tail := UnkifyLines(v, Corpus.DocStartToken, docTag, paras[1..]);
      ReadLaid(v, docTag, paras[1..]);
      ReadParagraph(v, paras[0]);
      HeadLaid(docTag);
      assert UnkifyLines(v, Corpus.DocStartToken, docTag, paras) == head + body + tail;
      ReadLinesAppend(head + body, tail);
      ReadLinesAppend(head, body);
      LaidStep(v, docTag, paras);
    }
  }

  /** The header lines are read as a one-token DOCSTART sentence. */
  lemma HeadLaid(docTag: string)
    requires '\t' !in docTag
    ensures ReadLines([TabLine(Corpus.DocStartToken, docTag), ""])
         == SentenceRows([[WordTagPair(Corpus.DocStartToken, docTag)]])
  {
    var doc: Sentence := [WordTagPair(Corpus.DocStartToken, docTag)];
    TabLineRow(Corpus.DocStartToken, docTag);
    SentenceRowsCons(doc, []);
    assert TokenRows(doc) == [[Corpus.DocStartToken, docTag]];
  }

  lemma LaidStep(v: Vocabulary, docTag: string, paras: seq<seq<Sentence>>)
    requires paras != []
    ensures SentenceRows(Laid(v, docTag, paras))
         == SentenceRows([[WordTagPair(Corpus.DocStartToken, docTag)]])
            + SentenceRows(UnkifyParagraph(v, paras[0])) + SentenceRows(Laid(v, docTag, paras[1..]))
  {
    var doc: Sentence := [WordTagPair(Corpus.DocStartToken, docTag)];
    var u := UnkifyParagraph(v, paras[0]);
    assert Laid(v, docTag, paras) == ([doc] + u) + Laid(v, docTag, paras[1..]);
    SentenceRowsAppend([doc] + u, Laid(v, docTag, paras[1..]));
    SentenceRowsAppend([doc], u);
  }

  /** Dropping the empty sentences of the layout keeps every DOCSTART
      sentence. */
  lemma {:induction false} LaidNonEmpty(v: Vocabulary, docTag: string, paras: seq<seq<Sentence>>)
    ensures NonEmpty(Laid(v, docTag, paras)) == Headed(v, docTag, paras)
  {
    if paras != [] {
      var u := UnkifyParagraph(v, paras[0]);
      var later := Laid(v, docTag, paras[1..]);
      var doc: Sentence := [WordTagPair(Corpus.DocStartToken, docTag)];
      LaidNonEmpty(v, docTag, paras[1..]);
      assert Laid(v, docTag, paras) == ([doc] + u) + later;
      NonEmptyAppend([doc] + u, later);
      NonEmptyAppend([doc], u);
      NonEmptySingle(doc);
    }
  }

  /** Without stripping, every row is kept. */
  lemma {:induction false} KeptAll(rows: seq<Row>)
    ensures Corpus.Kept(false, rows) == rows
  {
    if rows != [] {
      KeptAll(rows[1..]);
    }
  }

  /** Unkify layout: loading the script's output with DOCSTART rows kept
      gives, for every paragraph in order, its DOCSTART pair as a sentence
      and then its non-empty unkified sentences. So every paragraph, not
      only the first, opens with the DOCSTART line and a blank line. */
  lemma UnkifyReadsBackHeaders(v: Vocabulary, docTag: string, paras: seq<seq<Sentence>>)
    requires '\t' !in v.unkWordToken && v.unkWordToken != Corpus.DocStartToken && '\t' !in docTag
    requires forall p, i :: 0 <= p < |paras| && 0 <= i < |paras[p]| ==> Plain(paras[p][i])
    ensures var r := Corpus.Open(ReadLines(UnkifyLines(v, Corpus.DocStartToken, docTag, paras)), false);
      r.Ok? && r.value.sentences == Headed(v, docTag, paras)
  {
    ReadLaid(v, docTag, paras);
    KeptAll(ReadLines(UnkifyLines(v, Corpus.DocStartToken, docTag, paras)));
    BlocksOfSentenceRows(Laid(v, docTag, paras));
    LaidNonEmpty(v, docTag, paras);
  }
}
