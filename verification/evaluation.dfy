/** `evaluate` (src/evaluation.py): per-tag precision, recall and F1 of a
    hypothesis tagging against a reference tagging, with exact rationals
    in place of floats. */
module Evaluation {
  import opened Results
  import opened Text
  import opened Tokens
  import opened Seqs

  /** The four accepted values of `metric`. */
  datatype Metric = All | Precision | Recall | F1

  /** `evaluate` reports all three scores unless asked for one. */
  const DefaultMetric := "all"

  /** The `metric` check that runs before any file is read. */
  function ParseMetric(name: string): (r: Result<Metric>)
    ensures r.Ok? <==> name in {"all", "precision", "recall", "f1"}
    ensures r.Err? ==> r.error == BadMetric
    ensures r == Ok(All) <==> name == "all"
    ensures r == Ok(Precision) <==> name == "precision"
    ensures r == Ok(Recall) <==> name == "recall"
    ensures r == Ok(F1) <==> name == "f1"
  {
    if name == "all" then Ok(All)
    else if name == "precision" then Ok(Precision)
    else if name == "recall" then Ok(Recall)
    else if name == "f1" then Ok(F1)
    else Err(BadMetric)
  }

  /** A line with no whitespace at either end. */
  predicate Stripped(s: string)
  {
    s != [] && !IsSpace(s[0]) && !IsSpace(s[|s| - 1])
  }

  /** `[line.strip() for line in f if line.strip()]`. */
  function Clean(lines: seq<string>): (r: seq<string>)
    ensures |r| <= |lines|
    ensures forall i :: 0 <= i < |r| ==> Stripped(r[i])
  {
    if lines == [] then []
    else
      var s := Strip(lines[0]);
      var rest := Clean(lines[1..]);
      if s == [] then rest
      else
        ConsStripped(s, rest);
        [s] + rest
  }

  lemma ConsStripped(s: string, rest: seq<string>)
    requires Stripped(s)
    requires forall i :: 0 <= i < |rest| ==> Stripped(rest[i])
    ensures forall i :: 0 <= i < |[s] + rest| ==> Stripped(([s] + rest)[i])
  {
  }

  /** Stripping an already stripped line changes nothing, so cleaning is
      idempotent. */
  lemma {:induction false} CleanIdempotent(lines: seq<string>)
    ensures Clean(Clean(lines)) == Clean(lines)
  {
    if lines != [] {
      var s := Strip(lines[0]);
      CleanIdempotent(lines[1..]);
      var rest := Clean(lines[1..]);
      if s != [] {
        var c := [s] + rest;
        assert Clean(lines) == c;
        assert c[0] == s && c[1..] == rest;
        assert Clean(c) == [s] + Clean(rest) by {
          StripStripped(s);
        }
      } else {
        assert Clean(lines) == rest;
      }
    }
  }

  /** A single line is kept, stripped, exactly when it is not blank. */
  lemma CleanOne(line: string)
    ensures Clean([line]) == if AllSpace(line) then [] else [Strip(line)]
  {
    assert [line][1..] == [];
  }

  /** Cleaning works line by line: the kept lines of `a + b` are those of
      `a` followed by those of `b`, in order. */
  lemma {:induction false} CleanAppend(a: seq<string>, b: seq<string>)
    ensures Clean(a + b) == Clean(a) + Clean(b)
  {
    if a == [] {
      assert a + b == b;
    } else {
      var s := Strip(a[0]);
      DropAppend(a, b);
      CleanAppend(a[1..], b);
      if s != [] {
        AppendAssoc([s], Clean(a[1..]), Clean(b));
      }
    }
  }

  lemma StripStripped(s: string)
    requires Stripped(s)
    ensures Strip(s) == s
  {
    assert LeadingSpaces(s) == 0;
    var rest := s[0..];
    assert rest == s;
    assert TrailingSpaces(s) == 0;
  }

  /** `word, tag = line.split()`: exactly two whitespace-separated fields,
      or the unpacking fails. */
  function ParseLine(line: string): (r: Result<WordTagPair>)
    ensures r.Ok? <==> |Fields(line)| == 2
    ensures r.Err? ==> r.error == UnpackError
    ensures r.Ok? ==> Fields(line) == [r.value.word, r.value.tag]
  {
    var fields := Fields(line);
    if |fields| != 2 then Err(UnpackError) else Ok(WordTagPair(fields[0], fields[1]))
  }

  predicate AllParse(lines: seq<string>)
  {
    forall i :: 0 <= i < |lines| ==> |Fields(lines[i])| == 2
  }

  /** The tag column of lines that all parse. */
  function TagColumn(lines: seq<string>): (ts: seq<string>)
    requires AllParse(lines)
    ensures |ts| == |lines|
    ensures forall i :: 0 <= i < |lines| ==> ts[i] == Fields(lines[i])[1]
  {
    if lines == [] then [] else [Fields(lines[0])[1]] + TagColumn(lines[1..])
  }

  /** The reference and hypothesis tags at the same position. */
  function Zip(a: seq<string>, b: seq<string>): (z: seq<(string, string)>)
    requires |a| == |b|
    ensures |z| == |a|
    ensures forall i :: 0 <= i < |a| ==> z[i] == (a[i], b[i])
  {
    if a == [] then [] else [(a[0], b[0])] + Zip(a[1..], b[1..])
  }

  /** The three `defaultdict(int)` counters. */
  datatype Tally = Tally(refCount: map<string, nat>, hypCount: map<string, nat>, truePos: map<string, nat>)

  /** A `defaultdict(int)` read: a missing key reads as 0. */
  function Get(m: map<string, nat>, k: string): nat
  {
    if k in m then m[k] else 0
  }

  function Inc(m: map<string, nat>, k: string): map<string, nat>
  {
    m[k := Get(m, k) + 1]
  }

  /** One iteration of the counting loop: both tags are counted, and a
      true positive when they are equal; the words are never compared. */
  function Bump(t: Tally, refTag: string, hypTag: string): Tally
  {
    Tally(Inc(t.refCount, refTag), Inc(t.hypCount, hypTag),
          if refTag == hypTag then Inc(t.truePos, refTag) else t.truePos)
  }

  /** The counting loop over the paired lines: each reference line is
      unpacked, then its hypothesis line. */
  function Count(refs: seq<string>, hyps: seq<string>, t: Tally): (r: Result<Tally>)
    requires |refs| == |hyps|
    ensures r.Err? ==> r.error == UnpackError
    ensures r.Ok? ==> t.refCount.Keys <= r.value.refCount.Keys && t.hypCount.Keys <= r.value.hypCount.Keys
    decreases |refs|
  {
    if refs == [] then Ok(t)
    else
      var r :- ParseLine(refs[0]);
      var h :- ParseLine(hyps[0]);
      Count(refs[1..], hyps[1..], Bump(t, r.tag, h.tag))
  }

  /** What a run of the counting loop adds to the counters it starts from:
      the occurrences of each tag in the two tag columns, and the
      positions where both columns carry it. */
  ghost predicate Adds(t: Tally, c: Tally, rt: seq<string>, ht: seq<string>)
    requires |rt| == |ht|
  {
    KeysAdd(t.refCount, c.refCount, rt) && CountsAdd(t.refCount, c.refCount, multiset(rt))
    && CountsAdd(t.hypCount, c.hypCount, multiset(ht)) && MatchesAdd(t.truePos, c.truePos, Zip(rt, ht))
  }

  ghost predicate KeysAdd(m: map<string, nat>, m': map<string, nat>, ts: seq<string>)
  {
    forall k :: k in m' <==> k in m || k in ts
  }

  ghost predicate CountsAdd(m: map<string, nat>, m': map<string, nat>, ms: multiset<string>)
  {
    forall k :: Get(m', k) == Get(m, k) + ms[k]
  }

  ghost predicate MatchesAdd(m: map<string, nat>, m': map<string, nat>, z: seq<(string, string)>)
  {
    forall k :: Get(m', k) == Get(m, k) + multiset(z)[(k, k)]
  }

  /** The counting loop fails exactly when some line does not have two
      fields; otherwise it adds the counts of the two tag columns. */
  lemma {:induction false} CountSpec(refs: seq<string>, hyps: seq<string>, t: Tally)
    requires |refs| == |hyps|
    ensures Count(refs, hyps, t).Ok? <==> AllParse(refs) && AllParse(hyps)
    ensures Count(refs, hyps, t).Err? ==> Count(refs, hyps, t).error == UnpackError
    ensures Count(refs, hyps, t).Ok? ==>
      Adds(t, Count(refs, hyps, t).value, TagColumn(refs), TagColumn(hyps))
    decreases |refs|
  {
    if refs != [] {
      var rs, hs := refs[1..], hyps[1..];
      assert AllParse(refs) <==> |Fields(refs[0])| == 2 && AllParse(rs) by {
        assert forall i :: 0 <= i < |rs| ==> rs[i] == refs[i + 1];
      }
      assert AllParse(hyps) <==> |Fields(hyps[0])| == 2 && AllParse(hs) by {
        assert forall i :: 0 <= i < |hs| ==> hs[i] == hyps[i + 1];
      }
      if |Fields(refs[0])| == 2 && |Fields(hyps[0])| == 2 {
        var a, b := Fields(refs[0])[1], Fields(hyps[0])[1];
        var t' := Bump(t, a, b);
        assert Count(refs, hyps, t) == Count(rs, hs, t');
        CountSpec(rs, hs, t');
        if AllParse(rs) && AllParse(hs) {
          var rt, ht := TagColumn(refs), TagColumn(hyps);
          assert rt == [a] + TagColumn(rs);
          assert ht == [b] + TagColumn(hs);
          AddsCons(t, Count(rs, hs, t').value, a, b, TagColumn(rs), TagColumn(hs));
        }
      }
    }
  }

  /** Counting one more pair of tags in front. */
  lemma AddsCons(t: Tally, c: Tally, a: string, b: string, rt: seq<string>, ht: seq<string>)
    requires |rt| == |ht|
    requires Adds(Bump(t, a, b), c, rt, ht)
    ensures Adds(t, c, [a] + rt, [b] + ht)
  {
    var t' := Bump(t, a, b);
    KeysCons(t.refCount, c.refCount, a, rt);
    CountsCons(t.refCount, c.refCount, a, rt);
    CountsCons(t.hypCount, c.hypCount, b, ht);
    MatchesCons(t.truePos, c.truePos, a, b, rt, ht);
  }

  lemma KeysCons(m: map<string, nat>, m': map<string, nat>, a: string, ts: seq<string>)
    requires KeysAdd(Inc(m, a), m', ts)
    ensures KeysAdd(m, m', [a] + ts)
  {
    forall k ensures k in m' <==> k in m || k in [a] + ts {
      assert k in [a] + ts <==> k == a || k in ts;
    }
  }

  lemma CountsCons(m: map<string, nat>, m': map<string, nat>, a: string, ts: seq<string>)
    requires CountsAdd(Inc(m, a), m', multiset(ts))
    ensures CountsAdd(m, m', multiset([a] + ts))
  {
    forall k ensures Get(m', k) == Get(m, k) + multiset([a] + ts)[k] {
      assert multiset([a] + ts)[k] == (if k == a then 1 else 0) + multiset(ts)[k];
      assert Get(Inc(m, a), k) == Get(m, k) + (if k == a then 1 else 0);
    }
  }

  lemma MatchesCons(m: map<string, nat>, m': map<string, nat>, a: string, b: string, rt: seq<string>, ht: seq<string>)
    requires |rt| == |ht|
    requires MatchesAdd(if a == b then Inc(m, a) else m, m', Zip(rt, ht))
    ensures MatchesAdd(m, m', Zip([a] + rt, [b] + ht))
  {
    var rt2, ht2 := [a] + rt, [b] + ht;
    ZipCons(a, b, rt, ht);
    forall k ensures Get(m', k) == Get(m, k) + multiset(Zip(rt2, ht2))[(k, k)] {
      MultisetCons((a, b), Zip(rt, ht), (k, k));
      assert Get(if a == b then Inc(m, a) else m, k) == Get(m, k) + (if k == a && a == b then 1 else 0);
    }
  }

  lemma ZipCons(a: string, b: string, rt: seq<string>, ht: seq<string>)
    requires |rt| == |ht|
    ensures Zip([a] + rt, [b] + ht) == [(a, b)] + Zip(rt, ht)
  {
    assert ([a] + rt)[1..] == rt;
    assert ([b] + ht)[1..] == ht;
  }

  /** A tag is a true positive no more often than it occurs on either side. */
  lemma {:induction false} TruePosBound(a: seq<string>, b: seq<string>, k: string)
    requires |a| == |b|
    ensures multiset(Zip(a, b))[(k, k)] <= multiset(a)[k]
    ensures multiset(Zip(a, b))[(k, k)] <= multiset(b)[k]
  {
    if a != [] {
      var a', b' := a[1..], b[1..];
      TruePosBound(a', b', k);
      MultisetCons((a[0], b[0]), Zip(a', b'), (k, k));
      MultisetHead(a, k);
      MultisetHead(b, k);
    }
  }

  lemma MultisetHead<T>(s: seq<T>, y: T)
    requires s != []
    ensures multiset(s)[y] == (if s[0] == y then 1 else 0) + multiset(s[1..])[y]
  {
    assert s == [s[0]] + s[1..];
  }

  lemma MultisetCons<T>(x: T, s: seq<T>, y: T)
    ensures multiset([x] + s)[y] == (if x == y then 1 else 0) + multiset(s)[y]
  {
  }

  /** Precision, recall and F1 of one tag. Precision is 0 when the tag was
      never hypothesised; the reference count of a result key is at least
      1, so recall always divides; F1 is 0 when both are 0. */
  datatype Triple = Triple(precision: real, recall: real, f1: real)

  function TagScores(tp: nat, refCount: nat, hypCount: nat): (s: Triple)
    requires refCount >= 1
    ensures hypCount == 0 ==> s.precision == 0.0
    ensures s.precision * (hypCount as real) == (if hypCount == 0 then 0.0 else tp as real)
    ensures s.recall * (refCount as real) == tp as real
    ensures s.precision + s.recall == 0.0 ==> s.f1 == 0.0
  {
    var p := if hypCount != 0 then (tp as real) / (hypCount as real) else 0.0;
    var r := (tp as real) / (refCount as real);
    var f := if p + r > 0.0 then 2.0 * p * r / (p + r) else 0.0;
    Triple(p, r, f)
  }

  /** All three scores lie in [0, 1], F1 is twice the true positives over
      the two counts, and it is 0 exactly when there are no true positives. */
  ghost predicate WellScored(s: Triple, tp: nat, refCount: nat, hypCount: nat)
  {
    && 0.0 <= s.precision <= 1.0
    && 0.0 <= s.recall <= 1.0
    && 0.0 <= s.f1 <= 1.0
    && (refCount + hypCount > 0 ==> s.f1 == 2.0 * (tp as real) / ((refCount + hypCount) as real))
    && (s.f1 == 0.0 <==> tp == 0)
  }

  /** Counts that can come from a tagging are well scored. */
  lemma ScoreBounds(tp: nat, refCount: nat, hypCount: nat)
    requires refCount >= 1 && tp <= refCount && tp <= hypCount
    ensures WellScored(TagScores(tp, refCount, hypCount), tp, refCount, hypCount)
  {
    var s := TagScores(tp, refCount, hypCount);
    var t, rc, hc := tp as real, refCount as real, hypCount as real;
    if tp == 0 {
      assert s.precision == 0.0 && s.recall == 0.0;
    } else {
      var p, r := t / hc, t / rc;
      assert s.precision == p && s.recall == r;
      assert 0.0 < p <= 1.0 by {
        DivBounds(t, hc);
      }
      assert 0.0 < r <= 1.0 by {
        DivBounds(t, rc);
      }
      F1Formula(t, rc, hc);
      assert s.f1 == 2.0 * t / (rc + hc);
      assert 0.0 < s.f1 <= 1.0 by {
        DivBounds(2.0 * t, rc + hc);
      }
    }
  }

  lemma DivBounds(x: real, y: real)
    requires 0.0 < x <= y
    ensures 0.0 < x / y <= 1.0
  {
  }

  /** The harmonic mean of `t/h` and `t/r` is `2t/(r+h)`. */
  lemma F1Formula(t: real, r: real, h: real)
    requires t > 0.0 && r > 0.0 && h > 0.0
    ensures 2.0 * (t / h) * (t / r) / (t / h + t / r) == 2.0 * t / (r + h)
  {
    var p, q := t / h, t / r;
    assert p * h == t && q * r == t;
    assert p + q == t * (r + h) / (h * r);
    assert 2.0 * p * q == 2.0 * t * t / (h * r);
    var lhs := 2.0 * p * q / (p + q);
    assert lhs * (p + q) == 2.0 * p * q;
    assert lhs * (t * (r + h)) == 2.0 * t * t;
  }

  /** One entry of the result: the triple, or the selected component. */
  datatype Score = All3(scores: Triple) | One(value: real)

  function Select(m: Metric, s: Triple): (v: Score)
    ensures m == All <==> v.All3?
    ensures v.All3? ==> v.scores == s
    ensures m == Precision ==> v == One(s.precision)
    ensures m == Recall ==> v == One(s.recall)
    ensures m == F1 ==> v == One(s.f1)
  {
    match m
    case All => All3(s)
    case Precision => One(s.precision)
    case Recall => One(s.recall)
    case F1 => One(s.f1)
  }

  /** The result `evaluate` builds from the counters: one entry per
      reference tag. */
  function Report(m: Metric, c: Tally): (r: map<string, Score>)
    ensures r.Keys == c.refCount.Keys
    ensures forall t :: t in r ==> (r[t].All3? <==> m == All)
    requires forall t :: t in c.refCount ==> c.refCount[t] >= 1
  {
    map t | t in c.refCount :: Select(m, TagScores(Get(c.truePos, t), c.refCount[t], Get(c.hypCount, t)))
  }

  function EmptyTally(): Tally
  {
    Tally(map[], map[], map[])
  }

  /** `evaluate(ref, hyp, metric)` on the lines of the two files. The
      checks run in order: the metric name, the numbers of non-blank
      lines, then every line's two fields. The result has one entry per
      reference tag. */
  function Evaluate(refLines: seq<string>, hypLines: seq<string>, metric: string := DefaultMetric): (r: Result<map<string, Score>>)
    ensures r.Err? && r.error == BadMetric <==> ParseMetric(metric).Err?
    ensures r.Err? && r.error == LengthMismatch <==>
              ParseMetric(metric).Ok? && |Clean(refLines)| != |Clean(hypLines)|
    ensures r.Err? && r.error == UnpackError <==>
              && ParseMetric(metric).Ok? && |Clean(refLines)| == |Clean(hypLines)|
              && !(AllParse(Clean(refLines)) && AllParse(Clean(hypLines)))
    ensures r.Err? ==> r.error in {BadMetric, LengthMismatch, UnpackError}
    ensures r.Ok? ==> forall t :: t in r.value <==> t in TagColumn(Clean(refLines))
    ensures r.Ok? ==> forall t :: t in r.value ==> (r.value[t].All3? <==> metric == "all")
  {
    var m :- ParseMetric(metric);
    var refs, hyps := Clean(refLines), Clean(hypLines);
    if |refs| != |hyps| then Err(LengthMismatch)
    else
      CountSpec(refs, hyps, EmptyTally());
      var c :- Count(refs, hyps, EmptyTally());
      CountedKeys(c, TagColumn(refs), TagColumn(hyps));
      Ok(Report(m, c))
  }

  /** Counting from zero: the keys are the reference tags, each counted at
      least once. */
  lemma CountedKeys(c: Tally, rt: seq<string>, ht: seq<string>)
    requires |rt| == |ht| && Adds(EmptyTally(), c, rt, ht)
    ensures forall t :: t in c.refCount <==> t in rt
    ensures forall t :: t in c.refCount ==> c.refCount[t] >= 1
  {
    assert KeysAdd(map[], c.refCount, rt);
    assert CountsAdd(map[], c.refCount, multiset(rt));
    forall t | t in c.refCount ensures c.refCount[t] >= 1 {
      assert Get(c.refCount, t) == multiset(rt)[t];
    }
  }

  /** Each entry is built from the counts of the two tag columns: the
      true positives are the positions where both sides carry the tag,
      and every score lies in [0, 1]. */
  lemma EvaluateSpec(refLines: seq<string>, hypLines: seq<string>, metric: string, t: string)
    requires Evaluate(refLines, hypLines, metric).Ok?
    requires t in Evaluate(refLines, hypLines, metric).value
    ensures ParseMetric(metric).Ok?
    ensures |Clean(refLines)| == |Clean(hypLines)|
    ensures AllParse(Clean(refLines)) && AllParse(Clean(hypLines))
    ensures multiset(TagColumn(Clean(refLines)))[t] >= 1
    ensures var rt, ht := TagColumn(Clean(refLines)), TagColumn(Clean(hypLines));
      var tp := multiset(Zip(rt, ht))[(t, t)];
      var s := TagScores(tp, multiset(rt)[t], multiset(ht)[t]);
      Evaluate(refLines, hypLines, metric).value[t] == Select(ParseMetric(metric).value, s)
    ensures var rt, ht := TagColumn(Clean(refLines)), TagColumn(Clean(hypLines));
      var tp := multiset(Zip(rt, ht))[(t, t)];
      WellScored(TagScores(tp, multiset(rt)[t], multiset(ht)[t]), tp, multiset(rt)[t], multiset(ht)[t])
  {
    var refs, hyps := Clean(refLines), Clean(hypLines);
    var m := ParseMetric(metric).value;
    CountSpec(refs, hyps, EmptyTally());
    var c := Count(refs, hyps, EmptyTally()).value;
    var rt, ht := TagColumn(refs), TagColumn(hyps);
    var tp := multiset(Zip(rt, ht))[(t, t)];
    var rc, hc := multiset(rt)[t], multiset(ht)[t];
    assert t in c.refCount;
    assert rc >= 1;
    assert Get(c.refCount, t) == rc && Get(c.hypCount, t) == hc && Get(c.truePos, t) == tp by {
      assert Adds(EmptyTally(), c, rt, ht);
      assert CountsAdd(map[], c.refCount, multiset(rt));
      assert CountsAdd(map[], c.hypCount, multiset(ht));
      assert MatchesAdd(map[], c.truePos, Zip(rt, ht));
    }
    assert Evaluate(refLines, hypLines, metric).value[t] == Select(m, TagScores(tp, rc, hc));
    TruePosBound(rt, ht, t);
    ScoreBounds(tp, rc, hc);
  }

  /** A worked case of the scoring: the reference has LOC and O once each,
      the hypothesis got LOC right and tagged the O token as MISC. MISC
      has no entry, since only reference tags are keys. */
  lemma ReportExample()
    ensures Report(All, Tally(map["LOC" := 1, "O" := 1], map["LOC" := 1, "MISC" := 1], map["LOC" := 1]))
         == map["LOC" := All3(Triple(1.0, 1.0, 1.0)), "O" := All3(Triple(0.0, 0.0, 0.0))]
  {
    assert TagScores(1, 1, 1) == Triple(1.0, 1.0, 1.0);
    assert TagScores(0, 1, 0) == Triple(0.0, 0.0, 0.0);
    assert "O" != "LOC" && "O" != "MISC";
  }
}
