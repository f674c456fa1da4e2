/** Python string primitives used by the modelled code: `str.strip()`,
    whitespace `str.split()`, `str.split(sep)` and `sep.join(parts)`. */
module Text {
  import opened Seqs

  /** Python's `str.isspace()` on one character (the Unicode whitespace
      set that `strip()` and `split()` use). */
  predicate IsSpace(c: char)
  {
    || ('\t' <= c <= '\r')
    || ('\U{1C}' <= c <= ' ')
    || c == '\U{85}' || c == '\U{A0}' || c == '\U{1680}'
    || ('\U{2000}' <= c <= '\U{200A}')
    || c == '\U{2028}' || c == '\U{2029}' || c == '\U{202F}' || c == '\U{205F}'
    || c == '\U{3000}'
  }

  predicate AllSpace(s: string)
  {
    forall i :: 0 <= i < |s| ==> IsSpace(s[i])
  }

  predicate NoSpace(s: string)
  {
    forall i :: 0 <= i < |s| ==> !IsSpace(s[i])
  }

  /** Number of whitespace characters at the start of `s`. */
  function LeadingSpaces(s: string): (n: nat)
    ensures n <= |s|
    ensures AllSpace(s[..n])
    ensures n < |s| ==> !IsSpace(s[n])
  {
    if s == [] || !IsSpace(s[0]) then 0 else 1 + LeadingSpaces(s[1..])
  }

  /** Number of whitespace characters at the end of `s`. */
  function TrailingSpaces(s: string): (n: nat)
    ensures n <= |s|
    ensures AllSpace(s[|s| - n..])
    ensures n < |s| ==> !IsSpace(s[|s| - n - 1])
  {
    if s == [] || !IsSpace(s[|s| - 1]) then 0 else 1 + TrailingSpaces(s[..|s| - 1])
  }

  /** Python's `s.strip()`: `s` without its leading and trailing whitespace. */
  function Strip(s: string): (r: string)
    ensures r == [] <==> AllSpace(s)
    ensures r != [] ==> !IsSpace(r[0]) && !IsSpace(r[|r| - 1])
    ensures LeadingSpaces(s) + |r| <= |s|
    ensures r == s[LeadingSpaces(s)..LeadingSpaces(s) + |r|]
    ensures AllSpace(s[LeadingSpaces(s) + |r|..])
  {
    var lead := LeadingSpaces(s);
    if lead == |s| then
      StripAllSpace(s);
      []
    else
      var trail := TrailingSpaces(s);
      StripBounds(s);
      var r := s[lead..|s| - trail];
      assert r[|r| - 1] == s[|s| - trail - 1];
      r
  }

  lemma StripAllSpace(s: string)
    requires LeadingSpaces(s) == |s|
    ensures AllSpace(s)
  {
    assert s[..|s|] == s;
  }

  /** When `s` is not all whitespace, its leading and trailing runs are
      separated by a non-empty middle that starts and ends with a
      non-space. */
  lemma StripBounds(s: string)
    requires LeadingSpaces(s) < |s|
    ensures LeadingSpaces(s) < |s| - TrailingSpaces(s)
    ensures !AllSpace(s)
    ensures !IsSpace(s[|s| - TrailingSpaces(s) - 1])
  {
  }

  /** End (exclusive) of the run of non-whitespace characters starting at `i`. */
  function WordEnd(s: string, i: nat): (n: nat)
    requires i <= |s|
    ensures i <= n <= |s|
    ensures NoSpace(s[i..n])
    ensures n < |s| ==> IsSpace(s[n])
    decreases |s| - i
  {
    if i == |s| || IsSpace(s[i]) then i else WordEnd(s, i + 1)
  }

  /** Python's `s.split()` with no argument: the maximal runs of
      non-whitespace characters, in order. */
  function Fields(s: string): (r: seq<string>)
    ensures forall i :: 0 <= i < |r| ==> r[i] != [] && NoSpace(r[i])
    ensures r == [] <==> AllSpace(s)
    decreases |s|
  {
    if s == [] then []
    else if IsSpace(s[0]) then
      var r := Fields(s[1..]);
      assert AllSpace(s[1..]) ==> AllSpace(s) by {
        if AllSpace(s[1..]) {
          forall i | 0 <= i < |s| ensures IsSpace(s[i]) {
            if i > 0 { assert s[i] == s[1..][i - 1]; }
          }
        }
      }
      r
    else
      var n := WordEnd(s, 0);
      [s[..n]] + Fields(s[n..])
  }

  /** Python's `sep.join(parts)`. */
  function Join(parts: seq<string>, sep: string): string
  {
    if parts == [] then ""
    else if |parts| == 1 then parts[0]
    else parts[0] + sep + Join(parts[1..], sep)
  }

  /** Joining two non-empty lists of pieces puts one separator between them. */
  lemma {:induction false} JoinAppend(a: seq<string>, b: seq<string>, sep: string)
    requires a != [] && b != []
    ensures Join(a + b, sep) == Join(a, sep) + sep + Join(b, sep)
  {
    if |a| == 1 {
      assert (a + b)[1..] == b;
    } else {
      assert (a + b)[1..] == a[1..] + b;
      JoinAppend(a[1..], b, sep);
    }
  }

  /** Position of the last `c` in `s`, or -1 when there is none. */
  function FindLast(s: string, c: char): (k: int)
    ensures -1 <= k < |s|
    ensures k >= 0 ==> s[k] == c
    ensures forall j :: k < j < |s| ==> s[j] != c
  {
    if s == [] then -1
    else if s[|s| - 1] == c then |s| - 1
    else FindLast(s[..|s| - 1], c)
  }

  /** Position of the first `c` in `s`, or `|s|` when there is none. */
  function Find(s: string, c: char): (k: nat)
    ensures k <= |s|
    ensures c !in s[..k]
    ensures k < |s| <==> c in s
    ensures k < |s| ==> s[k] == c
  {
    if s == [] then 0
    else if s[0] == c then 0
    else
      var k := 1 + Find(s[1..], c);
      assert s[..k] == [s[0]] + s[1..][..k - 1];
      k
  }

  /** Python's `s.split(sep)` for a one-character separator: the pieces of
      `s` between occurrences of `sep`. */
  function SplitOn(s: string, sep: char): (r: seq<string>)
    ensures |r| >= 1
    ensures forall i :: 0 <= i < |r| ==> sep !in r[i]
    decreases |s|
  {
    var k := Find(s, sep);
    if k == |s| then [s] else [s[..k]] + SplitOn(s[k + 1..], sep)
  }

  /** Joining the pieces of a split with the separator gives `s` back. */
  lemma {:induction false} JoinSplitOn(s: string, sep: char)
    ensures Join(SplitOn(s, sep), [sep]) == s
    decreases |s|
  {
    var k := Find(s, sep);
    if k < |s| {
      var rest := SplitOn(s[k + 1..], sep);
      JoinSplitOn(s[k + 1..], sep);
      JoinCons(s[..k], rest, [sep]);
      CutAround(s, k);
    }
  }

  /** Joining a piece in front of a non-empty list puts one separator
      after it. */
  lemma JoinCons(p: string, rest: seq<string>, sep: string)
    requires |rest| >= 1
    ensures Join([p] + rest, sep) == p + sep + Join(rest, sep)
  {
    assert ([p] + rest)[1..] == rest;
  }

  /** A string is its part before `k`, its character at `k`, and the rest. */
  lemma CutAround(s: string, k: nat)
    requires k < |s|
    ensures s == s[..k] + [s[k]] + s[k + 1..]
  {
  }

  /** Splitting a join of separator-free pieces gives the pieces back. */
  lemma {:induction false} SplitOnJoin(parts: seq<string>, sep: char)
    requires |parts| >= 1
    requires forall i :: 0 <= i < |parts| ==> sep !in parts[i]
    ensures SplitOn(Join(parts, [sep]), sep) == parts
  {
    var p := parts[0];
    if |parts| == 1 {
      assert Join(parts, [sep]) == p;
      assert Find(p, sep) == |p|;
    } else {
      var rest := Join(parts[1..], [sep]);
      var s := p + ([sep] + rest);
      assert Join(parts, [sep]) == s;
      FindAfterFree(p, [sep] + rest, sep);
      SplitOnCut(s, sep, p, rest);
      SplitOnJoin(parts[1..], sep);
      assert parts == [p] + parts[1..];
    }
  }

  /** A split whose first separator follows `p` starts with `p`. */
  lemma SplitOnCut(s: string, sep: char, p: string, rest: string)
    requires s == p + ([sep] + rest)
    requires Find(s, sep) == |p|
    ensures SplitOn(s, sep) == [p] + SplitOn(rest, sep)
  {
    assert s[..|p|] == p;
    assert s[|p| + 1..] == rest;
  }

  lemma FindAfterFree(a: string, b: string, c: char)
    requires c !in a
    requires b != [] && b[0] == c
    ensures Find(a + b, c) == |a|
  {
    if a != [] {
      assert (a + b)[1..] == a[1..] + b;
      FindAfterFree(a[1..], b, c);
    }
  }

  /** Splitting on whitespace a join of non-empty, whitespace-free pieces
      gives the pieces back. */
  lemma {:induction false} FieldsJoin(parts: seq<string>, sep: string)
    requires sep != [] && AllSpace(sep)
    requires forall i :: 0 <= i < |parts| ==> parts[i] != [] && NoSpace(parts[i])
    ensures Fields(Join(parts, sep)) == parts
  {
    if parts != [] {
      var p := parts[0];
      if |parts| == 1 {
        FieldsCut(p, p, "");
      } else {
        var rest := Join(parts[1..], sep);
        assert Join(parts, sep) == p + (sep + rest) by { AppendAssoc(p, sep, rest); }
        assert Fields(sep + rest) == parts[1..] by {
          FieldsJoin(parts[1..], sep);
          FieldsSkipSpaces(sep, rest);
        }
        FieldsCut(p + (sep + rest), p, sep + rest);
        HeadTail(parts);
      }
    }
  }

  /** A word followed by whitespace (or nothing) is the first field. */
  lemma FieldsCut(s: string, p: string, tail: string)
    requires s == p + tail && p != [] && NoSpace(p)
    requires tail != [] ==> IsSpace(tail[0])
    ensures Fields(s) == [p] + Fields(tail)
  {
    WordEndAt(s, |p|);
    assert s[..|p|] == p;
    assert s[|p|..] == tail;
  }

  lemma WordEndAt(s: string, n: nat)
    requires 0 < n <= |s|
    requires NoSpace(s[..n])
    requires n < |s| ==> IsSpace(s[n])
    ensures WordEnd(s, 0) == n
  {
    WordEndFrom(s, 0, n);
  }

  lemma WordEndFrom(s: string, i: nat, n: nat)
    requires i <= n <= |s|
    requires NoSpace(s[i..n])
    requires n < |s| ==> IsSpace(s[n])
    ensures WordEnd(s, i) == n
    decreases n - i
  {
    if i < n {
      assert s[i..n][0] == s[i];
      assert s[i + 1..n] == s[i..n][1..];
      WordEndFrom(s, i + 1, n);
    }
  }

  lemma {:induction false} FieldsSkipSpaces(sp: string, t: string)
    requires AllSpace(sp)
    ensures Fields(sp + t) == Fields(t)
  {
    if sp != [] {
      assert (sp + t)[1..] == sp[1..] + t;
      FieldsSkipSpaces(sp[1..], t);
    } else {
      assert sp + t == t;
    }
  }
}
