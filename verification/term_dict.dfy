/** `TermDict` (src/utils.py): a string/id interning table that hands out
    dense ids in first-seen order and may fall back to an unknown token. */
module TermDicts {
  import opened Results
  import opened Seqs

  /** `unk_token`, `_term2id` and `_id2term`. */
  datatype TermDict = TermDict(unkToken: Option<string>, termToId: map<string, nat>, idToTerm: map<nat, string>)

  /** The two maps are mutually inverse and the ids are exactly `[0, n)`. */
  predicate Dense(d: TermDict)
  {
    && (forall t :: t in d.termToId ==>
          d.termToId[t] < |d.termToId| && d.termToId[t] in d.idToTerm && d.idToTerm[d.termToId[t]] == t)
    && (forall i :: i in d.idToTerm ==>
          i < |d.termToId| && d.idToTerm[i] in d.termToId && d.termToId[d.idToTerm[i]] == i)
    && (forall i: nat :: i < |d.termToId| ==> i in d.idToTerm)
  }

  /** The object invariant: dense, and a configured unknown token is
      registered with id 0. */
  predicate Valid(d: TermDict)
  {
    && Dense(d)
    && (d.unkToken.Some? ==> d.unkToken.value in d.termToId && d.termToId[d.unkToken.value] == 0)
  }

  /** `terms`: the key set of `_term2id`. */
  function Terms(d: TermDict): set<string>
  {
    d.termToId.Keys
  }

  /** `add(term)`: a new term gets the next id, the number of terms so
      far; a known term changes nothing. */
  function Add(d: TermDict, term: string): (r: TermDict)
    requires Dense(d)
    ensures Dense(r)
    ensures Valid(d) ==> Valid(r)
    ensures r.unkToken == d.unkToken
    ensures Terms(r) == Terms(d) + {term}
    ensures term in d.termToId ==> r == d
    ensures term !in d.termToId ==> r.termToId[term] == |d.termToId| && |r.termToId| == |d.termToId| + 1
    ensures forall t :: t in d.termToId ==> r.termToId[t] == d.termToId[t]
  {
    if term in d.termToId then d
    else
      var id := |d.termToId|;
      AddFresh(d, term);
      TermDict(d.unkToken, d.termToId[term := id], d.idToTerm[id := term])
  }

  lemma AddFresh(d: TermDict, term: string)
    requires Dense(d) && term !in d.termToId
    ensures var id := |d.termToId|;
      var r := TermDict(d.unkToken, d.termToId[term := id], d.idToTerm[id := term]);
      && Dense(r)
      && |r.termToId| == id + 1
      && (Valid(d) ==> Valid(r))
  {
    var id := |d.termToId|;
    var t2 := d.termToId[term := id];
    var i2 := d.idToTerm[id := term];
    assert |t2| == id + 1;
    assert id !in d.idToTerm;
    AddFreshTerms(d, term, t2, i2);
    AddFreshIds(d, term, t2, i2);
    forall i: nat | i < |t2| ensures i in i2 {
      if i < id {
        assert i in d.idToTerm;
      }
    }
  }

  /** After a fresh add, every term's id is below the count and maps back. */
  lemma AddFreshTerms(d: TermDict, term: string, t2: map<string, nat>, i2: map<nat, string>)
    requires Dense(d) && term !in d.termToId
    requires t2 == d.termToId[term := |d.termToId|] && i2 == d.idToTerm[|d.termToId| := term]
    requires |t2| == |d.termToId| + 1
    ensures forall t :: t in t2 ==> t2[t] < |t2| && t2[t] in i2 && i2[t2[t]] == t
  {
    forall t | t in t2 ensures t2[t] < |t2| && t2[t] in i2 && i2[t2[t]] == t {
      if t != term {
        assert t in d.termToId && t2[t] == d.termToId[t];
      }
    }
  }

  /** After a fresh add, every id is below the count and maps back. */
  lemma AddFreshIds(d: TermDict, term: string, t2: map<string, nat>, i2: map<nat, string>)
    requires Dense(d) && term !in d.termToId
    requires t2 == d.termToId[term := |d.termToId|] && i2 == d.idToTerm[|d.termToId| := term]
    requires |t2| == |d.termToId| + 1 && |d.termToId| !in d.idToTerm
    ensures forall i :: i in i2 ==> i < |t2| && i2[i] in t2 && t2[i2[i]] == i
  {
    forall i | i in i2 ensures i < |t2| && i2[i] in t2 && t2[i2[i]] == i {
      if i != |d.termToId| {
        assert i in d.idToTerm && i2[i] == d.idToTerm[i];
        assert d.idToTerm[i] != term;
      }
    }
  }

  /** `TermDict(unk_token)`: empty, or holding only the unknown token, at
      id 0. */
  function Init(unk: Option<string>): (r: TermDict)
    ensures Valid(r)
    ensures r.unkToken == unk
    ensures unk.None? ==> Terms(r) == {}
    ensures unk.Some? ==> Terms(r) == {unk.value} && r.termToId[unk.value] == 0
  {
    var empty := TermDict(unk, map[], map[]);
    match unk
    case None => empty
    case Some(u) => Add(empty, u)
  }

  /** `get_id(term)`: the term's id; an unknown term gets the unknown
      token's id when one is configured, and raises KeyError otherwise. */
  function GetId(d: TermDict, term: string): (r: Result<nat>)
    requires Valid(d)
    ensures term in d.termToId ==> r == Ok(d.termToId[term])
    ensures term !in d.termToId && d.unkToken.Some? ==> r == Ok(0)
    ensures term !in d.termToId && d.unkToken.None? ==> r == Err(KeyError)
    ensures r.Ok? ==> r.value in d.idToTerm
  {
    if term in d.termToId then Ok(d.termToId[term])
    else
      match d.unkToken
      case Some(u) => Ok(d.termToId[u])
      case None => Err(KeyError)
  }

  /** `get_term(term_id)`: the term with that id; any other id raises
      KeyError, with no fallback. */
  function GetTerm(d: TermDict, id: int): (r: Result<string>)
    requires Valid(d)
    ensures r.Ok? <==> 0 <= id < |d.termToId|
    ensures r.Err? ==> r.error == KeyError
    ensures r.Ok? ==> r.value in d.termToId && d.termToId[r.value] == id
  {
    if 0 <= id && id as nat in d.idToTerm then Ok(d.idToTerm[id as nat]) else Err(KeyError)
  }

  /** Every registered term is recovered from its id. */
  lemma TermRoundTrip(d: TermDict, t: string)
    requires Valid(d) && t in Terms(d)
    ensures GetId(d, t).Ok? && GetTerm(d, GetId(d, t).value) == Ok(t)
  {
  }

  /** Every assigned id is recovered from its term. */
  lemma IdRoundTrip(d: TermDict, id: int)
    requires Valid(d) && 0 <= id < |Terms(d)|
    ensures GetTerm(d, id).Ok? && GetId(d, GetTerm(d, id).value) == Ok(id)
  {
  }

  /** An unregistered term reads back as the unknown token. */
  lemma UnknownFallsBack(d: TermDict, t: string)
    requires Valid(d) && t !in Terms(d) && d.unkToken.Some?
    ensures GetId(d, t).Ok? && GetTerm(d, GetId(d, t).value) == Ok(d.unkToken.value)
  {
  }

  /** Every id below `n` is assigned. */
  predicate IdsBelow(d: TermDict, n: nat)
  {
    forall i: nat :: i < n ==> i in d.idToTerm
  }

  /** The terms with ids `0 .. n-1`, in id order. */
  function Prefix(d: TermDict, n: nat): seq<string>
    requires IdsBelow(d, n)
  {
    if n == 0 then [] else Prefix(d, n - 1) + [d.idToTerm[n - 1]]
  }

  /** The terms in id order. */
  function ById(d: TermDict): seq<string>
    requires Dense(d)
  {
    Prefix(d, |d.termToId|)
  }

  lemma {:induction false} PrefixIndex(d: TermDict, n: nat)
    requires IdsBelow(d, n)
    ensures |Prefix(d, n)| == n
    ensures forall i :: 0 <= i < n ==> Prefix(d, n)[i] == d.idToTerm[i]
  {
    if n > 0 {
      PrefixIndex(d, n - 1);
    }
  }

  /** Two dictionaries that agree on the ids below `n` list the same terms there. */
  lemma {:induction false} PrefixAgree(d: TermDict, e: TermDict, n: nat)
    requires IdsBelow(d, n) && IdsBelow(e, n)
    requires forall i: nat :: i < n ==> d.idToTerm[i] == e.idToTerm[i]
    ensures Prefix(d, n) == Prefix(e, n)
  {
    if n > 0 {
      PrefixAgree(d, e, n - 1);
    }
  }

  /** Reading the terms in id order lists each term once. */
  lemma ByIdTerms(d: TermDict)
    requires Dense(d)
    ensures NoDups(ById(d))
    ensures forall t :: t in ById(d) <==> t in Terms(d)
  {
    var s := ById(d);
    PrefixIndex(d, |d.termToId|);
    forall i, j | 0 <= i < j < |s| ensures s[i] != s[j] {
      assert d.termToId[d.idToTerm[i]] == i;
    }
    forall t | t in s ensures t in Terms(d) {
      var i :| 0 <= i < |s| && s[i] == t;
      assert i in d.idToTerm;
    }
    forall t | t in Terms(d) ensures t in s {
      assert s[d.termToId[t]] == t;
    }
  }

  /** Adding a new term puts it at the end of the id order. */
  lemma ByIdAdd(d: TermDict, term: string)
    requires Dense(d)
    ensures ById(Add(d, term)) == ById(d) + (if term in Terms(d) then [] else [term])
  {
    if term !in Terms(d) {
      var d' := Add(d, term);
      var n := |d.termToId|;
      assert |d'.termToId| == n + 1;
      assert d'.idToTerm[n] == term;
      forall i: nat | i < n ensures d.idToTerm[i] == d'.idToTerm[i] {
        assert i in d.idToTerm;
      }
      PrefixAgree(d, d', n);
    }
  }

  /** `add` applied to each term of `ts` in turn. */
  function AddAll(d: TermDict, ts: seq<string>): (r: TermDict)
    requires Dense(d)
    ensures Dense(r)
    ensures Valid(d) ==> Valid(r)
    decreases |ts|
  {
    if ts == [] then d else AddAll(Add(d, ts[0]), ts[1..])
  }

  /** Ids are handed out densely in first-seen order: after adding `ts`,
      the terms in id order are the old ones followed by the new terms of
      `ts`, each at its first occurrence. */
  lemma {:induction false} AddAllFirstSeen(d: TermDict, ts: seq<string>)
    requires Dense(d)
    ensures ById(AddAll(d, ts)) == ById(d) + Dedup(Terms(d), ts)
    decreases |ts|
  {
    if ts != [] {
      var t, rest := ts[0], ts[1..];
      assert ts == [t] + rest;
      var d' := Add(d, t);
      AddAllFirstSeen(d', rest);
      AddStep(d, t, rest);
    }
  }

  /** One `add` moves the first term from the pending list to the id order. */
  lemma AddStep(d: TermDict, t: string, ts: seq<string>)
    requires Dense(d)
    ensures ById(d) + Dedup(Terms(d), [t] + ts) == ById(Add(d, t)) + Dedup(Terms(Add(d, t)), ts)
  {
    var d' := Add(d, t);
    var a, a' := ById(d), ById(d');
    var k, k' := Terms(d), Terms(d');
    ByIdAdd(d, t);
    DedupCons(k, t, ts);
    if t in k {
      assert d' == d;
    } else {
      assert k' == k + {t};
      AppendAssoc(a, [t], Dedup(k', ts));
    }
  }

  /** A dictionary constructed with `unk` and then given `ts`. */
  function Build(unk: Option<string>, ts: seq<string>): (r: TermDict)
    ensures Valid(r)
  {
    AddAll(Init(unk), ts)
  }

  function UnkList(unk: Option<string>): seq<string>
  {
    match unk
    case None => []
    case Some(u) => [u]
  }

  /** After construction and a sequence of adds: the unknown token (if
      any) has id 0, the distinct added terms follow in first-seen order,
      and `terms` has exactly that many members. */
  lemma BuildSpec(unk: Option<string>, ts: seq<string>)
    ensures ById(Build(unk, ts)) == Dedup({}, UnkList(unk) + ts)
    ensures Terms(Build(unk, ts)) == (set t | t in UnkList(unk) + ts)
    ensures |Terms(Build(unk, ts))| == |Dedup({}, UnkList(unk) + ts)|
  {
    var r := Build(unk, ts);
    var all := UnkList(unk) + ts;
    BuildOrder(unk, ts);
    assert ById(r) == Dedup({}, all);
    BuildTerms(r, all);
  }

  lemma BuildOrder(unk: Option<string>, ts: seq<string>)
    ensures ById(Build(unk, ts)) == Dedup({}, UnkList(unk) + ts)
  {
    var d := Init(unk);
    AddAllFirstSeen(d, ts);
    match unk {
      case None =>
        assert ById(d) == [];
        assert UnkList(unk) + ts == ts;
      case Some(u) =>
        var empty := TermDict(unk, map[], map[]);
        ByIdAdd(empty, u);
        assert ById(d) == [u];
        DedupCons({}, u, ts);
        assert UnkList(unk) + ts == [u] + ts;
    }
  }

  /** When the id order is the first-seen list of `all`, the terms are the
      members of `all` and there are as many as that list is long. */
  lemma BuildTerms(r: TermDict, all: seq<string>)
    requires Dense(r)
    requires ById(r) == Dedup({}, all)
    ensures Terms(r) == (set t | t in all)
    ensures |Terms(r)| == |Dedup({}, all)|
  {
    ByIdTerms(r);
    DedupSpec({}, all);
    DedupSize(ById(r));
    assert Terms(r) == (set t | t in ById(r));
  }

  /** A list without duplicates has as many members as elements. */
  lemma {:induction false} DedupSize(s: seq<string>)
    requires NoDups(s)
    ensures |set t | t in s| == |s|
  {
    if s != [] {
      DedupSize(s[1..]);
      assert (set t | t in s) == (set t | t in s[1..]) + {s[0]};
      assert s[0] !in s[1..];
    }
  }
}
