/** Generic sequence helpers: concatenation, filtering of empty members,
    first-seen deduplication and occurrence counting. */
module Seqs {

  /** In-order concatenation of the members of `xss`. */
  function Concat<T>(xss: seq<seq<T>>): seq<T>
  {
    if xss == [] then [] else xss[0] + Concat(xss[1..])
  }

  /** The sum of the lengths of the members of `xss`. */
  function TotalLength<T>(xss: seq<seq<T>>): nat
  {
    if xss == [] then 0 else |xss[0]| + TotalLength(xss[1..])
  }

  /** An item occurs in the concatenation exactly when it occurs in some
      member, and the concatenation is as long as the members together. */
  lemma {:induction false} ConcatMembers<T>(xss: seq<seq<T>>)
    ensures forall x :: x in Concat(xss) ==> exists i :: 0 <= i < |xss| && x in xss[i]
    ensures forall x, i :: 0 <= i < |xss| && x in xss[i] ==> x in Concat(xss)
    ensures |Concat(xss)| == TotalLength(xss)
  {
    if xss != [] {
      var rest := xss[1..];
      ConcatMembers(rest);
      assert Concat(xss) == xss[0] + Concat(rest);
      forall x | x in Concat(xss) ensures exists i :: 0 <= i < |xss| && x in xss[i] {
        if x !in xss[0] {
          assert x in Concat(rest);
          var j :| 0 <= j < |rest| && x in rest[j];
          assert xss[j + 1] == rest[j];
        }
      }
      forall x, i | 0 <= i < |xss| && x in xss[i] ensures x in Concat(xss) {
        if i > 0 {
          assert xss[i] == rest[i - 1];
        }
      }
    }
  }

  lemma {:induction false} ConcatAppend<T>(a: seq<seq<T>>, b: seq<seq<T>>)
    ensures Concat(a + b) == Concat(a) + Concat(b)
  {
    if a == [] {
      assert a + b == b;
    } else {
      assert (a + b)[1..] == a[1..] + b;
      ConcatAppend(a[1..], b);
    }
  }

  lemma AppendAssoc<T>(a: seq<T>, b: seq<T>, c: seq<T>)
    ensures a + (b + c) == (a + b) + c
  {
  }

  lemma AppendEmpty<T>(s: seq<T>)
    ensures [] + s == s && s + [] == s
  {
  }

  lemma HeadTail<T>(s: seq<T>)
    requires |s| >= 1
    ensures s == [s[0]] + s[1..]
  {
  }

  lemma DropAppend<T>(a: seq<T>, b: seq<T>)
    requires |a| >= 1
    ensures (a + b)[0] == a[0] && (a + b)[1..] == a[1..] + b
  {
  }

  lemma ConcatCons<T>(xs: seq<T>, xss: seq<seq<T>>)
    ensures Concat([xs] + xss) == xs + Concat(xss)
  {
    assert ([xs] + xss)[1..] == xss;
  }

  lemma SplitLast<T>(s: seq<T>)
    requires |s| >= 1
    ensures s == s[..|s| - 1] + [s[|s| - 1]]
  {
  }

  /** The members of `xss` that are not empty, in their original order. */
  function NonEmpty<T>(xss: seq<seq<T>>): (r: seq<seq<T>>)
    ensures forall i :: 0 <= i < |r| ==> r[i] != []
    ensures |r| <= |xss|
  {
    if xss == [] then []
    else if xss[0] == [] then NonEmpty(xss[1..])
    else [xss[0]] + NonEmpty(xss[1..])
  }

  lemma {:induction false} NonEmptyAppend<T>(a: seq<seq<T>>, b: seq<seq<T>>)
    ensures NonEmpty(a + b) == NonEmpty(a) + NonEmpty(b)
  {
    if a == [] {
      assert a + b == b;
    } else {
      assert (a + b)[1..] == a[1..] + b;
      NonEmptyAppend(a[1..], b);
    }
  }

  lemma NonEmptySingle<T>(xs: seq<T>)
    ensures NonEmpty([xs]) == if xs == [] then [] else [xs]
  {
    var single := [xs];
    assert single[1..] == [];
  }

  /** Dropping empty members does not change the concatenation. */
  lemma {:induction false} ConcatNonEmpty<T>(xss: seq<seq<T>>)
    ensures Concat(NonEmpty(xss)) == Concat(xss)
  {
    if xss != [] {
      ConcatNonEmpty(xss[1..]);
    }
  }

  predicate NoDups<T(==)>(xs: seq<T>)
  {
    forall i, j :: 0 <= i < j < |xs| ==> xs[i] != xs[j]
  }

  /** The elements of `xs` that are not in `seen`, each kept once, at its
      first occurrence: the key order of a Python dict filled from `xs`. */
  function Dedup<T(==)>(seen: set<T>, xs: seq<T>): seq<T>
    decreases |xs|
  {
    if xs == [] then []
    else if xs[0] in seen then Dedup(seen, xs[1..])
    else [xs[0]] + Dedup(seen + {xs[0]}, xs[1..])
  }

  /** `Dedup` keeps exactly the unseen elements, once each. */
  lemma {:induction false} DedupSpec<T(!new)>(seen: set<T>, xs: seq<T>)
    ensures forall x :: x in Dedup(seen, xs) <==> x in xs && x !in seen
    ensures NoDups(Dedup(seen, xs))
    ensures |Dedup(seen, xs)| <= |xs|
    decreases |xs|
  {
    if xs != [] {
      var x := xs[0];
      if x in seen {
        DedupSpec(seen, xs[1..]);
      } else {
        DedupSpec(seen + {x}, xs[1..]);
        var rest := Dedup(seen + {x}, xs[1..]);
        assert Dedup(seen, xs) == [x] + rest;
        assert x !in rest;
      }
    }
  }

  /** One more element either is already seen or joins the result. */
  lemma DedupCons<T>(seen: set<T>, t: T, ts: seq<T>)
    ensures t in seen ==> Dedup(seen, [t] + ts) == Dedup(seen, ts)
    ensures t !in seen ==> Dedup(seen, [t] + ts) == [t] + Dedup(seen + {t}, ts)
  {
    var xs := [t] + ts;
    assert xs[0] == t && xs[1..] == ts;
  }

  /** Python's `collections.Counter(xs)` as a map: each element of `xs`
      to the number of times it occurs. */
  function Counts<T(==,!new)>(xs: seq<T>): (c: map<T, nat>)
    ensures forall x :: x in c <==> x in xs
    ensures forall x :: x in c ==> c[x] == multiset(xs)[x]
  {
    if xs == [] then map[]
    else
      var prefix := xs[..|xs| - 1];
      var x := xs[|xs| - 1];
      assert xs == prefix + [x];
      var c := Counts(prefix);
      c[x := if x in c then c[x] + 1 else 1]
  }
}
