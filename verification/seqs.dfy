/** Sequence facts used by the header and grouping logic: distinctness,
    first-seen de-duplication and occurrence counts. */
module Seqs {

  predicate Distinct<T(==)>(xs: seq<T>) {
    forall i, j :: 0 <= i < j < |xs| ==> xs[i] != xs[j]
  }

  function Elems<T>(xs: seq<T>): set<T> {
    set x | x in xs
  }

  /** First-seen de-duplication of `xs`, skipping everything already in `seen`:
      the `if h not in seen: seen.add(h); out.append(h)` loop. */
  function DedupFrom<T(==)>(seen: set<T>, xs: seq<T>): (r: seq<T>)
    ensures Distinct(r)
    ensures forall k :: 0 <= k < |r| ==> r[k] in xs && r[k] !in seen
    ensures forall k :: 0 <= k < |xs| && xs[k] !in seen ==> xs[k] in r
    decreases |xs|
  {
    if xs == [] then []
    else if xs[0] in seen then DedupFrom(seen, xs[1..])
    else [xs[0]] + DedupFrom(seen + {xs[0]}, xs[1..])
  }

  function Dedup<T(==)>(xs: seq<T>): (r: seq<T>)
    ensures Distinct(r)
    ensures forall k :: 0 <= k < |r| ==> r[k] in xs
    ensures forall k :: 0 <= k < |xs| ==> xs[k] in r
  {
    DedupFrom({}, xs)
  }

  /** De-duplicating a sequence that has no repeats and avoids `seen` changes nothing. */
  lemma {:induction false} DedupFromDistinct<T>(seen: set<T>, xs: seq<T>)
    requires Distinct(xs)
    requires forall x :: x in xs ==> x !in seen
    ensures DedupFrom(seen, xs) == xs
    decreases |xs|
  {
    if xs != [] {
      assert xs[0] in xs;
      var tail := xs[1..];
      forall x | x in tail ensures x !in seen + {xs[0]} {
        var k :| 0 <= k < |tail| && tail[k] == x;
        assert xs[k + 1] == x;
      }
      assert Distinct(tail) by {
        forall i, j | 0 <= i < j < |tail| ensures tail[i] != tail[j] {
          assert tail[i] == xs[i + 1] && tail[j] == xs[j + 1];
        }
      }
      DedupFromDistinct(seen + {xs[0]}, tail);
    }
  }

  lemma DedupDistinct<T>(xs: seq<T>)
    requires Distinct(xs)
    ensures Dedup(xs) == xs
  {
    DedupFromDistinct({}, xs);
  }

  /** De-duplicating a concatenation: the first part's result is a prefix of the whole. */
  lemma {:induction false} DedupFromAppend<T>(seen: set<T>, a: seq<T>, b: seq<T>)
    ensures DedupFrom(seen, a + b) == DedupFrom(seen, a) + DedupFrom(seen + Elems(a), b)
    decreases |a|
  {
    if a == [] {
      assert a + b == b;
      assert seen + Elems(a) == seen;
    } else {
      assert (a + b)[0] == a[0];
      assert (a + b)[1..] == a[1..] + b;
      if a[0] in seen {
        DedupFromAppend(seen, a[1..], b);
        assert seen + Elems(a[1..]) == seen + Elems(a) by {
          assert a == [a[0]] + a[1..];
        }
      } else {
        DedupFromAppend(seen + {a[0]}, a[1..], b);
        assert seen + {a[0]} + Elems(a[1..]) == seen + Elems(a) by {
          assert a == [a[0]] + a[1..];
        }
      }
    }
  }

  /** First-seen order: one more element is added at the end exactly when it
      has not been seen before. */
  lemma DedupSnoc<T>(xs: seq<T>, x: T)
    ensures Dedup(xs + [x]) == Dedup(xs) + (if x in xs then [] else [x])
  {
    DedupFromAppend({}, xs, [x]);
    assert {} + Elems(xs) == Elems(xs);
    assert [x][1..] == [];
  }

  /** Two sequences without repeats and without a common element concatenate
      to one without repeats. */
  lemma DistinctConcat<T>(a: seq<T>, b: seq<T>)
    requires Distinct(a) && Distinct(b)
    requires forall x :: x in a ==> x !in b
    ensures Distinct(a + b)
  {
    var c := a + b;
    forall i, j | 0 <= i < j < |c| ensures c[i] != c[j] {
      if j < |a| {
        assert c[i] == a[i] && c[j] == a[j];
      } else if i >= |a| {
        assert c[i] == b[i - |a|] && c[j] == b[j - |a|];
      } else {
        assert c[i] == a[i] && a[i] in a;
        assert c[j] == b[j - |a|] && b[j - |a|] in b;
      }
    }
  }

  /** De-duplicating elements that have all been seen already yields nothing. */
  lemma DedupFromSeen<T>(seen: set<T>, xs: seq<T>)
    requires forall x :: x in xs ==> x in seen
    ensures DedupFrom(seen, xs) == []
  {
  }

  /** Number of occurrences of `x` in `xs`. */
  function Count<T(==)>(xs: seq<T>, x: T): nat {
    if xs == [] then 0
    else Count(xs[..|xs| - 1], x) + (if xs[|xs| - 1] == x then 1 else 0)
  }

  lemma CountSnoc<T>(xs: seq<T>, x: T)
    ensures forall k :: Count(xs + [x], k) == Count(xs, k) + (if x == k then 1 else 0)
  {
    assert (xs + [x])[..|xs|] == xs;
  }

  lemma {:induction false} CountZero<T>(xs: seq<T>, x: T)
    ensures Count(xs, x) == 0 <==> x !in xs
  {
    if xs != [] {
      CountZero(xs[..|xs| - 1], x);
      assert xs == xs[..|xs| - 1] + [xs[|xs| - 1]];
    }
  }

  /** Counting over a longer prefix that contains one more `x` gives a strictly larger count. */
  lemma {:induction false} CountPrefixGrows<T>(xs: seq<T>, i: nat, j: nat)
    requires i < j <= |xs|
    ensures Count(xs[..j], xs[i]) > Count(xs[..i], xs[i])
    decreases j
  {
    var p := xs[..j];
    assert p[..j - 1] == xs[..j - 1];
    if j - 1 == i {
      assert p[j - 1] == xs[i];
    } else {
      CountPrefixGrows(xs, i, j - 1);
    }
  }
}
