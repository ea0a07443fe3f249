/** The `d[k] = d.get(k, 0) + v` accumulation the binding page runs four
    times (entries of one binding, locally staged records, uploaded rows and
    their merge), and pandas' `groupby(...).first()` over optional counts. */
module Tally {
  import opened Base
  import opened Seqs

  /** `m.get(k, 0)`. */
  function Get(m: map<string, int>, k: string): int {
    if k in m then m[k] else 0
  }

  /** Reference sum: every value paired with `k`, in order. */
  function Total(kvs: seq<(string, int)>, k: string): int {
    if kvs == [] then 0
    else (if kvs[0].0 == k then kvs[0].1 else 0) + Total(kvs[1..], k)
  }

  lemma {:induction false} TotalAppend(a: seq<(string, int)>, b: seq<(string, int)>, k: string)
    ensures Total(a + b, k) == Total(a, k) + Total(b, k)
    decreases |a|
  {
    if a != [] {
      assert (a + b)[1..] == a[1..] + b;
      TotalAppend(a[1..], b, k);
    } else {
      assert a + b == b;
    }
  }

  /** The accumulation loop over key/value pairs, left to right. */
  function SumBy(kvs: seq<(string, int)>): (m: map<string, int>)
    ensures forall k :: k in m <==> exists i :: 0 <= i < |kvs| && kvs[i].0 == k
  {
    if kvs == [] then map[]
    else
      var init := kvs[..|kvs| - 1];
      var m := SumBy(init);
      assert forall i :: 0 <= i < |init| ==> init[i] == kvs[i];
      m[kvs[|kvs| - 1].0 := Get(m, kvs[|kvs| - 1].0) + kvs[|kvs| - 1].1]
  }

  /** The accumulated map holds, under every key, the sum of that key's values. */
  lemma {:induction false} SumByTotal(kvs: seq<(string, int)>, k: string)
    ensures Get(SumBy(kvs), k) == Total(kvs, k)
    decreases |kvs|
  {
    if kvs != [] {
      var init := kvs[..|kvs| - 1];
      var last := kvs[|kvs| - 1];
      SumByTotal(init, k);
      assert kvs == init + [last];
      TotalAppend(init, [last], k);
      assert [last][1..] == [];
    }
  }

  /** The keys of the pairs, in order, repeats included. */
  function PairKeys(kvs: seq<(string, int)>): (ks: seq<string>)
    ensures |ks| == |kvs| && forall j :: 0 <= j < |kvs| ==> ks[j] == kvs[j].0
  {
    seq(|kvs|, j requires 0 <= j < |kvs| => kvs[j].0)
  }

  /** The keys of `kvs` in first-seen order: the iteration order of the dict
      the accumulation builds. */
  function KeyOrder(kvs: seq<(string, int)>): (ks: seq<string>)
    ensures forall i :: 0 <= i < |ks| ==> exists j :: 0 <= j < |kvs| && kvs[j].0 == ks[i]
    ensures forall j :: 0 <= j < |kvs| ==> kvs[j].0 in ks
    ensures forall i, j :: 0 <= i < j < |ks| ==> ks[i] != ks[j]
  {
    var keys := PairKeys(kvs);
    var ks := Dedup(keys);
    assert forall i :: 0 <= i < |ks| ==> ks[i] in keys;
    ks
  }

  /** No pairs, no keys. */
  lemma KeyOrderEmpty()
    ensures KeyOrder([]) == []
  {
  }

  /** Dict insertion order: a pair adds its key at the end exactly when no
      earlier pair carries it. */
  lemma KeyOrderSnoc(kvs: seq<(string, int)>, kv: (string, int))
    ensures KeyOrder(kvs + [kv]) ==
              KeyOrder(kvs) + (if exists j :: 0 <= j < |kvs| && kvs[j].0 == kv.0 then [] else [kv.0])
  {
    var keys := PairKeys(kvs);
    assert PairKeys(kvs + [kv]) == keys + [kv.0];
    DedupSnoc(keys, kv.0);
    assert kv.0 in keys <==> exists j :: 0 <= j < |kvs| && kvs[j].0 == kv.0;
  }

  /** The two-loop merge of the uploaded and the local allocation maps. */
  function Merge(a: map<string, int>, b: map<string, int>): (m: map<string, int>)
    ensures m.Keys == a.Keys + b.Keys
  {
    map k | k in a.Keys + b.Keys :: Get(a, k) + Get(b, k)
  }

  /** Merging two accumulations is accumulating the concatenated pairs. */
  lemma MergeSumBy(x: seq<(string, int)>, y: seq<(string, int)>)
    ensures Merge(SumBy(x), SumBy(y)) == SumBy(x + y)
  {
    var l := Merge(SumBy(x), SumBy(y));
    var r := SumBy(x + y);
    forall k ensures (k in l <==> k in r) && Get(l, k) == Get(r, k) {
      MergeSumByAt(x, y, k);
    }
    assert l.Keys == r.Keys;
    assert forall k | k in l :: l[k] == Get(l, k) == Get(r, k) == r[k];
  }

  /** The merge agrees with the accumulation of all pairs on one key. */
  lemma MergeSumByAt(x: seq<(string, int)>, y: seq<(string, int)>, k: string)
    ensures var l := Merge(SumBy(x), SumBy(y));
      var r := SumBy(x + y);
      (k in l <==> k in r) && Get(l, k) == Get(r, k)
  {
    KeyAmongConcat(x, y, k);
    assert k in SumBy(x) <==> KeyAmong(x, k);
    assert k in SumBy(y) <==> KeyAmong(y, k);
    assert k in SumBy(x + y) <==> KeyAmong(x + y, k);
    SumByTotal(x, k);
    SumByTotal(y, k);
    SumByTotal(x + y, k);
    TotalAppend(x, y, k);
  }

  /** Position `i` holds `(k, Some(v))` and every earlier entry for `k` is missing. */
  predicate FirstPresentAt(kvs: seq<(string, Option<int>)>, k: string, v: int, i: int) {
    && 0 <= i < |kvs| && kvs[i] == (k, Some(v))
    && forall j :: 0 <= j < i && kvs[j].0 == k ==> kvs[j].1.None?
  }

  /** `groupby(key)[col].first()`: for every key, its first non-missing value;
      keys whose values are all missing are absent. */
  function FirstValues(kvs: seq<(string, Option<int>)>): (m: map<string, int>)
    ensures forall k :: k in m <==> exists i :: 0 <= i < |kvs| && kvs[i].0 == k && kvs[i].1.Some?
    ensures forall k :: k in m ==> exists i :: FirstPresentAt(kvs, k, m[k], i)
  {
    if kvs == [] then map[]
    else
      var init := kvs[..|kvs| - 1];
      var m := FirstValues(init);
      assert forall i :: 0 <= i < |init| ==> init[i] == kvs[i];
      var (k, v) := kvs[|kvs| - 1];
      assert forall k', v', i :: FirstPresentAt(init, k', v', i) ==> FirstPresentAt(kvs, k', v', i);
      if k !in m && v.Some? then
        assert FirstPresentAt(kvs, k, v.value, |kvs| - 1);
        m[k := v.value]
      else m
  }

  /** The pairs a loop contributes: `f` says, for each row, whether it is
      skipped (`None`) or which key and value it adds. */
  function Pairs<R>(rows: seq<R>, f: R -> Option<(string, int)>): seq<(string, int)> {
    if rows == [] then []
    else (match f(rows[0]) case Some(p) => [p] case None => []) + Pairs(rows[1..], f)
  }

  /** Reference sum of the values the rows contribute under `k`. */
  function RowsTotal<R>(rows: seq<R>, f: R -> Option<(string, int)>, k: string): int {
    if rows == [] then 0
    else
      RowsTotal(rows[..|rows| - 1], f, k)
      + match f(rows[|rows| - 1]) case Some(p) => (if p.0 == k then p.1 else 0) case None => 0
  }

  lemma {:induction false} PairsAppend<R>(a: seq<R>, b: seq<R>, f: R -> Option<(string, int)>)
    ensures Pairs(a + b, f) == Pairs(a, f) + Pairs(b, f)
    decreases |a|
  {
    if a == [] {
      assert a + b == b;
    } else {
      assert (a + b)[0] == a[0];
      assert (a + b)[1..] == a[1..] + b;
      PairsAppend(a[1..], b, f);
    }
  }

  lemma {:induction false} PairsTotal<R>(rows: seq<R>, f: R -> Option<(string, int)>, k: string)
    ensures Total(Pairs(rows, f), k) == RowsTotal(rows, f, k)
    decreases |rows|
  {
    if rows != [] {
      var init := rows[..|rows| - 1];
      var last := rows[|rows| - 1];
      PairsTotal(init, f, k);
      assert rows == init + [last];
      PairsAppend(init, [last], f);
      TotalAppend(Pairs(init, f), Pairs([last], f), k);
      assert [last][1..] == [];
    }
  }

  /** Some pair carries the key `k`. */
  predicate KeyAmong(kvs: seq<(string, int)>, k: string) {
    exists i :: 0 <= i < |kvs| && kvs[i].0 == k
  }

  /** Some row contributes a pair under the key `k`. */
  predicate Contributes<R>(rows: seq<R>, f: R -> Option<(string, int)>, k: string) {
    exists j :: 0 <= j < |rows| && f(rows[j]).Some? && f(rows[j]).value.0 == k
  }

  /** A key occurs among the pairs exactly when some row contributes it. */
  lemma {:induction false} PairsKeys<R>(rows: seq<R>, f: R -> Option<(string, int)>, k: string)
    ensures KeyAmong(Pairs(rows, f), k) <==> Contributes(rows, f, k)
    decreases |rows|
  {
    if rows != [] {
      var head: seq<(string, int)> := match f(rows[0]) case Some(p) => [p] case None => [];
      var rest := Pairs(rows[1..], f);
      assert Pairs(rows, f) == head + rest;
      PairsKeys(rows[1..], f, k);
      KeyAmongConcat(head, rest, k);
      ContributesCons(rows, f, k);
      assert KeyAmong(head, k) <==> f(rows[0]).Some? && f(rows[0]).value.0 == k by {
        if f(rows[0]).Some? && f(rows[0]).value.0 == k {
          assert head[0].0 == k;
        }
      }
    }
  }

  lemma KeyAmongConcat(a: seq<(string, int)>, b: seq<(string, int)>, k: string)
    ensures KeyAmong(a + b, k) <==> KeyAmong(a, k) || KeyAmong(b, k)
  {
    if KeyAmong(a + b, k) {
      var i :| 0 <= i < |a + b| && (a + b)[i].0 == k;
      if i >= |a| {
        assert b[i - |a|] == (a + b)[i];
      }
    }
    if KeyAmong(b, k) {
      var i :| 0 <= i < |b| && b[i].0 == k;
      assert (a + b)[|a| + i] == b[i];
    }
    if KeyAmong(a, k) {
      var i :| 0 <= i < |a| && a[i].0 == k;
      assert (a + b)[i] == a[i];
    }
  }

  lemma ContributesCons<R>(rows: seq<R>, f: R -> Option<(string, int)>, k: string)
    requires rows != []
    ensures Contributes(rows, f, k) <==>
            (f(rows[0]).Some? && f(rows[0]).value.0 == k) || Contributes(rows[1..], f, k)
  {
    if Contributes(rows, f, k) {
      var j :| 0 <= j < |rows| && f(rows[j]).Some? && f(rows[j]).value.0 == k;
      if j > 0 {
        assert rows[1..][j - 1] == rows[j];
      }
    }
    if Contributes(rows[1..], f, k) {
      var j :| 0 <= j < |rows[1..]| && f(rows[1..][j]).Some? && f(rows[1..][j]).value.0 == k;
      assert rows[j + 1] == rows[1..][j];
    }
  }

  /** Accumulating what the rows contribute: a key is present exactly when
      some row contributes it, and holds the sum of its contributions. */
  lemma SumByPairs<R>(rows: seq<R>, f: R -> Option<(string, int)>, k: string)
    ensures var m := SumBy(Pairs(rows, f));
            && (k in m <==> Contributes(rows, f, k))
            && Get(m, k) == RowsTotal(rows, f, k)
  {
    PairsKeys(rows, f, k);
    SumByTotal(Pairs(rows, f), k);
    PairsTotal(rows, f, k);
  }
}
