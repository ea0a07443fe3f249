/** The transfer-tracking page around the upsert (apps/app3.py): the
    multi-term waybill search and the write button that turns the selected
    waybills into row dictionaries carrying the truck, cost, destination and
    time of the transfer. The widgets and the clock are outside the model:
    their values are parameters. */
module TransferPage {
  import opened Base
  import opened Text
  import opened Seqs
  import opened Table
  import opened Header
  import opened Upsert

  // ---- the search filter ----

  /** `str.contains(re.escape(term), case=False)`: `term` occurs in `wb`
      when letter case is ignored. */
  predicate ContainsFolded(term: string, wb: string) {
    IsInfix(Lower(term), Lower(wb))
  }

  /** The mask of one waybill: a query that `strip` empties keeps every
      waybill, otherwise every term of the query occurs in it. */
  predicate Listed(q: string, wb: string) {
    AllSpace(q) || AllTerms(Words(q), wb)
  }

  /** Every term occurs in `wb`, ignoring case. */
  predicate AllTerms(terms: seq<string>, wb: string) {
    forall k :: 0 <= k < |terms| ==> ContainsFolded(terms[k], wb)
  }

  /** The waybills offered for selection, in table order. */
  function Search(q: string, wbs: seq<string>): (r: seq<string>)
    ensures |r| <= |wbs|
    ensures forall w :: w in r <==> w in wbs && Listed(q, w)
  {
    if wbs == [] then []
    else
      var rest := Search(q, wbs[1..]);
      assert forall w :: w in wbs <==> w == wbs[0] || w in wbs[1..];
      if Listed(q, wbs[0]) then [wbs[0]] + rest else rest
  }

  /** A blank query lists every waybill, in order. */
  lemma {:induction false} SearchBlank(q: string, wbs: seq<string>)
    requires AllSpace(q)
    ensures Search(q, wbs) == wbs
    decreases |wbs|
  {
    if wbs != [] {
      SearchBlank(q, wbs[1..]);
    }
  }

  /** The filter keeps one waybill exactly when the mask keeps it. */
  lemma SearchOne(q: string, w: string)
    ensures Search(q, [w]) == if Listed(q, w) then [w] else []
  {
    assert [w][1..] == [];
  }

  /** Searching a concatenation is searching each part: the listed waybills
      keep their table order and their repetitions. */
  lemma {:induction false} SearchSplit(q: string, a: seq<string>, b: seq<string>)
    ensures Search(q, a + b) == Search(q, a) + Search(q, b)
    decreases |a|
  {
    if a != [] {
      assert (a + b)[0] == a[0];
      assert (a + b)[1..] == a[1..] + b;
      SearchSplit(q, a[1..], b);
    } else {
      assert a + b == b;
    }
  }

  /** Some window of the lower-cased waybill equals the lower-cased term. */
  ghost predicate WindowMatches(term: string, wb: string) {
    exists i: nat :: OccursAt(Lower(term), Lower(wb), i)
  }

  /** A waybill is listed exactly when, for every whitespace-separated term
      of the query, some window of the lower-cased waybill equals the
      lower-cased term; a blank query has no terms. */
  lemma ListedMeaning(q: string, wb: string)
    ensures Listed(q, wb) <==> AllWindows(Words(q), wb)
  {
    if AllSpace(q) {
      WordsOfBlank(q);
    } else {
      TermsAsWindows(Words(q), wb);
    }
  }

  /** Every term equals some window of the lower-cased waybill. */
  ghost predicate AllWindows(terms: seq<string>, wb: string) {
    forall k :: 0 <= k < |terms| ==> WindowMatches(terms[k], wb)
  }

  /** Every term is a substring exactly when every term is a window. */
  lemma TermsAsWindows(ws: seq<string>, wb: string)
    ensures AllTerms(ws, wb) <==> AllWindows(ws, wb)
  {
    forall k | 0 <= k < |ws| ensures ContainsFolded(ws[k], wb) <==> WindowMatches(ws[k], wb) {
      IsInfixMeaning(Lower(ws[k]), Lower(wb));
    }
  }

  /** A query of one word lists the waybills that contain it, ignoring case. */
  lemma OneTermQuery(q: string, wb: string)
    requires q != [] && NoSpace(q)
    ensures Listed(q, wb) <==> ContainsFolded(q, wb)
  {
    var ws := Words(q);
    WordsOfWord(q);
    assert !AllSpace(q) by {
      assert !IsSpace(q[0]);
    }
    assert Listed(q, wb) == AllTerms(ws, wb);
    assert |ws| == 1 && ws[0] == q;
    if ContainsFolded(q, wb) {
      forall k | 0 <= k < |ws| ensures ContainsFolded(ws[k], wb) {
        assert k == 0;
      }
    } else {
      assert !ContainsFolded(ws[0], wb);
    }
  }

  // ---- the write button ----

  /** The first row of the source table whose `运单号` cell is `wb`
      (`idx_full.loc[wb]` on a table without repeated waybills). */
  function FindRow(full: Frame, wb: string): (r: Option<nat>)
    ensures r.None? <==> forall i :: 0 <= i < |full.rows| ==> Lookup(full.columns, full.rows[i], WaybillCol) != wb
    ensures r.Some? ==>
      && r.value < |full.rows| && Lookup(full.columns, full.rows[r.value], WaybillCol) == wb
      && forall i :: 0 <= i < r.value ==> Lookup(full.columns, full.rows[i], WaybillCol) != wb
  {
    FindFrom(full, wb, 0)
  }

  function FindFrom(full: Frame, wb: string, lo: nat): (r: Option<nat>)
    requires lo <= |full.rows|
    ensures r.None? <==> forall i :: lo <= i < |full.rows| ==> Lookup(full.columns, full.rows[i], WaybillCol) != wb
    ensures r.Some? ==>
      && lo <= r.value < |full.rows| && Lookup(full.columns, full.rows[r.value], WaybillCol) == wb
      && forall i :: lo <= i < r.value ==> Lookup(full.columns, full.rows[i], WaybillCol) != wb
    decreases |full.rows| - lo
  {
    if lo == |full.rows| then None
    else if Lookup(full.columns, full.rows[lo], WaybillCol) == wb then Some(lo)
    else FindFrom(full, wb, lo + 1)
  }

  /** What the page writes for one transfer: the truck number, the cost as
      entered, the destination and the time of writing. */
  datatype Transfer = Transfer(truck: string, cost: string, dest: string, now: string)

  /** The value a tracking column takes. */
  function TrackingValue(t: Transfer, c: string): string
    requires c in TransferCols
  {
    if c == TruckCol then t.truck
    else if c == CostCol then t.cost
    else if c == DestCol then t.dest
    else t.now
  }

  /** `rd`: the source row under each of its columns, then `运单号` set to
      the normalised waybill and the four tracking columns set to the
      transfer's values. Keys keep Python's insertion order. */
  function TransferDict(full: Frame, i: nat, wb: string, t: Transfer): (d: RowDict)
    requires i < |full.rows|
    ensures d.keys == Dedup(full.columns + [WaybillCol] + TransferCols)
    ensures forall k :: k in d.keys <==> k in d.values
    ensures Get(d, WaybillCol) == wb
    ensures forall c :: c in TransferCols ==> Get(d, c) == TrackingValue(t, c)
    ensures forall c :: c in full.columns && c != WaybillCol && c !in TransferCols ==>
              Get(d, c) == Lookup(full.columns, full.rows[i], c)
  {
    var keys := Dedup(full.columns + [WaybillCol] + TransferCols);
    var value := (k: string) =>
      if k == WaybillCol then wb
      else if k in TransferCols then TrackingValue(t, k)
      else Lookup(full.columns, full.rows[i], k);
    assert forall k :: k in full.columns + [WaybillCol] + TransferCols ==> k in keys;
    TransferColsDistinct();
    RowDict(keys, map k | k in keys :: value(k))
  }

  /** The dictionary for waybill `w`, when the source table has it. */
  function MakeDict(full: Frame, t: Transfer, w: string): (r: Option<RowDict>)
    ensures r.Some? <==> FindRow(full, w).Some?
  {
    match FindRow(full, w)
    case Some(i) => Some(TransferDict(full, i, w, t))
    case None => None
  }

  /** The loop over the selection: in order, each waybill becomes the
      dictionary `make` builds for it, or is skipped when it builds none. */
  function Gather<D(==)>(make: string -> Option<D>, wbs: seq<string>): (g: (seq<D>, seq<string>))
    ensures |g.0| + |g.1| == |wbs|
    ensures forall w :: w in g.1 <==> w in wbs && make(w).None?
    ensures forall d :: d in g.0 ==> exists w :: w in wbs && make(w) == Some(d)
    ensures forall w :: w in wbs && make(w).Some? ==> make(w).value in g.0
  {
    if wbs == [] then ([], [])
    else
      var init := wbs[..|wbs| - 1];
      var wb := wbs[|wbs| - 1];
      var g := Gather(make, init);
      assert wbs == init + [wb];
      GatherStep(make, g, wb)
  }

  /** The loop's step for one more waybill. */
  function GatherStep<D>(make: string -> Option<D>, g: (seq<D>, seq<string>), wb: string): (seq<D>, seq<string>) {
    match make(wb)
    case None => (g.0, g.1 + [wb])
    case Some(d) => (g.0 + [d], g.1)
  }

  lemma GatherSnoc<D>(make: string -> Option<D>, wbs: seq<string>, wb: string)
    ensures Gather(make, wbs + [wb]) == GatherStep(make, Gather(make, wbs), wb)
  {
    var s := wbs + [wb];
    assert s[..|s| - 1] == wbs && s[|s| - 1] == wb;
  }

  /** One waybill becomes its dictionary, or is skipped. */
  lemma GatherOne<D>(make: string -> Option<D>, wb: string)
    ensures Gather(make, [wb]) == match make(wb) case None => ([], [wb]) case Some(d) => ([d], [])
  {
    var none: seq<D> := [];
    var skipped: seq<string> := [];
    GatherSnoc(make, skipped, wb);
    assert skipped + [wb] == [wb];
    assert Gather(make, skipped) == (none, skipped);
    match make(wb)
    case None =>
    case Some(d) =>
      assert none + [d] == [d];
  }

  /** Gathering a concatenation gathers each part, the first part's
      dictionaries and skipped waybills first: both lists follow the
      selection order, repeats included. */
  lemma {:induction false} GatherSplit<D>(make: string -> Option<D>, a: seq<string>, b: seq<string>)
    ensures var ga := Gather(make, a);
      var gb := Gather(make, b);
      Gather(make, a + b) == (ga.0 + gb.0, ga.1 + gb.1)
    decreases |b|
  {
    var ga := Gather(make, a);
    if b == [] {
      assert a + b == a;
      assert ga.0 + [] == ga.0 && ga.1 + [] == ga.1;
    } else {
      var init := b[..|b| - 1];
      var wb := b[|b| - 1];
      assert b == init + [wb];
      assert a + b == (a + init) + [wb];
      GatherSplit(make, a, init);
      GatherSnoc(make, a + init, wb);
      GatherSnoc(make, init, wb);
      GatherStepAfter(make, ga, Gather(make, init), wb);
    }
  }

  lemma GatherStepAfter<D>(make: string -> Option<D>, ga: (seq<D>, seq<string>), gi: (seq<D>, seq<string>), wb: string)
    ensures var gb := GatherStep(make, gi, wb);
      GatherStep(make, (ga.0 + gi.0, ga.1 + gi.1), wb) == (ga.0 + gb.0, ga.1 + gb.1)
  {
    match make(wb)
    case None =>
      assert ga.1 + gi.1 + [wb] == ga.1 + (gi.1 + [wb]);
    case Some(d) =>
      assert ga.0 + gi.0 + [d] == ga.0 + (gi.0 + [d]);
  }

  /** The dictionary maker of one transfer over one source table. */
  function MakeFor(full: Frame, t: Transfer): string -> Option<RowDict> {
    w => MakeDict(full, t, w)
  }

  /** The selection, each waybill normalised by `_norm_wb`. */
  function Normalised(sel: seq<string>): (r: seq<string>)
    ensures |r| == |sel| && forall j :: 0 <= j < |sel| ==> r[j] == NormWb(Some(sel[j]))
  {
    seq(|sel|, j requires 0 <= j < |sel| => NormWb(Some(sel[j])))
  }

  /** Where the write button stops, or the rows it hands to the upsert. */
  datatype Staging =
    | NoSelection
    | Incomplete
    | NothingToWrite(skipped: seq<string>)
    | Ready(dicts: seq<RowDict>, skipped: seq<string>)

  /** The write button: refuse an empty selection, then a blank truck number
      or destination; then every selected waybill, normalised, that the
      source table has becomes a dictionary and the others are skipped with
      a warning; nothing is written when no dictionary results. */
  function StageTransfer(full: Frame, sel: seq<string>, t: Transfer): (s: Staging)
    ensures s.NoSelection? <==> sel == []
    ensures s.Incomplete? <==> sel != [] && (IsBlank(Some(t.truck)) || IsBlank(Some(t.dest)))
    ensures s.NothingToWrite? <==>
              sel != [] && !IsBlank(Some(t.truck)) && !IsBlank(Some(t.dest))
              && forall w :: w in Normalised(sel) ==> FindRow(full, w).None?
    ensures s.NothingToWrite? ==> |s.skipped| == |sel|
    ensures s.NothingToWrite? || s.Ready? ==>
              forall w :: w in s.skipped <==> w in Normalised(sel) && FindRow(full, w).None?
    ensures s.Ready? ==>
              && s.dicts != [] && |s.dicts| + |s.skipped| == |sel|
              && (forall d :: d in s.dicts ==> exists w :: w in Normalised(sel) && MakeDict(full, t, w) == Some(d))
              && (forall w :: w in Normalised(sel) && FindRow(full, w).Some? ==> MakeDict(full, t, w).value in s.dicts)
    ensures s.Ready? ==> (s.dicts, s.skipped) == Gather(MakeFor(full, t), Normalised(sel))
    ensures s.NothingToWrite? ==> s.skipped == Gather(MakeFor(full, t), Normalised(sel)).1
  {
    if sel == [] then NoSelection
    else if IsBlank(Some(t.truck)) || IsBlank(Some(t.dest)) then Incomplete
    else
      var wbs := Normalised(sel);
      var g := Gather(MakeFor(full, t), wbs);
      assert g.0 != [] ==> g.0[0] in g.0;
      if g.0 == [] then NothingToWrite(g.1) else Ready(g.0, g.1)
  }

  /** Every row the upsert writes for a staged transfer, whether over an
      existing row or appended, ends in the truck number, the cost, the
      destination and the time, and the planned header has a `运单号` column. */
  lemma StagedRowsCarryTransfer(full: Frame, sel: seq<string>, t: Transfer,
                                header0: seq<string>, rows0: seq<seq<string>>)
    requires StageTransfer(full, sel, t).Ready?
    ensures var p := PlanUpsert(header0, rows0, StageTransfer(full, sel, t).dicts);
      && WaybillCol in p.header
      && (forall u :: u in p.updates ==> u.values[|u.values| - 4..] == [t.truck, t.cost, t.dest, t.now])
      && (forall a :: a in p.appends ==> a[|a| - 4..] == [t.truck, t.cost, t.dest, t.now])
  {
    StagedDictsCarryTransfer(full, sel, t);
    PlanRowsCarryTransfer(header0, rows0, StageTransfer(full, sel, t).dicts, t);
  }

  /** The upsert of dictionaries that all carry the transfer writes rows that
      all end in it. */
  lemma PlanRowsCarryTransfer(header0: seq<string>, rows0: seq<seq<string>>, dicts: seq<RowDict>, t: Transfer)
    requires dicts != []
    requires forall d :: d in dicts ==>
               WaybillCol in d.keys && forall c :: c in TransferCols ==> Get(d, c) == TrackingValue(t, c)
    ensures var p := PlanUpsert(header0, rows0, dicts);
      && WaybillCol in p.header
      && (forall u :: u in p.updates ==> u.values[|u.values| - 4..] == [t.truck, t.cost, t.dest, t.now])
      && (forall a :: a in p.appends ==> a[|a| - 4..] == [t.truck, t.cost, t.dest, t.now])
  {
    var p := PlanUpsert(header0, rows0, dicts);
    assert dicts[0] in dicts;
    assert WaybillCol in AllKeys(dicts);
    RouteCarriesTransfer(p.header, p.index, dicts, t);
  }

  lemma RouteCarriesTransfer(h: seq<string>, index: map<string, nat>, dicts: seq<RowDict>, t: Transfer)
    requires |h| >= 4 && h[|h| - 4..] == TransferCols
    requires forall d :: d in dicts ==> forall c :: c in TransferCols ==> Get(d, c) == TrackingValue(t, c)
    ensures var r := Route(h, index, dicts);
      && (forall u :: u in r.updates ==> u.values[|u.values| - 4..] == [t.truck, t.cost, t.dest, t.now])
      && (forall a :: a in r.appends ==> a[|a| - 4..] == [t.truck, t.cost, t.dest, t.now])
  {
    var r := Route(h, index, dicts);
    forall u | u in r.updates ensures u.values[|u.values| - 4..] == [t.truck, t.cost, t.dest, t.now] {
      var i :| 0 <= i < |dicts| && DictWaybill(dicts[i]) in index
               && u == Update(index[DictWaybill(dicts[i])], RowValues(h, dicts[i]));
      assert dicts[i] in dicts;
      RowEndsInTransfer(h, dicts[i], t);
    }
    forall a | a in r.appends ensures a[|a| - 4..] == [t.truck, t.cost, t.dest, t.now] {
      var i :| 0 <= i < |dicts| && DictWaybill(dicts[i]) !in index && a == RowValues(h, dicts[i]);
      assert dicts[i] in dicts;
      RowEndsInTransfer(h, dicts[i], t);
    }
  }

  /** Every staged dictionary carries the transfer and a `运单号` key. */
  lemma StagedDictsCarryTransfer(full: Frame, sel: seq<string>, t: Transfer)
    requires StageTransfer(full, sel, t).Ready?
    ensures forall d :: d in StageTransfer(full, sel, t).dicts ==>
              WaybillCol in d.keys && forall c :: c in TransferCols ==> Get(d, c) == TrackingValue(t, c)
  {
    var s := StageTransfer(full, sel, t);
    forall d | d in s.dicts
      ensures WaybillCol in d.keys && forall c :: c in TransferCols ==> Get(d, c) == TrackingValue(t, c)
    {
      var w :| w in Normalised(sel) && MakeDict(full, t, w) == Some(d);
      DictCarriesTransfer(full, t, w);
    }
  }

  /** A row laid out under a planned header ends in the dictionary's values
      for the four tracking columns. */
  lemma RowEndsInTransfer(h: seq<string>, d: RowDict, t: Transfer)
    requires |h| >= 4 && h[|h| - 4..] == TransferCols
    requires forall c :: c in TransferCols ==> Get(d, c) == TrackingValue(t, c)
    ensures RowValues(h, d)[|h| - 4..] == [t.truck, t.cost, t.dest, t.now]
  {
    var v := RowValues(h, d);
    var n := |h| - 4;
    assert h[n] == TruckCol && h[n + 1] == CostCol && h[n + 2] == DestCol && h[n + 3] == UpdatedCol;
    assert v[n..] == [v[n], v[n + 1], v[n + 2], v[n + 3]];
  }

  /** The dictionary built for a waybill carries the transfer's values in the
      tracking columns and has a `运单号` key. */
  lemma DictCarriesTransfer(full: Frame, t: Transfer, w: string)
    requires MakeDict(full, t, w).Some?
    ensures forall c :: c in TransferCols ==> Get(MakeDict(full, t, w).value, c) == TrackingValue(t, c)
    ensures WaybillCol in MakeDict(full, t, w).value.keys
  {
    var all := full.columns + [WaybillCol] + TransferCols;
    assert WaybillCol in all;
  }
}
