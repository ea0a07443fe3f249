/** The planning half of `upsert_transfer_rows` (apps/app3.py): the header the
    transfer-tracking sheet is rewritten to, with the four tracking columns
    pinned at the end, the index from waybill to sheet row, and the split of
    the rows to write into in-place updates and appends. The Sheets API calls
    that carry the plan out are outside the model. */
module Upsert {
  import opened Base
  import opened Text
  import opened Seqs
  import opened Table
  import opened Header

  const TruckCol := "转仓卡车单号"
  const CostCol := "转仓发出成本"
  const DestCol := "转仓目的地仓点"
  const UpdatedCol := "最后更新时间"

  /** `TRANSFER_COLS`, the tracking columns the page owns. */
  const TransferCols: seq<string> := [TruckCol, CostCol, DestCol, UpdatedCol]

  lemma TransferColsDistinct()
    ensures Distinct(TransferCols) && WaybillCol !in TransferCols
  {
  }

  /** A row dictionary: its keys in insertion order and the text under each. */
  datatype RowDict = RowDict(keys: seq<string>, values: map<string, string>)

  /** `rd.get(k, "")`. */
  function Get(rd: RowDict, k: string): string {
    if k in rd.values then rd.values[k] else ""
  }

  // ---- the header ----

  /** `strip_transfer`: the columns that are not tracking columns, in order. */
  function NonTransfer(cols: seq<string>): (r: seq<string>)
    ensures forall x :: x in r <==> x in cols && x !in TransferCols
  {
    if cols == [] then []
    else (if cols[0] in TransferCols then [] else [cols[0]]) + NonTransfer(cols[1..])
  }

  lemma {:induction false} NonTransferAppend(a: seq<string>, b: seq<string>)
    ensures NonTransfer(a + b) == NonTransfer(a) + NonTransfer(b)
    decreases |a|
  {
    if a == [] {
      assert a + b == b;
    } else {
      assert (a + b)[1..] == a[1..] + b;
      NonTransferAppend(a[1..], b);
    }
  }

  /** Columns that include no tracking column pass through unchanged. */
  lemma {:induction false} NonTransferKeeps(cols: seq<string>)
    requires forall x :: x in cols ==> x !in TransferCols
    ensures NonTransfer(cols) == cols
    decreases |cols|
  {
    if cols != [] {
      assert cols[0] in cols;
      NonTransferKeeps(cols[1..]);
    }
  }

  /** Every key of every dictionary, dictionary by dictionary. */
  function AllKeys(dicts: seq<RowDict>): (ks: seq<string>)
    ensures forall x :: x in ks <==> exists i :: 0 <= i < |dicts| && x in dicts[i].keys
  {
    if dicts == [] then []
    else
      var rest := AllKeys(dicts[1..]);
      assert forall i :: 1 <= i < |dicts| ==> dicts[i] == dicts[1..][i - 1];
      dicts[0].keys + rest
  }

  /** `keys_all`: the current non-tracking columns in order without repeats,
      then the non-tracking keys of the dictionaries the header lacks, in the
      order first seen, then the four tracking columns. */
  function PlanHeader(cur: seq<string>, dicts: seq<RowDict>): (h: seq<string>)
    ensures Distinct(h)
    ensures |h| >= 4 && h[|h| - 4..] == TransferCols
    ensures forall x :: x in h <==> x in cur || x in AllKeys(dicts) || x in TransferCols
    ensures Dedup(NonTransfer(cur)) <= h
    ensures forall k :: |Dedup(NonTransfer(cur))| <= k < |h| - 4 ==> h[k] !in cur
  {
    var kept := NonTransfer(cur);
    var added := NonTransfer(AllKeys(dicts));
    DedupFromAppend({}, kept, added);
    assert {} + Elems(kept) == Elems(kept);
    var front := Dedup(kept + added);
    TransferColsDistinct();
    DistinctConcat(front, TransferCols);
    front + TransferCols
  }

  /** A header that already has the planned shape and names every key of the
      dictionaries is kept as it is, and only such a header is: the header
      row is rewritten exactly when it has to change. */
  lemma PlanHeaderUnchanged(cur: seq<string>, dicts: seq<RowDict>)
    ensures PlanHeader(cur, dicts) == cur <==>
      && Distinct(cur) && |cur| >= 4 && cur[|cur| - 4..] == TransferCols
      && forall x :: x in AllKeys(dicts) ==> x in cur
  {
    if Distinct(cur) && |cur| >= 4 && cur[|cur| - 4..] == TransferCols && forall x :: x in AllKeys(dicts) ==> x in cur {
      PlanHeaderStable(cur, dicts);
    }
  }

  lemma PlanHeaderStable(cur: seq<string>, dicts: seq<RowDict>)
    requires Distinct(cur) && |cur| >= 4 && cur[|cur| - 4..] == TransferCols
    requires forall x :: x in AllKeys(dicts) ==> x in cur
    ensures PlanHeader(cur, dicts) == cur
  {
    var p := cur[..|cur| - 4];
    ShapedPrefix(cur);
    var added := NonTransfer(AllKeys(dicts));
    assert NonTransfer(cur) == p by {
      NonTransferAppend(p, TransferCols);
      NonTransferKeeps(p);
      NoTrackingLeft();
    }
    assert Dedup(p + added) == p by {
      DedupFromAppend({}, p, added);
      assert {} + Elems(p) == Elems(p);
      DedupFromDistinct({}, p);
      DedupFromSeen(Elems(p), added);
    }
  }

  /** What precedes the tracking columns of a header without repeats. */
  lemma ShapedPrefix(cur: seq<string>)
    requires Distinct(cur) && |cur| >= 4 && cur[|cur| - 4..] == TransferCols
    ensures cur == cur[..|cur| - 4] + TransferCols
    ensures Distinct(cur[..|cur| - 4])
    ensures forall x :: x in cur[..|cur| - 4] ==> x !in TransferCols
    ensures forall x :: x in cur && x !in TransferCols ==> x in cur[..|cur| - 4]
  {
    var n := |cur| - 4;
    var p := cur[..n];
    assert cur == p + TransferCols;
    forall x | x in p ensures x !in TransferCols {
      var i :| 0 <= i < n && p[i] == x;
      assert cur[i] == x;
      forall t | n <= t < |cur| ensures cur[t] != x {
      }
    }
    assert Distinct(p) by {
      forall i, j | 0 <= i < j < n ensures p[i] != p[j] {
        assert p[i] == cur[i] && p[j] == cur[j];
      }
    }
  }

  /** Tracking columns are all dropped. */
  lemma {:induction false} NonTransferDrops(cols: seq<string>)
    requires forall x :: x in cols ==> x in TransferCols
    ensures NonTransfer(cols) == []
    decreases |cols|
  {
    if cols != [] {
      assert cols[0] in cols;
      NonTransferDrops(cols[1..]);
    }
  }

  lemma NoTrackingLeft()
    ensures NonTransfer(TransferCols) == []
  {
    NonTransferDrops(TransferCols);
  }

  /** Planning the header a second time changes nothing. */
  lemma PlanHeaderIdempotent(cur: seq<string>, dicts: seq<RowDict>)
    ensures PlanHeader(PlanHeader(cur, dicts), dicts) == PlanHeader(cur, dicts)
  {
    PlanHeaderStable(PlanHeader(cur, dicts), dicts);
  }

  // ---- the index ----

  /** `wb2row` built from a column of stripped waybills: each non-blank
      waybill mapped to the sheet row of its last occurrence, data rows being
      numbered from 2. */
  /** Sheet row `row` (data rows start at row 2) is the last one whose
      waybill is `wb`. */
  predicate LastRowOf(wbs: seq<string>, wb: string, row: int) {
    && 2 <= row < |wbs| + 2 && wbs[row - 2] == wb
    && forall i :: row - 2 < i < |wbs| ==> wbs[i] != wb
  }

  function LastRows(wbs: seq<string>): (m: map<string, nat>)
    ensures forall wb :: wb in m <==> wb != "" && wb in wbs
    ensures forall wb :: wb in m ==> LastRowOf(wbs, wb, m[wb])
  {
    if wbs == [] then map[]
    else
      var init := wbs[..|wbs| - 1];
      var m := LastRows(init);
      var wb := wbs[|wbs| - 1];
      assert wbs == init + [wb];
      if wb != "" then m[wb := |wbs| + 1] else m
  }

  /** The waybill column of the rows as `astype(str).str.strip()` reads it:
      all blank when the header has no `运单号` column. */
  function WaybillColumn(rows: seq<seq<string>>, col: Option<nat>): (wbs: seq<string>)
    ensures |wbs| == |rows|
  {
    seq(|rows|, i requires 0 <= i < |rows| => if col.Some? then Strip(CellAt(rows[i], col.value)) else "")
  }

  // ---- routing ----

  /** `str(rd.get(COL_WAYBILL, "")).strip()`. */
  function DictWaybill(rd: RowDict): string {
    Strip(Get(rd, WaybillCol))
  }

  /** `row_vals`: the dictionary's value under each header column in header
      order, `""` where it has none (which covers the `setdefault` of the
      tracking columns). */
  function RowValues(header: seq<string>, rd: RowDict): (vals: seq<string>)
    ensures |vals| == |header|
    ensures forall j :: 0 <= j < |header| ==> vals[j] == Get(rd, header[j])
  {
    seq(|header|, j requires 0 <= j < |header| => Get(rd, header[j]))
  }

  /** An in-place rewrite of one sheet row. */
  datatype Update = Update(row: nat, values: seq<string>)

  datatype Routing = Routing(updates: seq<Update>, appends: seq<seq<string>>)

  /** Each item becomes an update of the row its key is indexed at, or an
      appended row when the key is not in the index. */
  function RouteBy<D>(key: D -> string, values: D -> seq<string>, index: map<string, nat>, ds: seq<D>): (r: Routing)
    ensures |r.updates| + |r.appends| == |ds|
    ensures forall i :: 0 <= i < |ds| && key(ds[i]) in index ==>
              Update(index[key(ds[i])], values(ds[i])) in r.updates
    ensures forall i :: 0 <= i < |ds| && key(ds[i]) !in index ==> values(ds[i]) in r.appends
    ensures forall u :: u in r.updates ==>
              exists i :: 0 <= i < |ds| && key(ds[i]) in index && u == Update(index[key(ds[i])], values(ds[i]))
    ensures forall a :: a in r.appends ==>
              exists i :: 0 <= i < |ds| && key(ds[i]) !in index && a == values(ds[i])
  {
    if ds == [] then Routing([], [])
    else
      var init := ds[..|ds| - 1];
      var d := ds[|ds| - 1];
      var r := RouteBy(key, values, index, init);
      assert forall i :: 0 <= i < |init| ==> init[i] == ds[i];
      Then(key, values, index, r, d)
  }

  /** One item is an update of its indexed row, or one appended row. */
  lemma RouteByOne<D>(key: D -> string, values: D -> seq<string>, index: map<string, nat>, d: D)
    ensures RouteBy(key, values, index, [d]) ==
              if key(d) in index then Routing([Update(index[key(d)], values(d))], [])
              else Routing([], [values(d)])
  {
    assert [d][..0] == [];
  }

  /** The routing `r` followed by one more item. */
  function Then<D>(key: D -> string, values: D -> seq<string>, index: map<string, nat>, r: Routing, d: D): Routing {
    if key(d) in index then Routing(r.updates + [Update(index[key(d)], values(d))], r.appends)
    else Routing(r.updates, r.appends + [values(d)])
  }

  lemma RouteBySnoc<D>(key: D -> string, values: D -> seq<string>, index: map<string, nat>, ds: seq<D>, d: D)
    ensures RouteBy(key, values, index, ds + [d]) == Then(key, values, index, RouteBy(key, values, index, ds), d)
  {
    var s := ds + [d];
    assert s[..|s| - 1] == ds && s[|s| - 1] == d;
  }

  /** Routing a concatenation routes each part, the first part's updates and
      appends before the second's: both lists keep the items' order, so of
      two updates of one row the later item's is applied last. */
  lemma {:induction false} RouteBySplit<D>(key: D -> string, values: D -> seq<string>, index: map<string, nat>, a: seq<D>, b: seq<D>)
    ensures var ra := RouteBy(key, values, index, a);
      var rb := RouteBy(key, values, index, b);
      RouteBy(key, values, index, a + b) == Routing(ra.updates + rb.updates, ra.appends + rb.appends)
    decreases |b|
  {
    var ra := RouteBy(key, values, index, a);
    if b == [] {
      assert a + b == a;
    } else {
      var init := b[..|b| - 1];
      var d := b[|b| - 1];
      assert b == init + [d];
      assert a + b == (a + init) + [d];
      RouteBySplit(key, values, index, a, init);
      RouteBySnoc(key, values, index, a + init, d);
      RouteBySnoc(key, values, index, init, d);
      var ri := RouteBy(key, values, index, init);
      ThenAfter(key, values, index, ra, ri, d);
    }
  }

  /** Appending one item to the second of two routings. */
  lemma ThenAfter<D>(key: D -> string, values: D -> seq<string>, index: map<string, nat>, ra: Routing, ri: Routing, d: D)
    ensures var rb := Then(key, values, index, ri, d);
      Then(key, values, index, Routing(ra.updates + ri.updates, ra.appends + ri.appends), d)
        == Routing(ra.updates + rb.updates, ra.appends + rb.appends)
  {
    if key(d) in index {
      var u := Update(index[key(d)], values(d));
      assert ra.updates + ri.updates + [u] == ra.updates + (ri.updates + [u]);
    } else {
      assert ra.appends + ri.appends + [values(d)] == ra.appends + (ri.appends + [values(d)]);
    }
  }

  /** Each dictionary becomes an update of the row its waybill is indexed at,
      or an appended row when the waybill is not in the index. */
  function Route(header: seq<string>, index: map<string, nat>, dicts: seq<RowDict>): (r: Routing)
    ensures |r.updates| + |r.appends| == |dicts|
    ensures forall i :: 0 <= i < |dicts| && DictWaybill(dicts[i]) in index ==>
              Update(index[DictWaybill(dicts[i])], RowValues(header, dicts[i])) in r.updates
    ensures forall i :: 0 <= i < |dicts| && DictWaybill(dicts[i]) !in index ==>
              RowValues(header, dicts[i]) in r.appends
    ensures forall u :: u in r.updates ==>
              exists i :: 0 <= i < |dicts| && DictWaybill(dicts[i]) in index
                          && u == Update(index[DictWaybill(dicts[i])], RowValues(header, dicts[i]))
    ensures forall a :: a in r.appends ==>
              exists i :: 0 <= i < |dicts| && DictWaybill(dicts[i]) !in index && a == RowValues(header, dicts[i])
  {
    RouteBy(DictWaybill, d => RowValues(header, d), index, dicts)
  }

  /** The dictionaries are written in their order: routing two runs of them
      is routing each run, the first run's updates and appends first. */
  lemma RouteSplit(header: seq<string>, index: map<string, nat>, a: seq<RowDict>, b: seq<RowDict>)
    ensures var ra := Route(header, index, a);
      var rb := Route(header, index, b);
      Route(header, index, a + b) == Routing(ra.updates + rb.updates, ra.appends + rb.appends)
  {
    RouteBySplit(DictWaybill, d => RowValues(header, d), index, a, b);
  }

  /** One dictionary is an update of its waybill's row, or one appended row. */
  lemma RouteOne(header: seq<string>, index: map<string, nat>, d: RowDict)
    ensures Route(header, index, [d]) ==
              if DictWaybill(d) in index then Routing([Update(index[DictWaybill(d)], RowValues(header, d))], [])
              else Routing([], [RowValues(header, d)])
  {
    RouteByOne(DictWaybill, d => RowValues(header, d), index, d);
  }

  // ---- the plan ----

  /** What the page is to do to the sheet: the header after planning (and
      whether the header row is rewritten), the existing data rows as they
      stand under that header, the waybill index, and the rows to write. */
  datatype Plan = Plan(
    header: seq<string>,
    rewriteHeader: bool,
    rows: seq<seq<string>>,
    index: map<string, nat>,
    updates: seq<Update>,
    appends: seq<seq<string>>)

  /** The header the sheet is taken to have: an empty header row stands for
      a sheet that is first given the single column `运单号`. */
  function StartHeader(header0: seq<string>): (h: seq<string>)
    ensures h != []
    ensures header0 == [] ==> h == [WaybillCol]
    ensures header0 != [] ==> h == header0
  {
    if header0 == [] then [WaybillCol] else header0
  }

  /** The data rows the sheet is taken to have: none after that reset. */
  function StartRows(header0: seq<string>, rows0: seq<seq<string>>): seq<seq<string>> {
    if header0 == [] then [] else rows0
  }

  /** The plan exactly as `upsert_transfer_rows` builds it: when the header
      changes, the existing rows stay where they are and are only padded to
      the new width, and the index reads them under the new column order. */
  function PlanUpsertAsWritten(header0: seq<string>, rows0: seq<seq<string>>, dicts: seq<RowDict>): (p: Plan)
    ensures p.header == PlanHeader(SanitizeHeader(StartHeader(header0)), dicts)
    ensures p.rows == PadRows(StartRows(header0, rows0), |p.header|)
    ensures p.index == LastRows(WaybillColumn(p.rows, IndexOf(p.header, WaybillCol)))
    ensures p.rewriteHeader <==> p.header != SanitizeHeader(StartHeader(header0))
    ensures Route(p.header, p.index, dicts) == Routing(p.updates, p.appends)
  {
    var cur := SanitizeHeader(StartHeader(header0));
    var rows := StartRows(header0, rows0);
    var h := PlanHeader(cur, dicts);
    var padded := if h != cur then PadRows(rows, |h|) else rows;
    var fixed := PadRows(padded, |h|);
    PadRowsIdempotent(rows, |h|);
    var index := LastRows(WaybillColumn(fixed, IndexOf(h, WaybillCol)));
    var routing := Route(h, index, dicts);
    Plan(h, h != cur, fixed, index, routing.updates, routing.appends)
  }

  /** The plan with the existing rows moved under the new header by column
      name when the header changes; the index then reads each row's own
      waybill. */
  function PlanUpsert(header0: seq<string>, rows0: seq<seq<string>>, dicts: seq<RowDict>): (p: Plan)
    ensures p.header == PlanHeader(SanitizeHeader(StartHeader(header0)), dicts)
    ensures p.rewriteHeader <==> p.header != SanitizeHeader(StartHeader(header0))
    ensures |p.rows| == |StartRows(header0, rows0)|
    ensures forall i :: 0 <= i < |p.rows| ==> |p.rows[i]| == |p.header|
    ensures Route(p.header, p.index, dicts) == Routing(p.updates, p.appends)
  {
    var cur := SanitizeHeader(StartHeader(header0));
    var laid := PadRows(StartRows(header0, rows0), |cur|);
    var h := PlanHeader(cur, dicts);
    var rows := if h != cur then AlignRows(h, Frame(cur, laid)) else laid;
    var index := LastRows(WaybillColumn(rows, IndexOf(h, WaybillCol)));
    var routing := Route(h, index, dicts);
    Plan(h, h != cur, rows, index, routing.updates, routing.appends)
  }

  /** While the header needs no change the two plans coincide: the page's
      misreading of rows is confined to header rewrites. */
  lemma AsWrittenWithoutRewrite(header0: seq<string>, rows0: seq<seq<string>>, dicts: seq<RowDict>)
    requires PlanHeader(SanitizeHeader(StartHeader(header0)), dicts) == SanitizeHeader(StartHeader(header0))
    ensures PlanUpsertAsWritten(header0, rows0, dicts) == PlanUpsert(header0, rows0, dicts)
  {
  }

  /** Every existing cell stays under its column's name: the value a row held
      under column `c` before the upsert is the value it holds under `c` in
      the planned layout. */
  lemma CellsKeptByName(header0: seq<string>, rows0: seq<seq<string>>, dicts: seq<RowDict>, i: nat, c: string)
    requires var cur := SanitizeHeader(StartHeader(header0));
      i < |StartRows(header0, rows0)| && c in cur
    ensures var cur := SanitizeHeader(StartHeader(header0));
      var p := PlanUpsert(header0, rows0, dicts);
      && c in p.header
      && p.rows[i][IndexOf(p.header, c).value] == CellAt(StartRows(header0, rows0)[i], IndexOf(cur, c).value)
  {
    var cur := SanitizeHeader(StartHeader(header0));
    var rows := StartRows(header0, rows0);
    var laid := PadRows(rows, |cur|);
    var h := PlanHeader(cur, dicts);
    var p := PlanUpsert(header0, rows0, dicts);
    assert p.header == h && c in h;
    var j := IndexOf(h, c).value;
    var k := IndexOf(cur, c).value;
    assert laid[i][k] == CellAt(rows[i], k);
    if h != cur {
      assert p.rows == AlignRows(h, Frame(cur, laid));
      assert cur[k] == h[j] && h[j] !in cur[..k] && k < |laid[i]|;
    } else {
      assert p.rows == laid && j == k;
    }
  }

  /** The index is built from the waybills the sheet actually holds, read
      under the header they were written under. */
  lemma IndexReadsSheet(header0: seq<string>, rows0: seq<seq<string>>, dicts: seq<RowDict>)
    ensures var cur := SanitizeHeader(StartHeader(header0));
      PlanUpsert(header0, rows0, dicts).index
        == LastRows(WaybillColumn(StartRows(header0, rows0), IndexOf(cur, WaybillCol)))
  {
    var cur := SanitizeHeader(StartHeader(header0));
    var rows0' := StartRows(header0, rows0);
    var laid := PadRows(rows0', |cur|);
    var p := PlanUpsert(header0, rows0, dicts);
    var h := p.header;
    var now := WaybillColumn(p.rows, IndexOf(h, WaybillCol));
    var before := WaybillColumn(rows0', IndexOf(cur, WaybillCol));
    assert p.index == LastRows(now);
    assert |now| == |before|;
    forall i | 0 <= i < |now| ensures now[i] == before[i] {
      WaybillCellKept(header0, rows0, dicts, i);
    }
    assert now == before;
  }

  lemma WaybillCellKept(header0: seq<string>, rows0: seq<seq<string>>, dicts: seq<RowDict>, i: nat)
    requires i < |StartRows(header0, rows0)|
    ensures var cur := SanitizeHeader(StartHeader(header0));
      var p := PlanUpsert(header0, rows0, dicts);
      WaybillColumn(p.rows, IndexOf(p.header, WaybillCol))[i]
        == WaybillColumn(StartRows(header0, rows0), IndexOf(cur, WaybillCol))[i]
  {
    var cur := SanitizeHeader(StartHeader(header0));
    var p := PlanUpsert(header0, rows0, dicts);
    if WaybillCol in cur {
      CellsKeptByName(header0, rows0, dicts, i, WaybillCol);
    } else if p.header != cur {
      assert IndexOf(p.header, WaybillCol).Some? ==> p.rows[i][IndexOf(p.header, WaybillCol).value] == "";
    }
  }

  /** A row dictionary is written over the sheet row holding its waybill when
      the sheet has that (non-blank) waybill, over the last such row if there
      are several, and is appended otherwise. */
  lemma UpdateIffPresent(header0: seq<string>, rows0: seq<seq<string>>, dicts: seq<RowDict>, n: nat)
    requires n < |dicts|
    ensures var cur := SanitizeHeader(StartHeader(header0));
      var sheet := WaybillColumn(StartRows(header0, rows0), IndexOf(cur, WaybillCol));
      var p := PlanUpsert(header0, rows0, dicts);
      var wb := DictWaybill(dicts[n]);
      && (wb != "" && wb in sheet ==>
            && wb in p.index && Update(p.index[wb], RowValues(p.header, dicts[n])) in p.updates
            && LastRowOf(sheet, wb, p.index[wb]))
      && (wb == "" || wb !in sheet ==> RowValues(p.header, dicts[n]) in p.appends)
  {
    var cur := SanitizeHeader(StartHeader(header0));
    var sheet := WaybillColumn(StartRows(header0, rows0), IndexOf(cur, WaybillCol));
    var p := PlanUpsert(header0, rows0, dicts);
    IndexReadsSheet(header0, rows0, dicts);
    assert p.index == LastRows(sheet);
    assert Route(p.header, LastRows(sheet), dicts) == Routing(p.updates, p.appends);
    RouteByLastRow(p.header, sheet, dicts, n);
  }

  /** The routing of one dictionary against the last-row index of a waybill column. */
  lemma RouteByLastRow(header: seq<string>, sheet: seq<string>, dicts: seq<RowDict>, n: nat)
    requires n < |dicts|
    ensures var index := LastRows(sheet);
      var r := Route(header, index, dicts);
      var wb := DictWaybill(dicts[n]);
      && (wb != "" && wb in sheet ==>
            && wb in index && Update(index[wb], RowValues(header, dicts[n])) in r.updates
            && LastRowOf(sheet, wb, index[wb]))
      && (wb == "" || wb !in sheet ==> RowValues(header, dicts[n]) in r.appends)
  {
  }

  // ---- the header-rewrite example ----

  /** A sheet whose waybill column is not the first: `转仓卡车单号, 运单号`
      with one row for waybill `W1`, and one dictionary for `W1`. */
  const ExampleHeader: seq<string> := [TruckCol, WaybillCol]
  const ExampleRows: seq<seq<string>> := [["T1", "W1"]]
  const ExampleDict := RowDict([WaybillCol], map[WaybillCol := "W1"])

  const ExamplePlanned: seq<string> := [WaybillCol] + TransferCols

  lemma ExampleSanitized()
    ensures SanitizeHeader(StartHeader(ExampleHeader)) == ExampleHeader
  {
    assert Strip(TruckCol) == TruckCol && Strip(WaybillCol) == WaybillCol;
    var keys := Keys(ExampleHeader);
    assert keys == ExampleHeader;
    assert keys[..1] == [TruckCol] && keys[..1][..0] == [];
    assert Count(keys[..1], WaybillCol) == 0;
  }

  /** The header is planned as `运单号` followed by the tracking columns. */
  lemma ExampleHeaderPlanned()
    ensures PlanHeader(ExampleHeader, [ExampleDict]) == ExamplePlanned
  {
    NonTransferAppend([TruckCol], [WaybillCol]);
    NonTransferDrops([TruckCol]);
    NonTransferKeeps([WaybillCol]);
    assert ExampleHeader == [TruckCol] + [WaybillCol];
    assert AllKeys([ExampleDict]) == [WaybillCol];
    var both := [WaybillCol] + [WaybillCol];
    assert both[1..] == [WaybillCol];
    DedupFromSeen({WaybillCol}, [WaybillCol]);
    assert {} + {WaybillCol} == {WaybillCol};
    assert DedupFrom({}, both) == [WaybillCol] + DedupFrom({} + {WaybillCol}, both[1..]);
  }

  /** As written, the rewritten header puts `运单号` first while the row still
      holds `W1` in its second cell: the row now reads `W1` under
      `转仓卡车单号`, the index holds `T1` instead of `W1`, and the
      dictionary for `W1` is appended as a second `W1` row. */
  lemma RewriteMisreadsRows(header0: seq<string>, rows0: seq<seq<string>>, dicts: seq<RowDict>)
    requires header0 == ExampleHeader && rows0 == ExampleRows && dicts == [ExampleDict]
    ensures var p := PlanUpsertAsWritten(header0, rows0, dicts);
      && p.rewriteHeader
      && p.rows == [["T1", "W1", "", "", ""]]
      && TruckCol in p.header && p.rows[0][IndexOf(p.header, TruckCol).value] == "W1"
      && p.index == map["T1" := 2]
      && p.updates == [] && p.appends == [RowValues(p.header, ExampleDict)]
  {
    var p := PlanUpsertAsWritten(header0, rows0, dicts);
    ExampleSanitized();
    ExampleHeaderPlanned();
    assert p.header == ExamplePlanned;
    ExamplePadded();
    assert p.rows == [["T1", "W1", "", "", ""]];
    ExampleMisreadIndex();
    assert p.index == map["T1" := 2];
    ExampleAppended();
  }

  lemma ExamplePadded()
    ensures PadRows(ExampleRows, |ExamplePlanned|) == [["T1", "W1", "", "", ""]]
    ensures IndexOf(ExamplePlanned, WaybillCol) == Some(0) && IndexOf(ExamplePlanned, TruckCol) == Some(1)
  {
    var rows := PadRows(ExampleRows, |ExamplePlanned|);
    assert rows[0] == ["T1", "W1", "", "", ""];
  }

  lemma ExampleMisreadIndex()
    ensures LastRows(WaybillColumn([["T1", "W1", "", "", ""]], Some(0))) == map["T1" := 2]
  {
    assert Strip("T1") == "T1";
    var wbs := WaybillColumn([["T1", "W1", "", "", ""]], Some(0));
    assert wbs == ["T1"];
    assert wbs[..0] == [];
  }

  lemma ExampleAppended()
    ensures Route(ExamplePlanned, map["T1" := 2], [ExampleDict]) == Routing([], [RowValues(ExamplePlanned, ExampleDict)])
  {
    assert Strip("W1") == "W1";
    assert DictWaybill(ExampleDict) == "W1";
    assert [ExampleDict][..0] == [];
  }

  /** With the rows moved under the new header, the row keeps `T1` under
      `转仓卡车单号` and `W1` under `运单号`, and the dictionary for `W1`
      updates row 2. */
  lemma RewriteKeepsRows(header0: seq<string>, rows0: seq<seq<string>>, dicts: seq<RowDict>)
    requires header0 == ExampleHeader && rows0 == ExampleRows && dicts == [ExampleDict]
    ensures var p := PlanUpsert(header0, rows0, dicts);
      && p.rewriteHeader
      && TruckCol in p.header && WaybillCol in p.header && |p.rows| == 1
      && p.rows[0][IndexOf(p.header, TruckCol).value] == "T1"
      && p.rows[0][IndexOf(p.header, WaybillCol).value] == "W1"
      && p.updates == [Update(2, RowValues(p.header, ExampleDict))] && p.appends == []
  {
    ExampleSanitized();
    ExampleHeaderPlanned();
    assert ExamplePlanned != ExampleHeader;
    ExampleKeptCells(header0, rows0, dicts);
    ExampleUpdated(header0, rows0, dicts);
  }

  lemma ExampleKeptCells(header0: seq<string>, rows0: seq<seq<string>>, dicts: seq<RowDict>)
    requires header0 == ExampleHeader && rows0 == ExampleRows && |dicts| == 1
    ensures var p := PlanUpsert(header0, rows0, dicts);
      && TruckCol in p.header && WaybillCol in p.header && |p.rows| == 1
      && p.rows[0][IndexOf(p.header, TruckCol).value] == "T1"
      && p.rows[0][IndexOf(p.header, WaybillCol).value] == "W1"
  {
    var cur := SanitizeHeader(StartHeader(header0));
    ExampleSanitized();
    assert cur == ExampleHeader;
    assert IndexOf(cur, TruckCol) == Some(0) && IndexOf(cur, WaybillCol) == Some(1);
    var rows := StartRows(header0, rows0);
    assert rows[0] == ["T1", "W1"];
    assert CellAt(rows[0], 0) == "T1" && CellAt(rows[0], 1) == "W1";
    CellsKeptByName(header0, rows0, dicts, 0, TruckCol);
    CellsKeptByName(header0, rows0, dicts, 0, WaybillCol);
  }

  lemma ExampleUpdated(header0: seq<string>, rows0: seq<seq<string>>, dicts: seq<RowDict>)
    requires header0 == ExampleHeader && rows0 == ExampleRows && dicts == [ExampleDict]
    ensures var p := PlanUpsert(header0, rows0, dicts);
      p.updates == [Update(2, RowValues(p.header, ExampleDict))] && p.appends == []
  {
    var p := PlanUpsert(header0, rows0, dicts);
    ExampleSanitized();
    ExampleSheetWaybills();
    assert IndexOf(header0, WaybillCol) == Some(1);
    IndexReadsSheet(header0, rows0, dicts);
    ExampleIndex(["W1"]);
    assert p.index == map["W1" := 2];
    ExampleRouted(p.header, p.index, dicts);
  }

  lemma ExampleIndex(wbs: seq<string>)
    requires wbs == ["W1"]
    ensures LastRows(wbs) == map["W1" := 2]
  {
    assert wbs[..0] == [];
  }

  lemma ExampleRouted(h: seq<string>, index: map<string, nat>, dicts: seq<RowDict>)
    requires index == map["W1" := 2] && dicts == [ExampleDict]
    ensures Route(h, index, dicts) == Routing([Update(2, RowValues(h, ExampleDict))], [])
  {
    assert Strip("W1") == "W1";
    assert DictWaybill(ExampleDict) == "W1";
    assert dicts[..0] == [];
  }

  lemma ExampleSheetWaybills()
    ensures WaybillColumn(ExampleRows, Some(1)) == ["W1"]
  {
    assert Strip("W1") == "W1";
  }
}
