/** The pallet-binding page (apps/test1.py): box counts already bound to
    each waybill, the capacity check run when a pallet is bound, the records
    it stages, and how staged records are laid out for upload. */
module Binding {
  import opened Base
  import opened Text
  import opened Seqs
  import opened Table
  import opened Tally

  const BoxesCol := "箱数"
  const WarehouseCol := "仓库代码"

  /** Magnitude of a cell `digits[.digits]`; any other text is 0. */
  function Magnitude(s: string): (n: nat)
    ensures s == [] || !IsDigit(s[0]) ==> n == 0
  {
    var d := DigitRun(s);
    if d > 0 && (d == |s| || (s[d] == '.' && AllDigits(s[d + 1..]))) then DecimalValue(s[..d]) else 0
  }

  /** `int(pd.to_numeric(cell, errors="coerce"))` with NaN read as 0, for
      cells written `[+-]digits[.digits]`: the fraction is truncated toward
      zero, and text that is not a number counts as 0. */
  function ParseQty(cell: string): (q: int)
    ensures cell == [] || !(IsDigit(cell[0]) || cell[0] == '-' || cell[0] == '+') ==> q == 0
  {
    if cell != [] && cell[0] == '-' then -(Magnitude(cell[1..]) as int)
    else if cell != [] && cell[0] == '+' then Magnitude(cell[1..])
    else Magnitude(cell)
  }

  /** A whole number written out, with or without a fraction, reads back as
      itself; the fraction is dropped. */
  lemma ParseQtyRendered(n: nat, frac: string)
    requires AllDigits(frac)
    ensures ParseQty(NatToString(n)) == n
    ensures ParseQty("-" + NatToString(n)) == -(n as int)
    ensures ParseQty(NatToString(n) + "." + frac) == n
  {
    var s := NatToString(n);
    DecimalRoundTrip(n);
    DigitRunOf(s + ".", |s|);
    assert (s + ".")[..|s|] == s;
    assert DigitRun(s) == |s|;
    assert s[..|s|] == s;
    assert ("-" + s)[1..] == s;
    var t := s + "." + frac;
    assert t[..|s| + 1] == s + ".";
    DigitRunOf(t, |s|);
    assert t[..|s|] == s;
    assert t[|s| + 1..] == frac;
  }

  // ---- rows already uploaded to the pallet-detail sheet ----

  /** The warehouse filter of the upload loop: a row is compared only when
      the header has a warehouse column and the row reaches it. */
  predicate SameWarehouse(header: seq<string>, row: seq<string>, warehouse: string) {
    match IndexOf(header, WarehouseCol)
    case Some(w) => w < |row| ==> Strip(row[w]) == Strip(warehouse)
    case None => true
  }

  /** What one sheet row adds in the upload loop: nothing when it belongs
      to another warehouse, is too short for the waybill or box column, or
      has a blank waybill; otherwise its stripped waybill and its boxes. */
  function UploadedRow(header: seq<string>, wb: nat, q: nat, warehouse: string, row: seq<string>): Option<(string, int)> {
    if SameWarehouse(header, row, warehouse) && wb < |row| && q < |row| && Strip(row[wb]) != [] then
      Some((Strip(row[wb]), ParseQty(row[q])))
    else None
  }

  /** `load_uploaded_allocations`: box counts per waybill already uploaded
      for `warehouse`. Nothing when the sheet is empty or lacks the waybill or
      box column; otherwise every counted row contributes its boxes under its
      stripped waybill. */
  function LoadUploadedAllocations(values: seq<seq<string>>, warehouse: string): (m: map<string, int>)
    ensures values == [] || WaybillCol !in values[0] || BoxesCol !in values[0] ==> m == map[]
    ensures values != [] && WaybillCol in values[0] && BoxesCol in values[0] ==>
      var header := values[0];
      var f := row => UploadedRow(header, IndexOf(header, WaybillCol).value, IndexOf(header, BoxesCol).value, warehouse, row);
      && (forall k :: k in m <==> exists j :: 1 <= j < |values| && f(values[j]).Some? && f(values[j]).value.0 == k)
      && (forall k :: Get(m, k) == RowsTotal(values[1..], f, k))
  {
    if values == [] then map[]
    else
      var header := values[0];
      match (IndexOf(header, WaybillCol), IndexOf(header, BoxesCol))
      case (Some(wb), Some(q)) =>
        var rows := values[1..];
        var f := row => UploadedRow(header, wb, q, warehouse, row);
        assert forall j :: 1 <= j < |values| ==> values[j] == rows[j - 1];
        assert forall k :: (k in SumBy(Pairs(rows, f)) <==> exists j :: 0 <= j < |rows| && f(rows[j]).Some? && f(rows[j]).value.0 == k)
                           && Get(SumBy(Pairs(rows, f)), k) == RowsTotal(rows, f, k) by {
          forall k ensures (k in SumBy(Pairs(rows, f)) <==> exists j :: 0 <= j < |rows| && f(rows[j]).Some? && f(rows[j]).value.0 == k)
                           && Get(SumBy(Pairs(rows, f)), k) == RowsTotal(rows, f, k) {
            SumByPairs(rows, f, k);
          }
        }
        SumBy(Pairs(rows, f))
      case _ => map[]
  }

  // ---- the binding ----

  /** One line of the binding form: a waybill and the boxes put on the pallet. */
  datatype Entry = Entry(waybill: string, boxes: nat)

  /** A row of the filtered arrivals table the form offers. */
  datatype Candidate = Candidate(waybill: string, customerRef: string, eta: string, boxes: Option<int>)

  /** The pallet being bound, with its dimensions as entered. */
  datatype Pallet = Pallet(id: string, weight: string, length: string, width: string, height: string)

  /** A staged pallet-detail record. */
  datatype Record = Record(
    palletId: string, warehouse: string, waybill: string, customerRef: string, boxes: nat,
    weight: string, length: string, width: string, height: string, eta: string, kind: string)

  const MergedKind := "并板托盘"
  const SingleKind := "普通托盘"

  /** One row of the violation table. */
  datatype Violation = Violation(waybill: string, allowed: int, already: int, adding: int, overage: int)

  datatype Review = Review(violations: seq<Violation>, missing: seq<string>)

  datatype Outcome =
    | Rejected(violations: seq<Violation>, missing: seq<string>)
    | Staged(records: seq<Record>, missing: seq<string>)

  /** The waybill an entry is grouped under. */
  function EntryKey(e: Entry): string {
    Strip(e.waybill)
  }

  /** The form's entries as stripped-waybill/boxes pairs. */
  function EntryPairs(entries: seq<Entry>): (kvs: seq<(string, int)>)
    ensures |kvs| == |entries|
    ensures forall i :: 0 <= i < |kvs| ==> kvs[i] == (EntryKey(entries[i]), entries[i].boxes as int)
  {
    seq(|entries|, i requires 0 <= i < |entries| => (EntryKey(entries[i]), entries[i].boxes as int))
  }

  /** `allowed_map`: the first valid box count of each waybill in the filtered arrivals. */
  function AllowedMap(cands: seq<Candidate>): map<string, int> {
    FirstValues(seq(|cands|, i requires 0 <= i < |cands| => (cands[i].waybill, cands[i].boxes)))
  }

  /** What one staged record adds to `allocated_local`: nothing when it
      belongs to another warehouse or has a blank waybill. */
  function LocalRecord(warehouse: string, r: Record): Option<(string, int)> {
    if r.warehouse == warehouse && Strip(r.waybill) != [] then Some((Strip(r.waybill), r.boxes as int)) else None
  }

  /** `allocated_local`: boxes per waybill in the records staged for `warehouse`. */
  function LocalAllocations(staged: seq<Record>, warehouse: string): (m: map<string, int>)
    ensures forall k :: k in m <==> exists j :: 0 <= j < |staged| && staged[j].warehouse == warehouse && Strip(staged[j].waybill) == k && k != []
    ensures forall k :: Get(m, k) == RowsTotal(staged, r => LocalRecord(warehouse, r), k)
  {
    var f := r => LocalRecord(warehouse, r);
    LocalPairsSum(staged, warehouse, f);
    SumBy(Pairs(staged, f))
  }

  lemma LocalPairsSum(staged: seq<Record>, warehouse: string, f: Record -> Option<(string, int)>)
    requires forall r :: f(r) == LocalRecord(warehouse, r)
    ensures forall k :: k in SumBy(Pairs(staged, f)) <==>
              exists j :: 0 <= j < |staged| && staged[j].warehouse == warehouse && Strip(staged[j].waybill) == k && k != []
    ensures forall k :: Get(SumBy(Pairs(staged, f)), k) == RowsTotal(staged, f, k)
  {
    forall k ensures (k in SumBy(Pairs(staged, f)) <==> Contributes(staged, f, k))
                     && Get(SumBy(Pairs(staged, f)), k) == RowsTotal(staged, f, k) {
      SumByPairs(staged, f, k);
    }
  }

  /** `allocated_map`: uploaded plus locally staged boxes per waybill. */
  function AlreadyAllocated(uploaded: seq<seq<string>>, staged: seq<Record>, warehouse: string): map<string, int> {
    Merge(LoadUploadedAllocations(uploaded, warehouse), LocalAllocations(staged, warehouse))
  }

  /** A waybill whose capacity is known and would be exceeded. */
  predicate OverCapacity(w: string, adding: map<string, int>, allowed: map<string, int>, already: map<string, int>) {
    w in adding && w in allowed && Get(already, w) + adding[w] > allowed[w]
  }

  /** The row the violation table shows for such a waybill. */
  function ViolationOf(w: string, adding: map<string, int>, allowed: map<string, int>, already: map<string, int>): (v: Violation)
    requires w in adding && w in allowed
    ensures v.waybill == w && v.overage == v.already + v.adding - v.allowed
  {
    Violation(w, allowed[w], Get(already, w), adding[w], Get(already, w) + adding[w] - allowed[w])
  }

  /** The check loop over the grouped entries: waybills with no known
      capacity are listed as missing and never checked; the others are
      violations exactly when they would go over capacity. */
  function CheckCapacity(order: seq<string>, adding: map<string, int>, allowed: map<string, int>, already: map<string, int>): (rv: Review)
    requires forall i :: 0 <= i < |order| ==> order[i] in adding
    ensures forall w :: w in rv.missing <==> w in order && w !in allowed
    ensures forall v :: v in rv.violations ==>
              v.waybill in order && OverCapacity(v.waybill, adding, allowed, already)
              && v == ViolationOf(v.waybill, adding, allowed, already) && v.overage > 0
    ensures forall w :: w in order && OverCapacity(w, adding, allowed, already) ==>
              ViolationOf(w, adding, allowed, already) in rv.violations
    ensures |rv.violations| + |rv.missing| <= |order|
  {
    if order == [] then Review([], [])
    else
      var w := order[0];
      var rest := CheckCapacity(order[1..], adding, allowed, already);
      assert forall x :: x in order <==> x == w || x in order[1..];
      if w !in allowed then Review(rest.violations, [w] + rest.missing)
      else if OverCapacity(w, adding, allowed, already) then
        Review([ViolationOf(w, adding, allowed, already)] + rest.violations, rest.missing)
      else rest
  }

  /** The check loop on a single waybill: missing, one violation, or nothing. */
  lemma CheckCapacityOne(w: string, adding: map<string, int>, allowed: map<string, int>, already: map<string, int>)
    requires w in adding
    ensures CheckCapacity([w], adding, allowed, already) ==
              if w !in allowed then Review([], [w])
              else if OverCapacity(w, adding, allowed, already) then Review([ViolationOf(w, adding, allowed, already)], [])
              else Review([], [])
  {
    assert [w][1..] == [];
  }

  /** The check loop visits the grouped waybills in order: the violations and
      the missing list of a concatenation are those of its parts, one after
      the other, so each waybill appears at most once and in first-seen order. */
  lemma {:induction false} CheckCapacitySplit(a: seq<string>, b: seq<string>, adding: map<string, int>,
                                              allowed: map<string, int>, already: map<string, int>)
    requires forall i :: 0 <= i < |a| ==> a[i] in adding
    requires forall i :: 0 <= i < |b| ==> b[i] in adding
    ensures forall i :: 0 <= i < |a + b| ==> (a + b)[i] in adding
    ensures var ca := CheckCapacity(a, adding, allowed, already);
            var cb := CheckCapacity(b, adding, allowed, already);
            CheckCapacity(a + b, adding, allowed, already) == Review(ca.violations + cb.violations, ca.missing + cb.missing)
  {
    if a == [] {
      assert a + b == b;
      var cb := CheckCapacity(b, adding, allowed, already);
      assert [] + cb.violations == cb.violations && [] + cb.missing == cb.missing;
    } else {
      assert (a + b)[0] == a[0];
      assert (a + b)[1..] == a[1..] + b;
      CheckCapacitySplit(a[1..], b, adding, allowed, already);
      var w := a[0];
      var ca := CheckCapacity(a[1..], adding, allowed, already);
      var cb := CheckCapacity(b, adding, allowed, already);
      if w !in allowed {
        assert [w] + (ca.missing + cb.missing) == ([w] + ca.missing) + cb.missing;
      } else if OverCapacity(w, adding, allowed, already) {
        var v := ViolationOf(w, adding, allowed, already);
        assert [v] + (ca.violations + cb.violations) == ([v] + ca.violations) + cb.violations;
      }
    }
  }

  /** The waybills the form can offer: those of the filtered arrivals table. */
  function Offered(cands: seq<Candidate>): (ws: seq<string>)
    ensures |ws| == |cands| && forall i :: 0 <= i < |cands| ==> ws[i] == cands[i].waybill
  {
    seq(|cands|, i requires 0 <= i < |cands| => cands[i].waybill)
  }

  /** `filtered_df[filtered_df["运单号"] == wb].iloc[0]`. */
  function FirstCandidate(cands: seq<Candidate>, wb: string): (c: Candidate)
    requires wb in Offered(cands)
    ensures exists j :: 0 <= j < |cands| && cands[j] == c && c.waybill == wb && wb !in Offered(cands)[..j]
  {
    var j := IndexOf(Offered(cands), wb).value;
    cands[j]
  }

  function RecordOf(pallet: Pallet, warehouse: string, e: Entry, c: Candidate, kind: string): Record {
    Record(pallet.id, warehouse, e.waybill, c.customerRef, e.boxes,
           pallet.weight, pallet.length, pallet.width, pallet.height, c.eta, kind)
  }

  function RecordsOf(pallet: Pallet, warehouse: string, entries: seq<Entry>, cands: seq<Candidate>, kind: string): (rs: seq<Record>)
    requires forall i :: 0 <= i < |entries| ==> entries[i].waybill in Offered(cands)
    ensures |rs| == |entries|
    ensures forall i :: 0 <= i < |rs| ==> rs[i] == RecordOf(pallet, warehouse, entries[i], FirstCandidate(cands, entries[i].waybill), kind)
  {
    seq(|entries|, i requires 0 <= i < |entries| =>
      RecordOf(pallet, warehouse, entries[i], FirstCandidate(cands, entries[i].waybill), kind))
  }

  /** `grouped_entries`: the boxes of the binding summed per stripped waybill. */
  function Adding(entries: seq<Entry>): map<string, int> {
    SumBy(EntryPairs(entries))
  }

  /** The grouped waybills in first-seen order are the entries' waybills. */
  lemma GroupedOrder(entries: seq<Entry>)
    ensures forall w :: w in KeyOrder(EntryPairs(entries)) <==> exists i :: 0 <= i < |entries| && EntryKey(entries[i]) == w
    ensures forall i :: 0 <= i < |entries| ==> EntryKey(entries[i]) in Adding(entries)
  {
    var kvs := EntryPairs(entries);
    var order := KeyOrder(kvs);
    forall w ensures w in order <==> exists i :: 0 <= i < |entries| && EntryKey(entries[i]) == w {
      if w in order {
        var k :| 0 <= k < |order| && order[k] == w;
        var i :| 0 <= i < |kvs| && kvs[i].0 == order[k];
        assert EntryKey(entries[i]) == w;
      }
      if exists i :: 0 <= i < |entries| && EntryKey(entries[i]) == w {
        var i :| 0 <= i < |entries| && EntryKey(entries[i]) == w;
        assert kvs[i].0 == w;
      }
    }
    forall i | 0 <= i < |entries| ensures EntryKey(entries[i]) in Adding(entries) {
      assert kvs[i].0 == EntryKey(entries[i]);
    }
  }

  /** Steps 1-6 of the bind button: the violations and the waybills that
      could not be checked. A violation arises exactly for an entry whose
      waybill would go over its known capacity. */
  function ReviewBinding(warehouse: string, entries: seq<Entry>, cands: seq<Candidate>,
                         staged: seq<Record>, uploaded: seq<seq<string>>): (rv: Review)
    ensures rv.violations != [] <==>
              exists i :: 0 <= i < |entries|
                && OverCapacity(EntryKey(entries[i]), Adding(entries), AllowedMap(cands), AlreadyAllocated(uploaded, staged, warehouse))
    ensures forall w :: w in rv.missing <==>
              (exists i :: 0 <= i < |entries| && EntryKey(entries[i]) == w) && w !in AllowedMap(cands)
  {
    var already := AlreadyAllocated(uploaded, staged, warehouse);
    GroupedOrder(entries);
    var order := KeyOrder(EntryPairs(entries));
    var rv := CheckCapacity(order, Adding(entries), AllowedMap(cands), already);
    assert rv.violations != [] ==> rv.violations[0] in rv.violations;
    rv
  }

  /** The bind button: entries are grouped by stripped waybill and summed,
      checked against the arrivals capacity minus what is already allocated
      (uploaded and staged), and staged only when nothing goes over. */
  function Bind(pallet: Pallet, warehouse: string, entries: seq<Entry>, cands: seq<Candidate>,
                staged: seq<Record>, uploaded: seq<seq<string>>): (o: Outcome)
    requires forall i :: 0 <= i < |entries| ==> entries[i].waybill in Offered(cands)
    ensures o.Rejected? <==> ReviewBinding(warehouse, entries, cands, staged, uploaded).violations != []
    ensures o.missing == ReviewBinding(warehouse, entries, cands, staged, uploaded).missing
    ensures o.Rejected? ==> o.violations == ReviewBinding(warehouse, entries, cands, staged, uploaded).violations
    ensures o.Staged? ==>
              && |o.records| == |entries|
              && forall i :: 0 <= i < |entries| ==>
                   var r := o.records[i];
                   && r.palletId == pallet.id && r.warehouse == warehouse
                   && r.waybill == entries[i].waybill && r.boxes == entries[i].boxes
                   && (r.kind == MergedKind <==> |entries| > 1)
                   && (r.kind == SingleKind <==> |entries| <= 1)
                   && exists j :: 0 <= j < |cands| && cands[j].waybill == r.waybill && r.customerRef == cands[j].customerRef
                                  && r.eta == cands[j].eta && r.waybill !in Offered(cands)[..j]
    ensures o.Staged? ==>
              forall i :: 0 <= i < |entries| ==>
                var r := o.records[i];
                r.weight == pallet.weight && r.length == pallet.length
                && r.width == pallet.width && r.height == pallet.height
    ensures o.Staged? ==> o.records == RecordsOf(pallet, warehouse, entries, cands, if |entries| > 1 then MergedKind else SingleKind)
  {
    var rv := ReviewBinding(warehouse, entries, cands, staged, uploaded);
    if rv.violations != [] then
      Rejected(rv.violations, rv.missing)
    else
      var kind := if |entries| > 1 then MergedKind else SingleKind;
      Staged(RecordsOf(pallet, warehouse, entries, cands, kind), rv.missing)
  }

  /** Whatever gets staged keeps every waybill with a known capacity within
      it: already-allocated boxes plus all boxes this binding puts on the
      pallet for that waybill, duplicates included, do not exceed it. */
  lemma StagedWithinCapacity(pallet: Pallet, warehouse: string, entries: seq<Entry>, cands: seq<Candidate>,
                             staged: seq<Record>, uploaded: seq<seq<string>>, i: nat)
    requires forall i :: 0 <= i < |entries| ==> entries[i].waybill in Offered(cands)
    requires Bind(pallet, warehouse, entries, cands, staged, uploaded).Staged?
    requires i < |entries| && EntryKey(entries[i]) in AllowedMap(cands)
    ensures var w := EntryKey(entries[i]);
            Get(AlreadyAllocated(uploaded, staged, warehouse), w) + Total(EntryPairs(entries), w) <= AllowedMap(cands)[w]
  {
    var w := EntryKey(entries[i]);
    SumByTotal(EntryPairs(entries), w);
    GroupedOrder(entries);
  }

  /** Capacity 10 with 7 boxes already bound: adding 5 goes over by 2, and
      a waybill with no known capacity is listed instead of checked. */
  lemma CapacityExample()
    ensures CheckCapacity(["W1", "W2"], map["W1" := 5, "W2" := 1], map["W1" := 10], map["W1" := 7])
            == Review([Violation("W1", 10, 7, 5, 2)], ["W2"])
  {
    assert ["W1", "W2"][1..] == ["W2"] && ["W2"][1..] == [];
  }

  /** Two lines for the same waybill are checked together: 3 + 4 boxes
      against a capacity of 6 is refused with an overage of 1. */
  lemma DuplicatesCheckedTogether()
    ensures var cands := [Candidate("W1", "C1", "2025-01-02", Some(6))];
            var entries := [Entry("W1", 3), Entry("W1", 4)];
            && Offered(cands) == ["W1"]
            && Bind(Pallet("P", "0", "0", "0", "0"), "WH", entries, cands, [], [])
               == Rejected([Violation("W1", 6, 0, 7, 1)], [])
  {
    var cands := [Candidate("W1", "C1", "2025-01-02", Some(6))];
    var entries := [Entry("W1", 3), Entry("W1", 4)];
    ExampleGrouping(entries);
    ExampleAllowed(cands);
    ExampleNothingAllocated();
    var already: map<string, int> := map[];
    assert CheckCapacity(["W1"], map["W1" := 7], map["W1" := 6], already)
        == Review([Violation("W1", 6, 0, 7, 1)], []) by {
      assert ["W1"][1..] == [];
    }
  }

  lemma ExampleGrouping(entries: seq<Entry>)
    requires entries == [Entry("W1", 3), Entry("W1", 4)]
    ensures KeyOrder(EntryPairs(entries)) == ["W1"]
    ensures Adding(entries) == map["W1" := 7]
  {
    assert Strip("W1") == "W1";
    var kvs := EntryPairs(entries);
    assert kvs == [("W1", 3), ("W1", 4)];
    RepeatedKeyOnce(kvs);
    assert kvs[..1] == [("W1", 3)];
    assert SumBy(kvs[..1][..0]) == map[];
    assert SumBy(kvs[..1]) == map["W1" := 3];
    assert kvs[..|kvs| - 1] == kvs[..1];
    assert SumBy(kvs) == map["W1" := 7];
  }

  /** The second pair of a waybill adds nothing to the key order. */
  lemma RepeatedKeyOnce(kvs: seq<(string, int)>)
    requires kvs == [("W1", 3), ("W1", 4)]
    ensures KeyOrder(kvs) == ["W1"]
  {
    var none: seq<(string, int)> := [];
    var first := [("W1", 3)];
    KeyOrderEmpty();
    KeyOrderSnoc(none, ("W1", 3));
    assert none + [("W1", 3)] == first;
    assert KeyOrder(first) == ["W1"];
    KeyOrderSnoc(first, ("W1", 4));
    assert first[0].0 == "W1";
    assert first + [("W1", 4)] == kvs;
  }

  lemma ExampleAllowed(cands: seq<Candidate>)
    requires cands == [Candidate("W1", "C1", "2025-01-02", Some(6))]
    ensures AllowedMap(cands) == map["W1" := 6]
  {
    var vals := seq(|cands|, i requires 0 <= i < |cands| => (cands[i].waybill, cands[i].boxes));
    assert vals == [("W1", Some(6))];
    assert FirstValues(vals[..0]) == map[];
  }

  lemma ExampleNothingAllocated()
    ensures AlreadyAllocated([], [], "WH") == map[]
  {
    var f := r => LocalRecord("WH", r);
    assert Pairs([], f) == [];
  }

  // ---- upload of the staged records ----

  /** The upload frame's columns after the dimension columns are renamed. */
  const UploadColumns: seq<string> :=
    ["托盘号", "仓库代码", "运单号", "客户单号", "箱数", "托盘重量", "托盘长", "托盘宽", "托盘高", "ETA(到BCF)", "类型"]

  function RecordCells(r: Record): (cells: seq<string>)
    ensures |cells| == |UploadColumns|
  {
    [r.palletId, r.warehouse, r.waybill, r.customerRef, NatToString(r.boxes),
     r.weight, r.length, r.width, r.height, r.eta, r.kind]
  }

  function UploadFrame(records: seq<Record>): (f: Frame)
    ensures f.columns == UploadColumns && |f.rows| == |records|
    ensures forall i :: 0 <= i < |records| ==> f.rows[i] == RecordCells(records[i])
  {
    Frame(UploadColumns, seq(|records|, i requires 0 <= i < |records| => RecordCells(records[i])))
  }

  /** What the upload writes: the whole table into an empty sheet, or rows
      appended under the sheet's existing header. */
  datatype SheetWrite = Replace(values: seq<seq<string>>) | AppendRows(rows: seq<seq<string>>)

  /** The SUBMIT button: an empty sheet receives the frame's header and
      rows; otherwise each record is appended laid out under the existing
      header, in its order, `""` under columns the frame lacks. */
  function PlanUpload(existing: seq<seq<string>>, records: seq<Record>): (w: SheetWrite)
    ensures existing == [] ==> w == Replace([UploadColumns] + UploadFrame(records).rows)
    ensures existing != [] ==>
              && w.AppendRows? && |w.rows| == |records|
              && forall i :: 0 <= i < |records| ==>
                   && |w.rows[i]| == |existing[0]|
                   && forall j :: 0 <= j < |existing[0]| ==>
                        w.rows[i][j] == (match IndexOf(UploadColumns, existing[0][j])
                                         case Some(k) => RecordCells(records[i])[k]
                                         case None => "")
  {
    var frame := UploadFrame(records);
    if existing == [] then Replace([UploadColumns] + frame.rows)
    else AppendRows(AlignRows(existing[0], frame))
  }

  /** Appending under a header identical to the frame's columns writes each
      record's cells unchanged. */
  lemma UploadUnderSameHeader(existing: seq<seq<string>>, records: seq<Record>)
    requires existing != [] && existing[0] == UploadColumns
    ensures PlanUpload(existing, records) == AppendRows(seq(|records|, i requires 0 <= i < |records| => RecordCells(records[i])))
  {
    assert Distinct(UploadColumns);
    AlignToOwnHeader(UploadFrame(records));
  }
}
