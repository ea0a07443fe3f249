/** Header clean-up and column aliases of the shipment summary page
    (apps/ship_summary_app.py): the arrivals sheet may name its columns in
    several ways, and every reading is brought to one set of names. */
module Columns {
  import opened Base
  import opened Text
  import opened Table

  const Nbsp: char := '\U{A0}'

  /** `s.replace(c, "")`. */
  function Without(s: string, c: char): (r: string)
    ensures |r| <= |s|
    ensures forall x :: x in r <==> x in s && x != c
    ensures c !in s ==> r == s
    decreases |s|
  {
    if s == [] then []
    else
      var rest := Without(s[1..], c);
      assert forall x :: x in s <==> x == s[0] || x in s[1..];
      if s[0] == c then rest else [s[0]] + rest
  }

  /** Removing a character works piece by piece: every other character
      keeps its place in the order. */
  lemma {:induction false} WithoutSplit(a: string, b: string, c: char)
    ensures Without(a + b, c) == Without(a, c) + Without(b, c)
    decreases |a|
  {
    if a == [] {
      assert a + b == b;
    } else {
      var ab := a + b;
      assert ab[0] == a[0] && ab[1..] == a[1..] + b;
      WithoutSplit(a[1..], b, c);
    }
  }

  /** A single character is dropped when it is `c` and kept otherwise. */
  lemma WithoutOne(x: char, c: char)
    ensures Without([x], c) == if x == c then [] else [x]
  {
    assert [x][1..] == [];
  }

  /** `_norm_cols` on one header cell: no-break spaces and line breaks are
      removed wherever they are, then the ends are stripped. */
  function NormCol(c: string): (r: string)
    ensures Stripped(r)
    ensures Nbsp !in r && '\n' !in r
    ensures forall x :: x in r ==> x in c
    ensures Stripped(c) && Nbsp !in c && '\n' !in c ==> r == c
  {
    var w := Without(Without(c, Nbsp), '\n');
    StripSlice(w);
    var a, b :| SpaceAround(w, Strip(w), a, b);
    assert forall x :: x in w[a..b] ==> x in w;
    Strip(w)
  }

  function NormCols(cols: seq<string>): (r: seq<string>)
    ensures |r| == |cols| && forall i :: 0 <= i < |cols| ==> r[i] == NormCol(cols[i])
  {
    seq(|cols|, i requires 0 <= i < |cols| => NormCol(cols[i]))
  }

  /** A header that went through `_norm_cols` comes out unchanged a second time. */
  lemma NormColIdempotent(c: string)
    ensures NormCol(NormCol(c)) == NormCol(c)
  {
  }

  lemma NormColsIdempotent(cols: seq<string>)
    ensures NormCols(NormCols(cols)) == NormCols(cols)
  {
    forall i | 0 <= i < |cols| ensures NormCol(NormCol(cols[i])) == NormCol(cols[i]) {
      NormColIdempotent(cols[i]);
    }
  }

  /** `_pick`: the first candidate, in candidate order, that the columns have. */
  function Pick(cols: seq<string>, candidates: seq<string>): (r: Option<string>)
    ensures r.None? <==> forall k :: 0 <= k < |candidates| ==> candidates[k] !in cols
    ensures r.Some? ==> exists k :: 0 <= k < |candidates| && FirstPresentAt(cols, candidates, k) && r.value == candidates[k]
    decreases |candidates|
  {
    if candidates == [] then None
    else if candidates[0] in cols then
      assert FirstPresentAt(cols, candidates, 0);
      Some(candidates[0])
    else
      var r := Pick(cols, candidates[1..]);
      assert forall k :: 0 < k < |candidates| ==> candidates[k] == candidates[1..][k - 1];
      if r.Some? then
        var k :| 0 <= k < |candidates[1..]| && FirstPresentAt(cols, candidates[1..], k) && r.value == candidates[1..][k];
        assert FirstPresentAt(cols, candidates, k + 1);
        r
      else r
  }

  /** `candidates[k]` is a column, and no earlier candidate is. */
  predicate FirstPresentAt(cols: seq<string>, candidates: seq<string>, k: int) {
    0 <= k < |candidates| && candidates[k] in cols && forall j :: 0 <= j < k ==> candidates[j] !in cols
  }

  /** Only one candidate can be the first present one. */
  lemma FirstPresentUnique(cols: seq<string>, candidates: seq<string>, k: int, l: int)
    requires FirstPresentAt(cols, candidates, k) && FirstPresentAt(cols, candidates, l)
    ensures k == l
  {
  }

  // ---- the arrivals sheet ----

  const WbAliases: seq<string> := ["运单号", "Waybill", "单号"]
  const WarehouseAliases: seq<string> := ["仓库代码", "仓库", "库"]
  const BoxAliases: seq<string> := ["箱数", "箱子数量", "箱子数"]
  const CbmAliases: seq<string> := ["体积", "CBM", "体积CBM"]
  const WeightAliases: seq<string> := ["收费重", "计费重", "重量", "收费重KG", "计费重KG"]

  /** What `str(pd.NA)` reads as once the waybill column is turned into text. */
  const NaText := "<NA>"

  /** One arrivals row under the canonical names 运单号, 仓库代码, 箱数, 体积 and
      收费重; `None` is the NA a missing column is filled with. */
  datatype Arrival = Arrival(
    waybill: string,
    warehouse: Option<string>,
    boxes: Option<string>,
    cbm: Option<string>,
    weight: Option<string>)

  /** The row's cell under the first alias the header has, or NA. */
  function Resolved(header: seq<string>, row: seq<string>, aliases: seq<string>): (r: Option<string>)
    ensures r.None? <==> forall k :: 0 <= k < |aliases| ==> aliases[k] !in header
    ensures r.Some? ==> exists k :: FirstPresentAt(header, aliases, k) && r.value == Lookup(header, row, aliases[k])
  {
    match Pick(header, aliases)
    case None => None
    case Some(c) => Some(Lookup(header, row, c))
  }

  /** A data row read under the cleaned header, each column under its
      canonical name; the waybill is stripped text. */
  function Project(header: seq<string>, row: seq<string>): (a: Arrival)
    ensures a.waybill == match Resolved(header, row, WbAliases)
              case Some(v) => Strip(v)
              case None => NaText
    ensures a.warehouse == Resolved(header, row, WarehouseAliases)
    ensures a.boxes == Resolved(header, row, BoxAliases)
    ensures a.cbm == Resolved(header, row, CbmAliases)
    ensures a.weight == Resolved(header, row, WeightAliases)
  {
    var wb := match Resolved(header, row, WbAliases)
      case Some(v) => Strip(v)
      case None => NaText;
    Arrival(wb, Resolved(header, row, WarehouseAliases), Resolved(header, row, BoxAliases),
            Resolved(header, row, CbmAliases), Resolved(header, row, WeightAliases))
  }

  /** `drop_duplicates(subset=[运单号])` over the rows after `seen`: the first
      row of every waybill not in `seen`, in order. */
  function FirstPerWaybill(seen: set<string>, rows: seq<Arrival>): (out: seq<Arrival>)
    ensures forall k :: 0 <= k < |out| ==> out[k] in rows && out[k].waybill !in seen
    ensures forall k, l :: 0 <= k < l < |out| ==> out[k].waybill != out[l].waybill
    decreases |rows|
  {
    if rows == [] then []
    else
      var w := rows[0].waybill;
      assert forall x :: x in rows[1..] ==> x in rows;
      if w in seen then FirstPerWaybill(seen, rows[1..])
      else [rows[0]] + FirstPerWaybill(seen + {w}, rows[1..])
  }

  /** Nothing is lost: the first row of every waybill not in `seen` is kept. */
  lemma {:induction false} FirstPerWaybillKeeps(seen: set<string>, rows: seq<Arrival>)
    ensures forall i :: FirstOfWaybill(rows, i) && rows[i].waybill !in seen ==> rows[i] in FirstPerWaybill(seen, rows)
    decreases |rows|
  {
    if rows != [] {
      var w := rows[0].waybill;
      var tail := rows[1..];
      var out := FirstPerWaybill(seen, rows);
      var seen' := if w in seen then seen else seen + {w};
      var rest := FirstPerWaybill(seen', tail);
      FirstPerWaybillKeeps(seen', tail);
      assert forall x :: x in rest ==> x in out;
      forall i | FirstOfWaybill(rows, i) && rows[i].waybill !in seen ensures rows[i] in out {
        if i > 0 {
          FirstInTail(rows, i);
          assert tail[i - 1] == rows[i];
        }
      }
    }
  }

  /** ... and so is every waybill not in `seen`. */
  lemma FirstPerWaybillCovers(seen: set<string>, rows: seq<Arrival>, i: int)
    requires 0 <= i < |rows| && rows[i].waybill !in seen
    ensures exists k :: 0 <= k < |FirstPerWaybill(seen, rows)| && FirstPerWaybill(seen, rows)[k].waybill == rows[i].waybill
  {
    var out := FirstPerWaybill(seen, rows);
    var f := FirstIndex(rows, i);
    FirstPerWaybillKeeps(seen, rows);
    assert rows[f] in out;
  }

  /** `rows[i]` is the first row carrying its waybill. */
  predicate FirstOfWaybill(rows: seq<Arrival>, i: int) {
    0 <= i < |rows| && forall j :: 0 <= j < i ==> rows[j].waybill != rows[i].waybill
  }

  /** A first-of-its-waybill row after the head is one of the tail too. */
  lemma FirstInTail(rows: seq<Arrival>, i: int)
    requires 0 < i && FirstOfWaybill(rows, i)
    ensures FirstOfWaybill(rows[1..], i - 1) && rows[i].waybill != rows[0].waybill
  {
    var tail := rows[1..];
    forall j | 0 <= j < i - 1 ensures tail[j].waybill != tail[i - 1].waybill {
      assert tail[j] == rows[j + 1];
    }
  }

  /** The rows `drop_duplicates` keeps are exactly the first row of each
      waybill: no kept row has an earlier row with its waybill. */
  lemma KeptRowsAreFirsts(rows: seq<Arrival>, k: int)
    requires 0 <= k < |FirstPerWaybill({}, rows)|
    ensures exists i :: FirstOfWaybill(rows, i) && rows[i] == FirstPerWaybill({}, rows)[k]
  {
    var out := FirstPerWaybill({}, rows);
    FirstPerWaybillKeeps({}, rows);
    var x := out[k];
    var i0 :| 0 <= i0 < |rows| && rows[i0] == x;
    var i := FirstIndex(rows, i0);
    assert rows[i] in out;
    var l :| 0 <= l < |out| && out[l] == rows[i];
    assert out[l].waybill == out[k].waybill;
  }

  /** The position of the first row with the waybill of `rows[i0]`. */
  function FirstIndex(rows: seq<Arrival>, i0: int): (i: int)
    requires 0 <= i0 < |rows|
    ensures FirstOfWaybill(rows, i) && i <= i0 && rows[i].waybill == rows[i0].waybill
    decreases i0
  {
    if exists j :: 0 <= j < i0 && rows[j].waybill == rows[i0].waybill then
      var j :| 0 <= j < i0 && rows[j].waybill == rows[i0].waybill;
      FirstIndex(rows, j)
    else i0
  }

  /** Every data row read under the cleaned header. */
  function ProjectAll(header: seq<string>, data: seq<seq<string>>): (rows: seq<Arrival>)
    ensures |rows| == |data| && forall i :: 0 <= i < |data| ==> rows[i] == Project(header, data[i])
  {
    seq(|data|, i requires 0 <= i < |data| => Project(header, data[i]))
  }

  /** `load_arrivals_df`: nothing for an empty sheet; otherwise the data rows
      under the cleaned header, projected to the canonical columns, the first
      row per waybill. */
  function LoadArrivals(data: seq<seq<string>>): (out: seq<Arrival>)
    ensures data == [] ==> out == []
    ensures forall k, l :: 0 <= k < l < |out| ==> out[k].waybill != out[l].waybill
    ensures data != [] ==>
              var rows := ProjectAll(NormCols(data[0]), data[1..]);
              && (forall k :: 0 <= k < |out| ==> out[k] in rows)
              && (forall i :: FirstOfWaybill(rows, i) ==> rows[i] in out)
              && (forall i :: 0 <= i < |rows| ==> exists k :: 0 <= k < |out| && out[k].waybill == rows[i].waybill)
  {
    if data == [] then []
    else
      var rows := ProjectAll(NormCols(data[0]), data[1..]);
      FirstPerWaybillKeeps({}, rows);
      forall i | 0 <= i < |rows|
        ensures exists k :: 0 <= k < |FirstPerWaybill({}, rows)| && FirstPerWaybill({}, rows)[k].waybill == rows[i].waybill
      {
        FirstPerWaybillCovers({}, rows, i);
      }
      FirstPerWaybill({}, rows)
  }

  /** Rows that all carry one waybill de-duplicate to the first of them. */
  lemma OneWaybillKeepsFirst(rows: seq<Arrival>, w: string)
    requires rows != []
    requires forall i :: 0 <= i < |rows| ==> rows[i].waybill == w
    ensures FirstPerWaybill({}, rows) == [rows[0]]
  {
    var tail := rows[1..];
    assert forall x :: x in tail ==> x.waybill == w;
  }

  /** Without any waybill alias in the header every row reads `<NA>` as its
      waybill, so the whole sheet collapses to its first data row. */
  lemma MissingWaybillKeepsOneRow(data: seq<seq<string>>)
    requires |data| >= 2
    requires forall k :: 0 <= k < |WbAliases| ==> WbAliases[k] !in NormCols(data[0])
    ensures LoadArrivals(data) == [Project(NormCols(data[0]), data[1])]
  {
    var rows := ProjectAll(NormCols(data[0]), data[1..]);
    forall i | 0 <= i < |rows| ensures rows[i].waybill == NaText {
    }
    OneWaybillKeepsFirst(rows, NaText);
  }

  /** A sheet whose header names the waybill `Waybill` and the weight `计费重`
      is read under 运单号 and 收费重. */
  lemma AliasesResolve(header: seq<string>, row: seq<string>)
    requires header == ["Waybill", "计费重"] && row == [" W1 ", "12"]
    ensures Project(header, row) == Arrival("W1", None, None, None, Some("12"))
  {
    PickWaybill(header);
    PickWeight(header);
    assert Lookup(header, row, "Waybill") == " W1 ";
    assert Lookup(header, row, "计费重") == "12" by {
      assert header[1] == "计费重" && header[0] != "计费重";
    }
    StripW1(" W1 ");
    UnlistedAliases(header, row);
  }

  lemma UnlistedAliases(header: seq<string>, row: seq<string>)
    requires header == ["Waybill", "计费重"]
    ensures Resolved(header, row, WarehouseAliases) == None
    ensures Resolved(header, row, BoxAliases) == None
    ensures Resolved(header, row, CbmAliases) == None
  {
    assert forall k :: 0 <= k < |WarehouseAliases| ==> WarehouseAliases[k] !in header;
    assert forall k :: 0 <= k < |BoxAliases| ==> BoxAliases[k] !in header;
    assert forall k :: 0 <= k < |CbmAliases| ==> CbmAliases[k] !in header;
  }

  lemma PickWaybill(header: seq<string>)
    requires header == ["Waybill", "计费重"]
    ensures Pick(header, WbAliases) == Some("Waybill")
  {
    assert "运单号" !in header;
  }

  lemma PickWeight(header: seq<string>)
    requires header == ["Waybill", "计费重"]
    ensures Pick(header, WeightAliases) == Some("计费重")
  {
    assert "收费重" !in header;
  }

  lemma StripW1(s: string)
    requires s == " W1 "
    ensures Strip(s) == "W1"
  {
    assert s[1..] == "W1 " && s[1..][..2] == "W1";
  }
}
