/** The waybill shipping page (apps/app1.py): which waybills were already
    shipped, the rows it still offers, the uploaded fee columns and the
    append under the shipping-detail sheet's own header. */
module Shipping {
  import opened Base
  import opened Seqs
  import opened Text
  import opened Table

  const TruckCol := "卡车单号"
  const FeeCol := "分摊费用"
  const RatioCol := "分摊比例"
  const TotalCol := "总费用"
  const DateCol := "日期"

  // ---- already shipped waybills ----

  /** The waybills a run of data rows holds under column `idx`: cells that
      exist on the row and are not blank once stripped. */
  function Collect(rows: seq<seq<string>>, idx: nat): (out: set<string>)
    ensures forall wb :: wb in out <==>
              exists i :: 0 <= i < |rows| && idx < |rows[i]| && Strip(rows[i][idx]) == wb && wb != ""
    decreases |rows|
  {
    if rows == [] then {}
    else
      var init := rows[..|rows| - 1];
      var last := rows[|rows| - 1];
      var rest := Collect(init, idx);
      assert forall i :: 0 <= i < |init| ==> init[i] == rows[i];
      if idx < |last| && Strip(last[idx]) != "" then rest + {Strip(last[idx])} else rest
  }

  /** `load_shipped_waybills`: nothing when the sheet is missing, empty or has
      no `运单号` column; otherwise the stripped non-blank waybills found under
      the first `运单号` column. */
  function ShippedWaybills(sheet: Option<seq<seq<string>>>): (out: set<string>)
    ensures sheet.None? || sheet.value == [] || WaybillCol !in sheet.value[0] ==> out == {}
    ensures forall wb :: wb in out ==> wb != "" && Stripped(wb)
    ensures sheet.Some? && sheet.value != [] && WaybillCol in sheet.value[0] ==>
              var vals := sheet.value;
              var idx := IndexOf(vals[0], WaybillCol).value;
              forall wb :: wb in out <==>
                exists i :: 1 <= i < |vals| && idx < |vals[i]| && Strip(vals[i][idx]) == wb && wb != ""
  {
    match sheet
    case None => {}
    case Some(vals) =>
      if vals == [] then {}
      else
        match IndexOf(vals[0], WaybillCol)
        case None => {}
        case Some(idx) =>
          var rows := vals[1..];
          var out := Collect(rows, idx);
          assert forall i :: 0 <= i < |rows| ==> rows[i] == vals[i + 1];
          assert forall wb :: wb in out ==>
            exists i :: 0 <= i < |rows| && idx < |rows[i]| && Strip(rows[i][idx]) == wb;
          out
  }

  // ---- the offered rows ----

  /** The rows whose `运单号` is not one of `shipped`, in their order. */
  function Unshipped(columns: seq<string>, rows: seq<seq<string>>, shipped: set<string>): (kept: seq<seq<string>>)
    ensures |kept| <= |rows|
    ensures forall r :: r in kept <==> r in rows && Lookup(columns, r, WaybillCol) !in shipped
    decreases |rows|
  {
    if rows == [] then []
    else
      var rest := Unshipped(columns, rows[1..], shipped);
      assert forall r :: r in rows <==> r == rows[0] || r in rows[1..];
      if Lookup(columns, rows[0], WaybillCol) in shipped then rest else [rows[0]] + rest
  }

  /** One row is kept exactly when its waybill is not shipped. */
  lemma UnshippedOne(columns: seq<string>, r: seq<string>, shipped: set<string>)
    ensures Unshipped(columns, [r], shipped) == if Lookup(columns, r, WaybillCol) in shipped then [] else [r]
  {
    assert [r][1..] == [];
  }

  /** Filtering a concatenation is filtering each part: the kept rows keep
      their order and their repetitions. */
  lemma {:induction false} UnshippedSplit(columns: seq<string>, a: seq<seq<string>>, b: seq<seq<string>>, shipped: set<string>)
    ensures Unshipped(columns, a + b, shipped) == Unshipped(columns, a, shipped) + Unshipped(columns, b, shipped)
    decreases |a|
  {
    if a != [] {
      var ab := a + b;
      assert ab != [] && ab[0] == a[0] && ab[1..] == a[1..] + b;
      UnshippedSplit(columns, a[1..], b, shipped);
      var rest := Unshipped(columns, ab[1..], shipped);
      assert Unshipped(columns, ab, shipped) ==
             if Lookup(columns, a[0], WaybillCol) in shipped then rest else [a[0]] + rest;
      assert Unshipped(columns, a, shipped) ==
             if Lookup(columns, a[0], WaybillCol) in shipped then Unshipped(columns, a[1..], shipped)
             else [a[0]] + Unshipped(columns, a[1..], shipped);
    } else {
      assert a + b == b;
    }
  }

  /** `if already: merged = merged[~merged["运单号"].isin(already)]`. */
  function Offered(merged: Frame, already: set<string>): (f: Frame)
    ensures f.columns == merged.columns
  {
    if already != {} then Frame(merged.columns, Unshipped(merged.columns, merged.rows, already))
    else merged
  }

  /** The `if already` guard only saves work: filtering by an empty set keeps
      every row. */
  lemma {:induction false} UnshippedNone(columns: seq<string>, rows: seq<seq<string>>)
    ensures Unshipped(columns, rows, {}) == rows
    decreases |rows|
  {
    if rows != [] {
      UnshippedNone(columns, rows[1..]);
    }
  }

  /** The page offers exactly the merged rows not yet on the shipping sheet. */
  lemma OfferedMeaning(merged: Frame, already: set<string>)
    ensures forall r :: r in Offered(merged, already).rows <==>
              r in merged.rows && Lookup(merged.columns, r, WaybillCol) !in already
  {
    if already == {} {
      UnshippedNone(merged.columns, merged.rows);
    }
  }

  /** Filtering twice by the same set is filtering once. */
  lemma {:induction false} UnshippedIdempotent(columns: seq<string>, rows: seq<seq<string>>, shipped: set<string>)
    ensures Unshipped(columns, Unshipped(columns, rows, shipped), shipped) == Unshipped(columns, rows, shipped)
    decreases |rows|
  {
    if rows != [] {
      UnshippedIdempotent(columns, rows[1..], shipped);
    }
  }

  // ---- the upload frame ----

  /** `f"{x:.2f}"` of an amount held in cents. */
  function CentsText(c: int): (s: string)
    ensures |s| >= 4 && s[|s| - 3] == '.'
  {
    if c < 0 then "-" + AmountText(-c) else AmountText(c)
  }

  /** A non-negative amount of cents as units, a point and two digits. */
  function AmountText(m: nat): (s: string)
    ensures |s| >= 4 && s[|s| - 3] == '.' && s[0] != '-'
  {
    NatToString(m / 100) + "." + [DigitChar(m % 100 / 10), DigitChar(m % 10)]
  }

  /** Reads back a `CentsText`: an optional minus, then an amount. */
  function ParseCents(s: string): (r: Option<int>)
  {
    if s != [] && s[0] == '-' then
      match ParseAmount(s[1..])
      case Some(m) => Some(0 - m as int)
      case None => None
    else ParseAmount(s)
  }

  /** Digits, a point and two digits, read as cents. */
  function ParseAmount(s: string): (r: Option<nat>)
  {
    if |s| < 4 || s[|s| - 3] != '.' then None
    else
      var whole := s[..|s| - 3];
      var frac := s[|s| - 2..];
      if !AllDigits(whole) || !AllDigits(frac) then None
      else Some(DecimalValue(whole) * 100 + DigitValue(frac[0]) * 10 + DigitValue(frac[1]))
  }

  lemma AmountRoundTrip(m: nat)
    ensures ParseAmount(AmountText(m)) == Some(m)
  {
    var w := NatToString(m / 100);
    var s := AmountText(m);
    DecimalRoundTrip(m / 100);
    assert s[..|s| - 3] == w;
    assert s[|s| - 2..] == [DigitChar(m % 100 / 10), DigitChar(m % 10)];
    assert m == m / 100 * 100 + m % 100 / 10 * 10 + m % 10;
  }

  /** The fee text written to the sheet reads back as the same number of cents. */
  lemma CentsRoundTrip(c: int)
    ensures ParseCents(CentsText(c)) == Some(c)
  {
    if c < 0 {
      var m: nat := -c;
      var s := "-" + AmountText(m);
      AmountRoundTrip(m);
      assert s != [] && s[0] == '-' && s[1..] == AmountText(m);
      assert ParseCents(s) == Some(0 - m as int);
    } else {
      AmountRoundTrip(c);
    }
  }

  /** `frame[name] = values`: the column is overwritten in place when the
      frame has it and added at the end otherwise. */
  function SetColumn(frame: Frame, name: string, values: seq<string>): (f: Frame)
    requires |values| == |frame.rows|
    requires forall i :: 0 <= i < |frame.rows| ==> |frame.rows[i]| == |frame.columns|
    ensures |f.rows| == |frame.rows|
    ensures forall i :: 0 <= i < |f.rows| ==> |f.rows[i]| == |f.columns|
    ensures Elems(f.columns) == Elems(frame.columns) + {name}
    ensures forall i :: 0 <= i < |f.rows| ==> Lookup(f.columns, f.rows[i], name) == values[i]
    ensures forall i, c :: 0 <= i < |f.rows| && c != name ==>
              Lookup(f.columns, f.rows[i], c) == Lookup(frame.columns, frame.rows[i], c)
  {
    match IndexOf(frame.columns, name)
    case Some(k) =>
      Frame(frame.columns, seq(|frame.rows|, i requires 0 <= i < |frame.rows| => frame.rows[i][k := values[i]]))
    case None =>
      var cols := frame.columns + [name];
      var rows := seq(|frame.rows|, i requires 0 <= i < |frame.rows| => frame.rows[i] + [values[i]]);
      forall i, c | 0 <= i < |rows| && c != name
        ensures Lookup(cols, rows[i], c) == Lookup(frame.columns, frame.rows[i], c)
      {
        IndexOfSnoc(frame.columns, name, c);
      }
      IndexOfSnoc(frame.columns, name, name);
      Frame(cols, rows)
  }

  /** Appending a column leaves the positions of the existing names alone. */
  lemma {:induction false} IndexOfSnoc(xs: seq<string>, y: string, x: string)
    ensures IndexOf(xs + [y], x) == if x in xs then IndexOf(xs, x) else if x == y then Some(|xs|) else None
    decreases |xs|
  {
    if xs != [] {
      assert (xs + [y])[1..] == xs[1..] + [y];
      IndexOfSnoc(xs[1..], y, x);
    }
  }

  /** The selected rows with each row's ratio (as display text) and fee. */
  function WithShares(selected: Frame, ratios: seq<string>, fees: seq<int>): (f: Frame)
    requires |ratios| == |fees| == |selected.rows|
    requires forall i :: 0 <= i < |selected.rows| ==> |selected.rows[i]| == |selected.columns|
    ensures |f.rows| == |selected.rows|
    ensures forall i :: 0 <= i < |f.rows| ==> |f.rows[i]| == |f.columns|
    ensures Elems(f.columns) == Elems(selected.columns) + {RatioCol, FeeCol}
    ensures forall i :: 0 <= i < |f.rows| ==>
              && Lookup(f.columns, f.rows[i], RatioCol) == ratios[i]
              && Lookup(f.columns, f.rows[i], FeeCol) == CentsText(fees[i])
    ensures forall i, c :: 0 <= i < |f.rows| && c != RatioCol && c != FeeCol ==>
              Lookup(f.columns, f.rows[i], c) == Lookup(selected.columns, selected.rows[i], c)
  {
    var n := |selected.rows|;
    var withRatio := SetColumn(selected, RatioCol, ratios);
    SetColumn(withRatio, FeeCol, seq(n, i requires 0 <= i < n => CentsText(fees[i])))
  }

  /** A frame with the truck number and the truck's total on every row. */
  function WithTruck(frame: Frame, truck: string, cost: int): (f: Frame)
    requires forall i :: 0 <= i < |frame.rows| ==> |frame.rows[i]| == |frame.columns|
    ensures |f.rows| == |frame.rows|
    ensures forall i :: 0 <= i < |f.rows| ==> |f.rows[i]| == |f.columns|
    ensures Elems(f.columns) == Elems(frame.columns) + {TruckCol, TotalCol}
    ensures forall i :: 0 <= i < |f.rows| ==>
              && Lookup(f.columns, f.rows[i], TruckCol) == truck
              && Lookup(f.columns, f.rows[i], TotalCol) == CentsText(cost)
    ensures forall i, c :: 0 <= i < |f.rows| && c != TruckCol && c != TotalCol ==>
              Lookup(f.columns, f.rows[i], c) == Lookup(frame.columns, frame.rows[i], c)
  {
    var n := |frame.rows|;
    var withTruck := SetColumn(frame, TruckCol, seq(n, _ => truck));
    SetColumn(withTruck, TotalCol, seq(n, _ => CentsText(cost)))
  }

  /** `out_df`: the selected rows with each row's ratio (as display text)
      and fee, the truck number and the truck's total written in. */
  function OutFrame(selected: Frame, ratios: seq<string>, fees: seq<int>, truck: string, cost: int): (f: Frame)
    requires |ratios| == |fees| == |selected.rows|
    requires forall i :: 0 <= i < |selected.rows| ==> |selected.rows[i]| == |selected.columns|
    ensures |f.rows| == |selected.rows|
    ensures forall i :: 0 <= i < |f.rows| ==> |f.rows[i]| == |f.columns|
    ensures Elems(f.columns) == Elems(selected.columns) + {RatioCol, FeeCol, TruckCol, TotalCol}
    ensures forall i :: 0 <= i < |f.rows| ==>
              && Lookup(f.columns, f.rows[i], RatioCol) == ratios[i]
              && Lookup(f.columns, f.rows[i], FeeCol) == CentsText(fees[i])
              && Lookup(f.columns, f.rows[i], TruckCol) == truck
              && Lookup(f.columns, f.rows[i], TotalCol) == CentsText(cost)
    ensures forall i, c :: 0 <= i < |f.rows| && c != RatioCol && c != FeeCol && c != TruckCol && c != TotalCol ==>
              Lookup(f.columns, f.rows[i], c) == Lookup(selected.columns, selected.rows[i], c)
  {
    var shares := WithShares(selected, ratios, fees);
    var f := WithTruck(shares, truck, cost);
    assert RatioCol != TruckCol && RatioCol != TotalCol && FeeCol != TruckCol && FeeCol != TotalCol;
    f
  }

  // ---- the append ----

  /** Why the append stops. */
  datatype AppendError =
    | NoSheet      // the shipping-detail sheet does not exist
    | NoHeader     // the sheet is empty, so there is no header to follow

  /** The rows appended under the sheet's existing header: every header
      column is filled from the frame's column of that name or left `""`,
      `日期` gets `today` when the header asks for it and the frame has no
      such column, and the header row itself is never written. */
  function AppendRows(sheet: Option<seq<seq<string>>>, out: Frame, today: string): (r: Result<seq<seq<string>>, AppendError>)
    requires forall i :: 0 <= i < |out.rows| ==> |out.rows[i]| == |out.columns|
    ensures r == Err(NoSheet) <==> sheet.None?
    ensures r == Err(NoHeader) <==> sheet == Some([])
    ensures r.Ok? ==> |r.value| == |out.rows|
    ensures r.Ok? ==>
              var header := sheet.value[0];
              forall i, j :: 0 <= i < |r.value| && 0 <= j < |header| ==>
                |r.value[i]| == |header| &&
                r.value[i][j] == (if header[j] == DateCol && DateCol !in out.columns then today
                                  else Lookup(out.columns, out.rows[i], header[j]))
  {
    match sheet
    case None => Err(NoSheet)
    case Some(existing) =>
      if existing == [] then Err(NoHeader)
      else
        var header := existing[0];
        var tmp := if DateCol in header && DateCol !in out.columns then AddDate(out, today) else out;
        var rows := AlignRows(header, tmp);
        assert forall i, j :: 0 <= i < |rows| && 0 <= j < |header| ==>
          rows[i][j] == Lookup(tmp.columns, tmp.rows[i], header[j]);
        Ok(rows)
  }

  /** `tmp["日期"] = today` on a frame without that column. */
  function AddDate(out: Frame, today: string): (f: Frame)
    requires forall i :: 0 <= i < |out.rows| ==> |out.rows[i]| == |out.columns|
    requires DateCol !in out.columns
    ensures |f.rows| == |out.rows|
    ensures forall i, c :: 0 <= i < |f.rows| ==>
              Lookup(f.columns, f.rows[i], c) == if c == DateCol then today else Lookup(out.columns, out.rows[i], c)
  {
    var f := AddColumn(out, DateCol, today);
    forall i, c | 0 <= i < |f.rows|
      ensures Lookup(f.columns, f.rows[i], c) == if c == DateCol then today else Lookup(out.columns, out.rows[i], c)
    {
      IndexOfSnoc(out.columns, DateCol, c);
    }
    f
  }

  /** Every appended row carries the truck number, its fee and the total
      under the header's columns of those names. */
  lemma AppendedRowsCarryCharges(sheet: Option<seq<seq<string>>>, selected: Frame, ratios: seq<string>,
                                 fees: seq<int>, truck: string, cost: int, today: string)
    requires |ratios| == |fees| == |selected.rows|
    requires forall i :: 0 <= i < |selected.rows| ==> |selected.rows[i]| == |selected.columns|
    requires AppendRows(sheet, OutFrame(selected, ratios, fees, truck, cost), today).Ok?
    ensures var rows := AppendRows(sheet, OutFrame(selected, ratios, fees, truck, cost), today).value;
      var header := sheet.value[0];
      |rows| == |selected.rows| &&
      forall i, j :: 0 <= i < |rows| && 0 <= j < |header| ==>
        (header[j] == TruckCol ==> rows[i][j] == truck) &&
        (header[j] == FeeCol ==> rows[i][j] == CentsText(fees[i])) &&
        (header[j] == TotalCol ==> rows[i][j] == CentsText(cost))
  {
  }

  /** Under a header that is exactly the frame's own columns, without
      repeats, the append writes the frame's rows as they are. */
  lemma AppendUnderOwnHeader(out: Frame, today: string)
    requires forall i :: 0 <= i < |out.rows| ==> |out.rows[i]| == |out.columns|
    requires Distinct(out.columns)
    ensures AppendRows(Some([out.columns]), out, today) == Ok(out.rows)
  {
    AlignToOwnHeader(out);
  }
}
