/** Rows as the spreadsheet returns them (lists of cells, possibly ragged)
    and the header-driven alignment every upload path performs. */
module Table {
  import opened Base
  import opened Seqs

  /** The waybill-number column every sheet of the system is keyed on. */
  const WaybillCol := "运单号"

  /** `list.index(x)`, with `None` standing for the `ValueError`. */
  function IndexOf<T(==)>(xs: seq<T>, x: T): (r: Option<nat>)
    ensures r.None? <==> x !in xs
    ensures r.Some? ==> r.value < |xs| && xs[r.value] == x && x !in xs[..r.value]
  {
    if xs == [] then None
    else if xs[0] == x then Some(0)
    else
      match IndexOf(xs[1..], x)
      case None => None
      case Some(i) =>
        assert xs[1..][..i] == xs[1..i + 1];
        Some(i + 1)
  }

  /** Cell `k` of a row, or `""` when the row is too short. */
  function CellAt(row: seq<string>, k: nat): string {
    if k < |row| then row[k] else ""
  }

  /** A DataFrame of text cells: named columns and positional rows. */
  datatype Frame = Frame(columns: seq<string>, rows: seq<seq<string>>)

  /** The value a row holds under column `name`, or `""` (the `fillna("")`
      of a column that `reindex` had to create). */
  function Lookup(columns: seq<string>, row: seq<string>, name: string): string {
    match IndexOf(columns, name)
    case Some(k) => CellAt(row, k)
    case None => ""
  }

  /** `tmp.reindex(columns=header).fillna("").values.tolist()`: every row laid
      out under `header`, in header order; missing columns become `""` and
      columns the header does not name are dropped. */
  function AlignRows(header: seq<string>, frame: Frame): (out: seq<seq<string>>)
    ensures |out| == |frame.rows|
    ensures forall i :: 0 <= i < |out| ==> |out[i]| == |header|
    ensures forall i, j :: 0 <= i < |out| && 0 <= j < |header| && header[j] !in frame.columns ==> out[i][j] == ""
    ensures forall i, j, k ::
              && 0 <= i < |out| && 0 <= j < |header| && 0 <= k < |frame.columns| && k < |frame.rows[i]|
              && frame.columns[k] == header[j] && header[j] !in frame.columns[..k]
              ==> out[i][j] == frame.rows[i][k]
  {
    seq(|frame.rows|, i requires 0 <= i < |frame.rows| =>
      seq(|header|, j requires 0 <= j < |header| => Lookup(frame.columns, frame.rows[i], header[j])))
  }

  /** `tmp[name] = value` for a column the frame does not have yet. */
  function AddColumn(frame: Frame, name: string, value: string): (f: Frame)
    requires forall i :: 0 <= i < |frame.rows| ==> |frame.rows[i]| == |frame.columns|
    ensures f.columns == frame.columns + [name]
    ensures |f.rows| == |frame.rows|
    ensures forall i :: 0 <= i < |f.rows| ==> f.rows[i] == frame.rows[i] + [value]
  {
    Frame(frame.columns + [name], seq(|frame.rows|, i requires 0 <= i < |frame.rows| => frame.rows[i] + [value]))
  }

  /** In a sequence without repeats, the position `list.index` finds is the only one. */
  lemma IndexOfDistinct<T>(xs: seq<T>, j: nat)
    requires Distinct(xs) && j < |xs|
    ensures IndexOf(xs, xs[j]) == Some(j)
  {
  }

  /** Laying a frame out under its own columns, when they have no repeats,
      gives back its rows. */
  lemma AlignToOwnHeader(frame: Frame)
    requires Distinct(frame.columns)
    requires forall i :: 0 <= i < |frame.rows| ==> |frame.rows[i]| == |frame.columns|
    ensures AlignRows(frame.columns, frame) == frame.rows
  {
    var out := AlignRows(frame.columns, frame);
    forall i | 0 <= i < |out| ensures out[i] == frame.rows[i] {
      forall j | 0 <= j < |frame.columns| ensures out[i][j] == frame.rows[i][j] {
        IndexOfDistinct(frame.columns, j);
      }
    }
  }
}
