/** The pallet shipping page (apps/app2.py): the locked selection of pallets
    against the pallets still shown, and the per-pallet charge once a truck
    and its cost are entered. */
module PalletLock {
  import opened Base
  import opened CostSplit

  /** One row of the pallet table: its id, its weight cell, and the `选择`
      tick box when the table shows one. */
  datatype PalletRow = PalletRow(id: string, weight: Option<int>, choice: Option<bool>)

  /** `set(selected_pal["托盘号"].astype(str))`. */
  function LockedIds(locked: seq<PalletRow>): (ids: set<string>)
    ensures forall x :: x in ids <==> exists i :: 0 <= i < |locked| && locked[i].id == x
  {
    set i | 0 <= i < |locked| :: locked[i].id
  }

  /** The read-only table's version of a row: its tick box cleared. */
  function Unticked(p: PalletRow): PalletRow {
    p.(choice := if p.choice.Some? then Some(false) else None)
  }

  /** `others_df`: the shown pallets whose id is not locked, in order, with
      their tick boxes cleared. */
  function Others(locked: seq<PalletRow>, shown: seq<PalletRow>): (others: seq<PalletRow>)
    ensures |others| <= |shown|
    ensures forall p :: p in others ==> p.id !in LockedIds(locked) && p.choice != Some(true)
    ensures forall p :: p in others <==>
              exists i :: 0 <= i < |shown| && shown[i].id !in LockedIds(locked) && p == Unticked(shown[i])
    decreases |shown|
  {
    if shown == [] then []
    else
      var rest := Others(locked, shown[1..]);
      assert forall i :: 0 < i < |shown| ==> shown[i] == shown[1..][i - 1];
      assert forall i :: 0 <= i < |shown| - 1 ==> shown[1..][i] == shown[i + 1];
      if shown[0].id in LockedIds(locked) then rest else [Unticked(shown[0])] + rest
  }

  /** One shown pallet joins the table, unticked, exactly when it is not locked. */
  lemma OthersOne(locked: seq<PalletRow>, p: PalletRow)
    ensures Others(locked, [p]) == if p.id in LockedIds(locked) then [] else [Unticked(p)]
  {
    assert [p][1..] == [];
  }

  /** The table of a concatenation is the tables of its parts, one after the
      other: the shown order and repetitions are kept. */
  lemma {:induction false} OthersSplit(locked: seq<PalletRow>, a: seq<PalletRow>, b: seq<PalletRow>)
    ensures Others(locked, a + b) == Others(locked, a) + Others(locked, b)
    decreases |a|
  {
    if a != [] {
      assert (a + b)[0] == a[0];
      assert (a + b)[1..] == a[1..] + b;
      OthersSplit(locked, a[1..], b);
    } else {
      assert a + b == b;
    }
  }

  /** Every shown pallet is on exactly one side: locked (for the charge) or
      in the read-only table. */
  lemma PartitionOfShown(locked: seq<PalletRow>, shown: seq<PalletRow>, i: nat)
    requires i < |shown|
    ensures var others := Others(locked, shown);
      (exists j :: 0 <= j < |locked| && locked[j].id == shown[i].id) <==>
      (forall p :: p in others ==> p.id != shown[i].id)
  {
    var others := Others(locked, shown);
    if shown[i].id !in LockedIds(locked) {
      assert Unticked(shown[i]) in others;
    }
  }

  /** What the page uploads per locked pallet. */
  datatype Charge = Charge(pallet: string, truck: string, fee: int, total: int)

  function Weights(locked: seq<PalletRow>): (ws: seq<Option<int>>)
    ensures |ws| == |locked| && forall i :: 0 <= i < |locked| ==> ws[i] == locked[i].weight
  {
    seq(|locked|, i requires 0 <= i < |locked| => locked[i].weight)
  }

  function Fees(charges: seq<Charge>): (fees: seq<int>)
    ensures |fees| == |charges| && forall i :: 0 <= i < |charges| ==> fees[i] == charges[i].fee
  {
    seq(|charges|, i requires 0 <= i < |charges| => charges[i].fee)
  }

  /** From the empty-lock stop to the residual on the last pallet: nothing is
      charged for an empty lock, an empty truck number, a non-positive cost or
      a bad pallet weight; otherwise every locked pallet, in order, is
      charged under the truck, and the fees add up to the cost. */
  function ChargePallets(locked: seq<PalletRow>, truck: string, cost: int): (r: Result<seq<Charge>, Refusal>)
    ensures r == Err(NoSelection) <==> locked == []
    ensures r == Err(NoTruck) <==> locked != [] && truck == ""
    ensures r == Err(NoCost) <==> locked != [] && truck != "" && cost <= 0
    ensures r == Err(BadWeight) <==>
              locked != [] && truck != "" && cost > 0 && exists i :: 0 <= i < |locked| && !GoodWeight(locked[i].weight)
    ensures r.Ok? ==>
              && |r.value| == |locked|
              && (forall i :: 0 <= i < |locked| ==>
                    r.value[i].pallet == locked[i].id && r.value[i].truck == truck && r.value[i].total == cost)
              && Sum(Fees(r.value)) == cost
    ensures r.Ok? ==> SplitCost(truck, cost, Weights(locked)).Ok? && Fees(r.value) == SplitCost(truck, cost, Weights(locked)).value
  {
    var ws := Weights(locked);
    assert (exists i :: 0 <= i < |locked| && !GoodWeight(locked[i].weight)) <==>
           (exists i :: 0 <= i < |ws| && !GoodWeight(ws[i]));
    match SplitCost(truck, cost, ws)
    case Err(e) => Err(e)
    case Ok(fees) =>
      var charges := seq(|locked|, i requires 0 <= i < |locked| => Charge(locked[i].id, truck, fees[i], cost));
      assert Fees(charges) == fees;
      Ok(charges)
  }
}
