/**
 * The two reference tables the delivery service reads: the item table
 * (item id and unit weight, in pounds) and the truck table (truck id and
 * weight capacity, in kilograms), each kept in the row order in which it
 * was loaded, together with the two row lookups the service performs on them.
 */
module Catalog {
  import opened Wrappers

  /** One row of the item table. `unitWeight` is the integer the service
      obtains from the row's weight column. */
  datatype Item = Item(itemId: string, unitWeight: int)

  /** One row of the truck table. */
  datatype Truck = Truck(truckId: int, capacity: int)

  /** Row `k` is the first row of the item table whose id is `id`. */
  predicate FirstItemAt(items: seq<Item>, id: string, k: nat)
  {
    && k < |items|
    && items[k].itemId == id
    && forall j | 0 <= j < k :: items[j].itemId != id
  }

  /** No row of the item table has id `id`. */
  predicate ItemMissing(items: seq<Item>, id: string)
  {
    forall j | 0 <= j < |items| :: items[j].itemId != id
  }

  /** Row `k` is the first row of the truck table whose capacity is at least `weight`. */
  predicate FirstFitAt(trucks: seq<Truck>, weight: int, k: nat)
  {
    && k < |trucks|
    && trucks[k].capacity >= weight
    && forall j | 0 <= j < k :: trucks[j].capacity < weight
  }

  /** No row of the truck table can carry `weight`. */
  predicate NoTruckFits(trucks: seq<Truck>, weight: int)
  {
    forall j | 0 <= j < |trucks| :: trucks[j].capacity < weight
  }

  /** The position of the first item row whose id equals `id`: the row the
      service selects by filtering on the id and taking the first value. */
  function FindItem(items: seq<Item>, id: string): (r: Option<nat>)
    ensures r.Some? ==> FirstItemAt(items, id, r.value)
    ensures r.None? <==> ItemMissing(items, id)
  {
    if items == [] then None
    else if items[0].itemId == id then Some(0)
    else match FindItem(items[1..], id)
      case None => None
      case Some(k) => Some(k + 1)
  }

  /** The position of the first truck row, in table order, whose capacity is
      at least `weight`: the row the service selects by filtering on capacity
      and taking the first row. The table is not sorted first. */
  function FirstFit(trucks: seq<Truck>, weight: int): (r: Option<nat>)
    ensures r.Some? ==> FirstFitAt(trucks, weight, r.value)
    ensures r.None? <==> NoTruckFits(trucks, weight)
  {
    if trucks == [] then None
    else if trucks[0].capacity >= weight then Some(0)
    else match FirstFit(trucks[1..], weight)
      case None => None
      case Some(k) => Some(k + 1)
  }

  /** The truck table lists capacities in ascending order, row after row. */
  predicate Ascending(trucks: seq<Truck>)
  {
    forall i | 0 <= i < |trucks| - 1 :: trucks[i].capacity <= trucks[i + 1].capacity
  }

  /** In an ascending table every later row has at least the capacity of an earlier one. */
  lemma {:induction false} AscendingPairwise(trucks: seq<Truck>, i: nat, j: nat)
    requires Ascending(trucks)
    requires i <= j < |trucks|
    ensures trucks[i].capacity <= trucks[j].capacity
  {
    if i < j {
      AscendingPairwise(trucks, i, j - 1);
    }
  }

  /** When capacities are ascending, the first sufficient truck is also a
      truck of smallest sufficient capacity. */
  lemma FirstFitIsSmallest(trucks: seq<Truck>, weight: int, k: nat)
    requires Ascending(trucks)
    requires FirstFitAt(trucks, weight, k)
    ensures forall j | 0 <= j < |trucks| && trucks[j].capacity >= weight ::
              trucks[k].capacity <= trucks[j].capacity
  {
    forall j | 0 <= j < |trucks| && trucks[j].capacity >= weight
      ensures trucks[k].capacity <= trucks[j].capacity
    {
      AscendingPairwise(trucks, k, j);
    }
  }

  /** Without ascending capacities the first sufficient truck need not be the
      smallest one: with capacities 100 then 40, a weight of 30 goes on the
      100 truck although the 40 truck suffices. */
  lemma FirstFitFollowsTableOrder()
    ensures FirstFit([Truck(1, 100), Truck(2, 40)], 30) == Some(0)
    ensures !Ascending([Truck(1, 100), Truck(2, 40)])
  {
    var trucks := [Truck(1, 100), Truck(2, 40)];
    assert trucks[0].capacity > trucks[0 + 1].capacity;
  }
}
