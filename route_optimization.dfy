/**
 * The delivery-assignment endpoint: for each order of a request, the
 * shipping weight is the unit count times the unit weight of the order's
 * item, and the order is put on the first truck of the truck table that can
 * carry that weight. Results are appended in request order; a failing order
 * aborts the whole request. Weights (pounds) and capacities (kilograms) are
 * compared as raw numbers, with no unit conversion.
 */
module RouteOptimization {
  import opened Wrappers
  import opened Catalog

  /** One order of the request body: destination label, item id, unit count. */
  datatype Order = Order(destination: string, item: string, units: int)

  /** The request body; `orders` is None when the body has no "orders" key. */
  datatype Request = Request(orders: Option<seq<Order>>)

  /** One entry of the response: the chosen truck, the destination, the weight. */
  datatype Route = Route(truckId: int, destination: string, weight: int)

  /** Why a request fails. The service raises the same index error for both:
      an item id with no row in the item table, or a weight that no truck can carry. */
  datatype AssignError = UnknownItem(item: string) | NoTruck(weight: int)

  /** The orders a request carries; a missing "orders" key means none. */
  function Batch(request: Request): (orders: seq<Order>)
  {
    match request.orders
    case None => []
    case Some(os) => os
  }

  /** The shipping weight of `order` when its item's first table row is row `k`. */
  predicate WeighsWithRow(items: seq<Item>, order: Order, k: nat, weight: int)
  {
    FirstItemAt(items, order.item, k) && weight == order.units * items[k].unitWeight
  }

  /** What the service does with one order: look the item up, compute the
      weight, pick the first sufficient truck and build the entry. */
  function AssignOrder(items: seq<Item>, trucks: seq<Truck>, order: Order): (r: Result<Route, AssignError>)
  {
    match FindItem(items, order.item)
    case None => Failure(UnknownItem(order.item))
    case Some(k) =>
      var weight := order.units * items[k].unitWeight;
      match FirstFit(trucks, weight)
      case None => Failure(NoTruck(weight))
      case Some(t) => Success(Route(trucks[t].truckId, order.destination, weight))
  }

  /** One order fails as an unknown item, naming its own item, exactly when
      its item has no row. It succeeds exactly when its item has a row and
      some truck row can carry the unit count times the unit weight of the
      first such row; the entry then copies the destination, carries that
      weight and names the first truck row that can carry it. It fails as
      overweight with that weight only when no truck row can carry it. */
  lemma AssignOrderMeaning(items: seq<Item>, trucks: seq<Truck>, order: Order)
    ensures AssignOrder(items, trucks, order) == Failure(UnknownItem(order.item))
            <==> ItemMissing(items, order.item)
    ensures AssignOrder(items, trucks, order).Failure? && AssignOrder(items, trucks, order).error.UnknownItem? ==>
              AssignOrder(items, trucks, order).error == UnknownItem(order.item)
    ensures AssignOrder(items, trucks, order).Success?
            <==> exists k: nat :: FirstItemAt(items, order.item, k)
                                  && !NoTruckFits(trucks, order.units * items[k].unitWeight)
    ensures AssignOrder(items, trucks, order).Success? ==>
              var route := AssignOrder(items, trucks, order).value;
              && route.destination == order.destination
              && (exists k: nat :: WeighsWithRow(items, order, k, route.weight))
              && (exists t: nat :: FirstFitAt(trucks, route.weight, t) && trucks[t].truckId == route.truckId)
    ensures AssignOrder(items, trucks, order).Failure? && AssignOrder(items, trucks, order).error.NoTruck? ==>
              var weight := AssignOrder(items, trucks, order).error.weight;
              && (exists k: nat :: WeighsWithRow(items, order, k, weight))
              && NoTruckFits(trucks, weight)
  {
    var k := FindItem(items, order.item);
    if k.Some? {
      assert WeighsWithRow(items, order, k.value, order.units * items[k.value].unitWeight);
    }
  }

  /** The whole request, order by order: the orders before the last are
      handled first, and the last one only if all of them succeeded. */
  function Routes(items: seq<Item>, trucks: seq<Truck>, orders: seq<Order>): (r: Result<seq<Route>, AssignError>)
    decreases |orders|
  {
    if orders == [] then Success([])
    else
      var done := Routes(items, trucks, orders[..|orders| - 1]);
      if done.Failure? then done
      else match AssignOrder(items, trucks, orders[|orders| - 1])
        case Failure(e) => Failure(e)
        case Success(route) => Success(done.value + [route])
  }

  /** A successful request has exactly one entry per order, in order: entry
      `i` is the assignment of order `i`. */
  lemma {:induction false} RoutesOnePerOrder(items: seq<Item>, trucks: seq<Truck>, orders: seq<Order>)
    requires Routes(items, trucks, orders).Success?
    ensures |Routes(items, trucks, orders).value| == |orders|
    ensures forall i | 0 <= i < |orders| ::
              AssignOrder(items, trucks, orders[i]) == Success(Routes(items, trucks, orders).value[i])
  {
    if orders != [] {
      var last := |orders| - 1;
      var front := orders[..last];
      RoutesOnePerOrder(items, trucks, front);
      var earlier := Routes(items, trucks, front).value;
      var route := AssignOrder(items, trucks, orders[last]).value;
      assert Routes(items, trucks, orders).value == earlier + [route];
      forall i | 0 <= i < |orders|
        ensures AssignOrder(items, trucks, orders[i]) == Success((earlier + [route])[i])
      {
        if i < last {
          assert front[i] == orders[i];
        }
      }
    }
  }

  /** A request succeeds exactly when every one of its orders can be assigned. */
  lemma {:induction false} RoutesSucceedIffAllOrdersDo(items: seq<Item>, trucks: seq<Truck>, orders: seq<Order>)
    ensures Routes(items, trucks, orders).Success?
            <==> forall i | 0 <= i < |orders| :: AssignOrder(items, trucks, orders[i]).Success?
  {
    if orders != [] {
      var last := |orders| - 1;
      var front := orders[..last];
      RoutesSucceedIffAllOrdersDo(items, trucks, front);
      assert forall i | 0 <= i < last :: front[i] == orders[i];
      if Routes(items, trucks, orders).Success? {
        RoutesOnePerOrder(items, trucks, orders);
      }
    }
  }

  /** A failed request reports the error of an order all of whose
      predecessors could be assigned: the first order that fails. */
  lemma {:induction false} RoutesFailWithFirstFailure(items: seq<Item>, trucks: seq<Truck>, orders: seq<Order>)
    requires Routes(items, trucks, orders).Failure?
    ensures exists i | 0 <= i < |orders| ::
              && AssignOrder(items, trucks, orders[i]) == Failure(Routes(items, trucks, orders).error)
              && forall j | 0 <= j < i :: AssignOrder(items, trucks, orders[j]).Success?
  {
    var last := |orders| - 1;
    var front := orders[..last];
    assert forall j | 0 <= j < last :: front[j] == orders[j];
    if Routes(items, trucks, front).Failure? {
      RoutesFailWithFirstFailure(items, trucks, front);
      var i :| 0 <= i < |front|
               && AssignOrder(items, trucks, front[i]) == Failure(Routes(items, trucks, front).error)
               && forall j | 0 <= j < i :: AssignOrder(items, trucks, front[j]).Success?;
      assert AssignOrder(items, trucks, orders[i]) == Failure(Routes(items, trucks, orders).error);
    } else {
      RoutesOnePerOrder(items, trucks, front);
      assert AssignOrder(items, trucks, orders[last]) == Failure(Routes(items, trucks, orders).error);
    }
  }

  /** Once a prefix of the batch fails, every longer prefix fails with the
      same error: nothing after a failing order can produce a partial result. */
  lemma {:induction false} FailureAborts(items: seq<Item>, trucks: seq<Truck>, orders: seq<Order>, i: nat, n: nat)
    requires i <= n <= |orders|
    requires Routes(items, trucks, orders[..i]).Failure?
    ensures Routes(items, trucks, orders[..n]) == Routes(items, trucks, orders[..i])
  {
    if n > i {
      FailureAborts(items, trucks, orders, i, n - 1);
      assert orders[..n][..n - 1] == orders[..n - 1];
    }
  }

  /** The endpoint: loops over the request's orders, appending one entry per
      order, and returns either all entries or the first failure. */
  method OptimizeRoutes(items: seq<Item>, trucks: seq<Truck>, request: Request)
    returns (r: Result<seq<Route>, AssignError>)
    ensures r == Routes(items, trucks, Batch(request))
    ensures request.orders.None? ==> r == Success([])
  {
    var orders := Batch(request);
    var routes: seq<Route> := [];
    var i := 0;
    while i < |orders|
      invariant 0 <= i <= |orders|
      invariant Routes(items, trucks, orders[..i]) == Success(routes)
    {
      var order := orders[i];
      var destination := order.destination;
      var k := FindItem(items, order.item);
      if k.None? {
        assert orders[..i + 1][..i] == orders[..i];
        FailureAborts(items, trucks, orders, i + 1, |orders|);
        assert orders[..|orders|] == orders;
        return Failure(UnknownItem(order.item));
      }
      var weight := order.units * items[k.value].unitWeight;
      var t := FirstFit(trucks, weight);
      if t.None? {
        assert orders[..i + 1][..i] == orders[..i];
        FailureAborts(items, trucks, orders, i + 1, |orders|);
        assert orders[..|orders|] == orders;
        return Failure(NoTruck(weight));
      }
      routes := routes + [Route(trucks[t.value].truckId, destination, weight)];
      assert orders[..i + 1][..i] == orders[..i];
      i := i + 1;
    }
    assert orders[..i] == orders;
    r := Success(routes);
  }

  /** When capacities are ascending, the truck an order is put on has the
      smallest capacity among the trucks that can carry it. */
  lemma AssignOrderSmallestTruck(items: seq<Item>, trucks: seq<Truck>, order: Order)
    requires Ascending(trucks)
    requires AssignOrder(items, trucks, order).Success?
    ensures exists t: nat ::
              && FirstFitAt(trucks, AssignOrder(items, trucks, order).value.weight, t)
              && trucks[t].truckId == AssignOrder(items, trucks, order).value.truckId
              && forall j | 0 <= j < |trucks| && trucks[j].capacity >= AssignOrder(items, trucks, order).value.weight ::
                   trucks[t].capacity <= trucks[j].capacity
  {
    AssignOrderMeaning(items, trucks, order);
    var route := AssignOrder(items, trucks, order).value;
    var t: nat :| FirstFitAt(trucks, route.weight, t) && trucks[t].truckId == route.truckId;
    FirstFitIsSmallest(trucks, route.weight, t);
  }

  /** Every entry of a successful response names a truck of the table whose
      capacity is at least the entry's weight. */
  lemma {:induction false} RoutesRespectCapacity(items: seq<Item>, trucks: seq<Truck>, orders: seq<Order>, i: nat)
    requires Routes(items, trucks, orders).Success?
    requires i < |Routes(items, trucks, orders).value|
    ensures exists t: nat | t < |trucks| ::
              && trucks[t].truckId == Routes(items, trucks, orders).value[i].truckId
              && trucks[t].capacity >= Routes(items, trucks, orders).value[i].weight
  {
    RoutesOnePerOrder(items, trucks, orders);
    AssignOrderMeaning(items, trucks, orders[i]);
  }

  /** Ten units of an item weighing 5 weigh 50; the 40 truck cannot carry
      them and the 100 truck can, so the order goes on truck 2. */
  lemma ScenarioFirstSufficientTruck()
    ensures Routes([Item("A1", 5)], [Truck(1, 40), Truck(2, 100)], [Order("X", "A1", 10)])
            == Success([Route(2, "X", 50)])
  {
    var trucks := [Truck(1, 40), Truck(2, 100)];
    assert FindItem([Item("A1", 5)], "A1") == Some(0);
    assert FirstFit(trucks[1..], 50) == Some(0);
    assert FirstFit(trucks, 50) == Some(1);
    assert AssignOrder([Item("A1", 5)], trucks, Order("X", "A1", 10)) == Success(Route(2, "X", 50));
    var orders := [Order("X", "A1", 10)];
    assert orders[..0] == [];
    assert Routes([Item("A1", 5)], trucks, orders[..0]) == Success([]);
    assert [] + [Route(2, "X", 50)] == [Route(2, "X", 50)];
  }

  /** An order for an item missing from the item table fails the whole
      request, including the orders before it that could be served. */
  lemma ScenarioUnknownItemAbortsRequest()
    ensures Routes([Item("A1", 5)], [Truck(1, 40), Truck(2, 100)],
                   [Order("X", "A1", 1), Order("Y", "B7", 1), Order("Z", "A1", 2)])
            == Failure(UnknownItem("B7"))
  {
    var items := [Item("A1", 5)];
    var trucks := [Truck(1, 40), Truck(2, 100)];
    var orders := [Order("X", "A1", 1), Order("Y", "B7", 1), Order("Z", "A1", 2)];
    assert FindItem(items, "B7") == None;
    assert orders[..2][..1] == orders[..1];
    assert orders[..2][1] == Order("Y", "B7", 1);
    assert Routes(items, trucks, orders[..1]).Success? by {
      assert orders[..1][..0] == [];
      assert FindItem(items, "A1") == Some(0);
      assert FirstFit(trucks, 5) == Some(0);
    }
    FailureAborts(items, trucks, orders, 2, 3);
    assert orders[..3] == orders;
  }

  /** A weight above every capacity fails the request. */
  lemma ScenarioOverweightOrder()
    ensures Routes([Item("A1", 5)], [Truck(1, 40), Truck(2, 100)], [Order("X", "A1", 30)])
            == Failure(NoTruck(150))
  {
  }

  /** When the item table repeats an id, the first row's unit weight is used. */
  lemma ScenarioFirstItemRowWins()
    ensures Routes([Item("A1", 5), Item("A1", 7)], [Truck(1, 40), Truck(2, 100)], [Order("X", "A1", 7)])
            == Success([Route(1, "X", 35)])
  {
    assert FindItem([Item("A1", 5), Item("A1", 7)], "A1") == Some(0);
    assert FirstFit([Truck(1, 40), Truck(2, 100)], 35) == Some(0);
    assert AssignOrder([Item("A1", 5), Item("A1", 7)], [Truck(1, 40), Truck(2, 100)], Order("X", "A1", 7))
           == Success(Route(1, "X", 35));
    assert [Order("X", "A1", 7)][..0] == [];
    assert Routes([Item("A1", 5), Item("A1", 7)], [Truck(1, 40), Truck(2, 100)], []) == Success([]);
    assert [] + [Route(1, "X", 35)] == [Route(1, "X", 35)];
  }
}
