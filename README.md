# Delivery assignment: a verified model

This project models the delivery-assignment endpoint `optimize_routes` of the
route service. A request carries a batch of orders (destination, item id,
unit count). For each order, in request order, the service:

1. computes the shipping weight as the unit count times the unit weight of the
   **first** row of the item table whose id is the order's item;
2. picks the **first row of the truck table, in table order**, whose capacity
   is at least that weight (the table is not sorted);
3. appends `{truck id, destination, weight}` to the response.

If an order names an item that is not in the item table, or weighs more than
every truck can carry, the whole request fails and no partial list is
returned. A request without an `orders` key gets an empty list. Item weights
are in pounds and capacities in kilograms; the service compares the raw
numbers with no conversion, and so does the model.

The model follows the code, which promises less than "smallest sufficient
truck" and per-order error reporting would:

- the code does not sort the truck table, so the chosen truck is the first
  sufficient row in table order; when capacities ascend it is also a truck of
  smallest sufficient capacity (`FirstFitIsSmallest`), and without that
  hypothesis it need not be (`FirstFitFollowsTableOrder`);
- the code does not check that a unit count is positive, so any integer
  count is accepted: with a positive unit weight a negative count gives a
  negative weight, and that order then goes on the first truck row whose
  capacity is at least that negative weight;
- one failing order aborts the whole batch; no order is reported on its own.

Files:

- `wrappers.dfy`: `Option` and `Result`.
- `catalog.dfy` (module `Catalog`): the item and truck tables as sequences of
  rows in load order; the first-row item lookup `FindItem` and the first-fit
  truck choice `FirstFit`, each specified against an independent predicate
  (`FirstItemAt`/`ItemMissing`, `FirstFitAt`/`NoTruckFits`); the lemma that
  first fit is a smallest fit when capacities ascend, and a table without
  ascending capacities on which it is not.
- `route_optimization.dfy` (module `RouteOptimization`): orders, requests,
  response entries and failures; `AssignOrder` for one order and `Routes` for a
  whole request, with lemmas stating what they mean; `OptimizeRoutes`, the
  loop the endpoint runs, proved equal to `Routes`; lemmas on capacity,
  minimality and abort.

The tables are passed as read-only sequence arguments, so they cannot be
modified. Every operation is a function of the tables and the request, so the
same tables and batch always give the same response.

## Model

| member | source | states |
|---|---|---|
| `Catalog.FindItem` | route_optimization.py:29 | the result is the first item row whose id equals the order's item (no earlier row has that id); it is None exactly when no row has that id |
| `Catalog.FirstFit` | route_optimization.py:30 | the result is the earliest truck row, in table order, with capacity at least the weight (every earlier row is smaller); it is None exactly when no row can carry the weight |
| `Catalog.FirstFitIsSmallest` | route_optimization.py:30 | if capacities ascend row by row, the first sufficient truck has capacity no larger than any other sufficient truck |
| `Catalog.FirstFitFollowsTableOrder` | route_optimization.py:30 | with capacities 100 then 40 (not ascending), weight 30 goes on the first row, the larger truck |
| `RouteOptimization.Batch` | route_optimization.py:24 | the orders of the request, none when the body has no orders key; its meaning is given by the second ensures of `OptimizeRoutes` (a request without an orders key gives an empty list) |
| `RouteOptimization.AssignOrder` | route_optimization.py:28-36 | the handling of one order: item lookup, weight, first sufficient truck, entry; its meaning is stated by `AssignOrderMeaning` |
| `RouteOptimization.AssignOrderMeaning` | route_optimization.py:28-36 | one order fails with UnknownItem exactly when its item has no row, and an UnknownItem error always names the order's own item; it succeeds exactly when its item has a row and some truck row can carry units times the unit weight of the first such row; on success the destination is copied, the weight is that product, and the truck id is that of the first truck row that can carry it; it fails with NoTruck only with that weight and only when it exceeds every capacity |
| `RouteOptimization.Routes` | route_optimization.py:26-36 | the whole batch, order by order, stopping at the first failing order; its meaning is stated by `RoutesOnePerOrder`, `RoutesSucceedIffAllOrdersDo` and `RoutesFailWithFirstFailure` |
| `RouteOptimization.RoutesOnePerOrder` | route_optimization.py:26-36 | a successful request has exactly one entry per order, and entry i is the assignment of order i, so the input order is kept |
| `RouteOptimization.RoutesSucceedIffAllOrdersDo` | route_optimization.py:27-36 | a request succeeds if and only if every one of its orders can be assigned |
| `RouteOptimization.RoutesFailWithFirstFailure` | route_optimization.py:27-30 | a failed request carries the error of an order all of whose predecessors could be assigned, that is, the first failing order |
| `RouteOptimization.FailureAborts` | route_optimization.py:27-30 | once a prefix of the batch fails, every longer prefix fails with the same error, so no partial list survives a failing order |
| `RouteOptimization.OptimizeRoutes` | route_optimization.py:22-38 | the loop's result is exactly `Routes` of the request's orders; a request without an orders key gives an empty list |
| `RouteOptimization.AssignOrderSmallestTruck` | route_optimization.py:30 | with ascending capacities, an assigned order sits on a truck of smallest sufficient capacity |
| `RouteOptimization.RoutesRespectCapacity` | route_optimization.py:30-35 | every entry of a successful response names a truck row whose capacity is at least the entry's weight |
| `RouteOptimization.ScenarioFirstSufficientTruck` | route_optimization.py:26-36 | item A1 of weight 5, trucks of capacity 40 and 100, 10 units to X: weight 50 on truck 2 |
| `RouteOptimization.ScenarioUnknownItemAbortsRequest` | route_optimization.py:29 | an unknown item in the middle of the batch fails the request with UnknownItem, dropping the entries of the orders before it |
| `RouteOptimization.ScenarioOverweightOrder` | route_optimization.py:30 | a weight of 150 above both capacities fails the request with NoTruck(150) |
| `RouteOptimization.ScenarioFirstItemRowWins` | route_optimization.py:29 | when the item table repeats an id, the first row's unit weight is the one used |

## Left out

- The web framework: routing, JSON parsing of the request body and JSON encoding of the response (`jsonify`). The request is the typed `Request` value and the response the `Result` value.
- Loading of the item, order and truck tables from CSV and spreadsheet files at start-up: the tables are given as sequences. The loaded order table is never used by the endpoint and is not modelled.
- The graph object created at start-up: it is never used.
- Numeric conversions: `int(...)` of the unit-weight column (a float truncation) and of the unit count, and the int64 to int casts, are taken as already done; unit weights, unit counts and capacities are plain integers. A unit count that cannot be converted to an integer is not modelled.
- Missing fields in an order (a KeyError in the service) and an explicit null `orders` value: orders are typed records.
- The failure kinds: the service raises the same index error for an unknown item and for an overweight order, and the web framework turns it into an error response; the model names the two cases `UnknownItem` and `NoTruck`.
- The repository bootstrap script (git clone and pull, virtual environment, hook files, downloads) and the environment-variable set-up module: external tools and filesystem I/O with no decision logic.
