/** The handlers of server.js that change the database, over an in-memory
    store: one field per table, and one counter per AUTO_INCREMENT id. */
module Shop {
  import opened Common
  import opened Catalog
  import opened Orders
  import opened Delivery

  class Store {
    var products: map<nat, Product>
    var orders: map<nat, Order>
    var orderItems: seq<OrderItem>
    var tasks: map<nat, DeliveryTask>
    var nextProductId: nat
    var nextOrderId: nat
    var nextTaskId: nat

    /** Ids come from the AUTO_INCREMENT counters (which start at 1), and every
        order item belongs to an order that exists. */
    ghost predicate Valid()
      reads this
    {
      && 0 < nextProductId && 0 < nextOrderId && 0 < nextTaskId
      && (forall id :: id in products ==> id < nextProductId)
      && (forall id :: id in orders ==> id < nextOrderId)
      && (forall id :: id in tasks ==> id < nextTaskId)
      && (forall i :: 0 <= i < |orderItems| ==> orderItems[i].orderId in orders)
    }

    constructor ()
      ensures Valid()
      ensures products == map[] && orders == map[] && orderItems == [] && tasks == map[]
    {
      products, orders, orderItems, tasks := map[], map[], [], map[];
      nextProductId, nextOrderId, nextTaskId := 1, 1, 1;
    }

    /** `POST /api/products`: insert the row (with `/api/products/image/` as a
        placeholder URL when an image came), then point the URL at the new id. */
    method CreateProduct(name: string, price: int, stock: int, description: Option<string>,
                         category: Option<string>, uom: Option<string>, image: Option<Upload>)
      returns (id: nat)
      requires Valid()
      modifies this
      ensures Valid()
      ensures id == old(nextProductId) && id !in old(products)
      ensures products == old(products)[id := NewProduct(id, name, price, stock, description, category, uom, image)]
      ensures nextProductId == old(nextProductId) + 1
      ensures orders == old(orders) && orderItems == old(orderItems) && tasks == old(tasks)
      ensures nextOrderId == old(nextOrderId) && nextTaskId == old(nextTaskId)
    {
      var imageBlob: Option<seq<byte>> := None;
      var imageMimeType: Option<string> := None;
      var imageUrl: Option<string> := None;
      if image.Some? {
        imageBlob := Some(image.value.buffer);
        imageMimeType := Some(image.value.mimetype);
        imageUrl := Some(ImageRoute);
      }
      id := nextProductId;
      nextProductId := nextProductId + 1;
      products := products[id := Product(name, price, stock, imageUrl,
                                         if Truthy(description) then description else None,
                                         OrElse(category, DefaultCategory), OrElse(uom, DefaultUom),
                                         imageBlob, imageMimeType)];
      if imageUrl.Some? {
        products := products[id := products[id].(imageUrl := Some(ImageUrl(id)))];
      }
    }

    /** `PUT /api/products/:id`: push a SET clause per admitted field, skip the
        UPDATE when there is none, and answer with the row as it now stands. */
    method UpdateProduct(id: nat, patch: ProductPatch) returns (row: Option<Product>)
      requires Valid()
      modifies this
      ensures Valid()
      ensures products == if id in old(products)
                          then old(products)[id := PatchByColumn(old(products)[id], id, patch)]
                          else old(products)
      ensures row == if id in products then Some(products[id]) else None
      ensures orders == old(orders) && orderItems == old(orderItems) && tasks == old(tasks)
      ensures nextProductId == old(nextProductId) && nextOrderId == old(nextOrderId) && nextTaskId == old(nextTaskId)
    {
      var updates: seq<Clause> := [];
      updates := updates + NameClauses(patch.name);
      updates := updates + PriceClauses(patch.price);
      updates := updates + StockClauses(patch.stock);
      updates := updates + DescriptionClauses(patch.description);
      updates := updates + CategoryClauses(patch.category);
      updates := updates + UomClauses(patch.uom);
      updates := updates + ImageClauses(id, patch.image);
      SetClausesInPushOrder(id, patch);
      if id in products {
        PatchedColumns(products[id], id, patch);
      }
      if |updates| == 0 {
        row := if id in products then Some(products[id]) else None;
        return;
      }
      if id in products {
        products := products[id := ApplyAll(products[id], updates)];
      }
      row := if id in products then Some(products[id]) else None;
    }

    /** `POST /api/orders`, one transaction: refuse an empty order; check every
        line against the stock as it stands before any decrement, summing the
        client's prices; then insert the order as `pending`, one item row per
        line, and decrement stock line by line. Any failure rolls back. */
    method PlaceOrder(userId: int, items: Option<seq<OrderLine>>, latitude: Option<real>,
                      longitude: Option<real>, address: Option<string>)
      returns (r: Result<nat, OrderError>)
      requires Valid()
      modifies this
      ensures Valid()
      ensures items.None? || items.value == [] ==> r == Err(NoItems)
      ensures items.Some? && items.value != [] ==>
                (r.Err? <==> FirstFailure(old(products), items.value).Some?)
                && (r.Err? ==> r.error == FirstFailure(old(products), items.value).value)
      ensures r.Err? ==>
                products == old(products) && orders == old(orders) && orderItems == old(orderItems)
                && tasks == old(tasks) && nextProductId == old(nextProductId)
                && nextOrderId == old(nextOrderId) && nextTaskId == old(nextTaskId)
      ensures r.Ok? ==>
                var lines := items.value;
                && r.value == old(nextOrderId) && r.value !in old(orders)
                && orders == old(orders)[r.value := Order(userId, OrderTotal(lines), Pending, latitude, longitude, address)]
                && |orderItems| == |old(orderItems)| + |lines|
                && orderItems[..|old(orderItems)|] == old(orderItems)
                && (forall i :: 0 <= i < |lines| ==>
                      orderItems[|old(orderItems)| + i]
                      == OrderItem(r.value, lines[i].productId, lines[i].quantity, lines[i].price))
                && products == Debit(old(products), lines)
                && tasks == old(tasks) && nextOrderId == old(nextOrderId) + 1
                && nextProductId == old(nextProductId) && nextTaskId == old(nextTaskId)
    {
      if items.None? || |items.value| == 0 {
        return Err(NoItems);
      }
      var lines := items.value;
      var total, failure := CheckLines(lines);
      if failure.Some? {
        return Err(failure.value);
      }
      var orderId := nextOrderId;
      orders := orders[orderId := Order(userId, total, Pending, latitude, longitude, address)];
      nextOrderId := nextOrderId + 1;
      InsertItems(orderId, lines);
      return Ok(orderId);
    }

    /** The first loop of `POST /api/orders`: add up price times quantity and
        stop at the first line whose product is missing or whose stock (read
        before any decrement) is below the line's quantity. */
    method CheckLines(lines: seq<OrderLine>) returns (total: int, failure: Option<OrderError>)
      ensures failure == FirstFailure(products, lines)
      ensures failure.None? ==> total == OrderTotal(lines)
    {
      total := 0;
      var i := 0;
      while i < |lines|
        invariant 0 <= i <= |lines|
        invariant total == OrderTotal(lines[..i])
        invariant FirstFailure(products, lines[..i]).None?
      {
        var it := lines[i];
        assert lines[..i + 1][..i] == lines[..i];
        total := total + it.price * it.quantity;
        if it.productId !in products || products[it.productId].stock < it.quantity {
          FirstFailurePrefix(products, lines, i + 1);
          if it.productId !in products {
            return total, Some(ProductNotFound);
          }
          return total, Some(InsufficientStock(it.productId));
        }
        i := i + 1;
      }
      assert lines[..i] == lines;
      failure := None;
    }

    /** The second loop of `POST /api/orders`: one item row per line, and one
        stock decrement per line, in order. */
    method InsertItems(orderId: nat, lines: seq<OrderLine>)
      requires Valid() && orderId in orders
      modifies this
      ensures Valid()
      ensures |orderItems| == |old(orderItems)| + |lines|
      ensures orderItems[..|old(orderItems)|] == old(orderItems)
      ensures forall i :: 0 <= i < |lines| ==>
                orderItems[|old(orderItems)| + i] == OrderItem(orderId, lines[i].productId, lines[i].quantity, lines[i].price)
      ensures products == Debit(old(products), lines)
      ensures orders == old(orders) && tasks == old(tasks)
      ensures nextProductId == old(nextProductId) && nextOrderId == old(nextOrderId) && nextTaskId == old(nextTaskId)
    {
      var ps, items := products, orderItems;
      var i := 0;
      while i < |lines|
        invariant 0 <= i <= |lines|
        modifies {}
        invariant ps == Debit(products, lines[..i])
        invariant |items| == |orderItems| + i
        invariant items[..|orderItems|] == orderItems
        invariant forall k :: 0 <= k < |items| ==> items[k].orderId in orders
        invariant forall k :: 0 <= k < i ==>
                    items[|orderItems| + k] == OrderItem(orderId, lines[k].productId, lines[k].quantity, lines[k].price)
      {
        var it := lines[i];
        DebitStep(products, lines, i);
        items := items + [OrderItem(orderId, it.productId, it.quantity, it.price)];
        if it.productId in ps {
          ps := ps[it.productId := ps[it.productId].(stock := ps[it.productId].stock - it.quantity)];
        }
        i := i + 1;
      }
      assert lines[..i] == lines;
      DebitStock(products, lines);
      products, orderItems := ps, items;
    }

    /** `POST /api/delivery/assign` (and its copy `POST /api/orders/assign`):
        mark the order `assigned` and insert an `assigned` task for it. */
    method AssignDelivery(orderId: nat, deliveryPersonId: nat) returns (taskId: nat)
      requires Valid()
      modifies this
      ensures Valid()
      ensures orders == SetOrderStatus(old(orders), orderId, Assigned)
      ensures taskId == old(nextTaskId) && taskId !in old(tasks)
      ensures tasks == old(tasks)[taskId := DeliveryTask(orderId, deliveryPersonId, Assigned)]
      ensures nextTaskId == old(nextTaskId) + 1
      ensures products == old(products) && orderItems == old(orderItems)
      ensures nextProductId == old(nextProductId) && nextOrderId == old(nextOrderId)
    {
      if orderId in orders {
        orders := orders[orderId := orders[orderId].(status := Assigned)];
      }
      taskId := nextTaskId;
      nextTaskId := nextTaskId + 1;
      tasks := tasks[taskId := DeliveryTask(orderId, deliveryPersonId, Assigned)];
    }

    /** `PUT /api/delivery/task/:id`: store the status on the task, then, if the
        task exists, mirror `delivered` or `on_the_way` onto its order. */
    method UpdateTaskStatus(taskId: nat, status: string)
      requires Valid()
      modifies this
      ensures Valid()
      ensures tasks == TasksAfterUpdate(old(tasks), taskId, status)
      ensures orders == OrdersAfterUpdate(old(orders), old(tasks), taskId, status)
      ensures products == old(products) && orderItems == old(orderItems)
      ensures nextProductId == old(nextProductId) && nextOrderId == old(nextOrderId) && nextTaskId == old(nextTaskId)
    {
      if taskId in tasks {
        tasks := tasks[taskId := tasks[taskId].(status := status)];
      }
      if taskId in tasks {
        var orderId := tasks[taskId].orderId;
        if status == Delivered {
          if orderId in orders {
            orders := orders[orderId := orders[orderId].(status := Delivered)];
          }
        } else if status == OnTheWay {
          if orderId in orders {
            orders := orders[orderId := orders[orderId].(status := OnTheWay)];
          }
        }
      }
    }
  }
}
