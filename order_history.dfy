/** `GET /api/orders/user/:userId` in server.js: the joined order/item/product
    rows the query returns are folded, row by row, into one record per order
    holding its items in row order and a running total. */
module OrderHistory {
  import opened Common

  /** One row of the join of `orders`, `order_items` and `products`. */
  datatype JoinedRow = JoinedRow(
    orderId: nat,
    customerId: int,
    status: string,
    createdAt: nat,
    orderItemId: nat,
    productId: nat,
    quantity: int,
    price: int,
    productName: string,
    productImageUrl: Option<string>)

  /** One entry of an order's `items` in the response. */
  datatype ItemView = ItemView(orderItemId: nat, productId: nat, name: string, imageUrl: Option<string>,
                               quantity: int, price: int)

  /** One order of the response. */
  datatype OrderView = OrderView(orderId: nat, customerId: int, status: string, createdAt: nat,
                                 totalPrice: int, items: seq<ItemView>)

  function ItemOf(row: JoinedRow): ItemView
  {
    ItemView(row.orderItemId, row.productId, row.productName, row.productImageUrl, row.quantity, row.price)
  }

  /** The order ids that occur in the rows. */
  function OrderIds(rows: seq<JoinedRow>): set<nat>
  {
    set m | 0 <= m < |rows| :: rows[m].orderId
  }

  lemma OrderIdsStep(rows: seq<JoinedRow>, i: nat)
    requires i < |rows|
    ensures OrderIds(rows[..i + 1]) == OrderIds(rows[..i]) + {rows[i].orderId}
  {
    assert rows[..i + 1][i] == rows[i];
    assert forall m :: 0 <= m < i ==> rows[..i + 1][m] == rows[..i][m];
  }

  /** The first row of an order brings an id not seen before it. */
  lemma FirstRowIsNew(rows: seq<JoinedRow>, i: nat)
    requires i < |rows| && IsFirstRowOf(rows, i)
    ensures rows[i].orderId !in OrderIds(rows[..i])
  {
    assert forall m :: 0 <= m < i ==> rows[..i][m] == rows[m];
  }

  /** The items of the rows that belong to order `k`, in row order. */
  function ItemsFor(rows: seq<JoinedRow>, k: nat): (r: seq<ItemView>)
    ensures |r| <= |rows|
    decreases |rows|
  {
    if rows == [] then []
    else
      var last := rows[|rows| - 1];
      ItemsFor(rows[..|rows| - 1], k) + (if last.orderId == k then [ItemOf(last)] else [])
  }

  /** Price times quantity, summed over the rows that belong to order `k`. */
  function TotalFor(rows: seq<JoinedRow>, k: nat): (r: int)
    ensures (forall j :: 0 <= j < |rows| ==> rows[j].price >= 0 && rows[j].quantity >= 0) ==> r >= 0
    decreases |rows|
  {
    if rows == [] then 0
    else
      var last := rows[|rows| - 1];
      TotalFor(rows[..|rows| - 1], k) + (if last.orderId == k then last.price * last.quantity else 0)
  }

  /** Price times quantity, summed over a list of items. */
  function ItemsTotal(items: seq<ItemView>): int
    decreases |items|
  {
    if items == [] then 0
    else ItemsTotal(items[..|items| - 1]) + items[|items| - 1].price * items[|items| - 1].quantity
  }

  /** Taking one more row extends only that row's order, by that row. */
  lemma PrefixStep(rows: seq<JoinedRow>, i: nat)
    requires i < |rows|
    ensures forall k ::
              ItemsFor(rows[..i + 1], k) == ItemsFor(rows[..i], k) + (if rows[i].orderId == k then [ItemOf(rows[i])] else [])
              && TotalFor(rows[..i + 1], k)
                 == TotalFor(rows[..i], k) + (if rows[i].orderId == k then rows[i].price * rows[i].quantity else 0)
  {
    assert rows[..i + 1][..i] == rows[..i];
    assert rows[..i + 1][i] == rows[i];
  }

  /** Row `j` is the first row of its order. */
  predicate IsFirstRowOf(rows: seq<JoinedRow>, j: nat)
    requires j < |rows|
  {
    forall i :: 0 <= i < j ==> rows[i].orderId != rows[j].orderId
  }

  /** An order with no row has no items and a zero total. */
  lemma {:induction false} AbsentOrderIsEmpty(rows: seq<JoinedRow>, k: nat)
    requires k !in OrderIds(rows)
    ensures ItemsFor(rows, k) == [] && TotalFor(rows, k) == 0
    decreases |rows|
  {
    if rows != [] {
      var init := rows[..|rows| - 1];
      assert forall m :: 0 <= m < |init| ==> init[m] == rows[m];
      AbsentOrderIsEmpty(init, k);
    }
  }

  /** Every item listed under order `k` comes from a row of order `k`. */
  lemma {:induction false} ItemsComeFromOwnRows(rows: seq<JoinedRow>, k: nat)
    ensures forall x :: x in ItemsFor(rows, k) ==>
              exists j :: 0 <= j < |rows| && rows[j].orderId == k && ItemOf(rows[j]) == x
    decreases |rows|
  {
    if rows != [] {
      var init := rows[..|rows| - 1];
      var last := rows[|rows| - 1];
      ItemsComeFromOwnRows(init, k);
      forall x | x in ItemsFor(rows, k)
        ensures exists j :: 0 <= j < |rows| && rows[j].orderId == k && ItemOf(rows[j]) == x
      {
        if x in ItemsFor(init, k) {
          var j :| 0 <= j < |init| && init[j].orderId == k && ItemOf(init[j]) == x;
          assert rows[j] == init[j];
        } else {
          assert last.orderId == k && x == ItemOf(last);
        }
      }
    }
  }

  /** The accumulated total is the sum over the order's item list. */
  lemma {:induction false} TotalIsSumOverItems(rows: seq<JoinedRow>, k: nat)
    ensures TotalFor(rows, k) == ItemsTotal(ItemsFor(rows, k))
    decreases |rows|
  {
    if rows != [] {
      var init := rows[..|rows| - 1];
      var last := rows[|rows| - 1];
      TotalIsSumOverItems(init, k);
      if last.orderId == k {
        var items := ItemsFor(init, k) + [ItemOf(last)];
        assert items[..|items| - 1] == ItemsFor(init, k);
      } else {
        assert ItemsFor(rows, k) == ItemsFor(init, k);
      }
    }
  }

  /** Every row shows up among the items of its own order. */
  lemma {:induction false} RowListedUnderItsOrder(rows: seq<JoinedRow>, j: nat)
    requires j < |rows|
    ensures ItemOf(rows[j]) in ItemsFor(rows, rows[j].orderId)
    decreases |rows|
  {
    var init := rows[..|rows| - 1];
    var k := rows[j].orderId;
    if j < |rows| - 1 {
      assert init[j] == rows[j];
      RowListedUnderItsOrder(init, j);
    } else {
      assert ItemsFor(rows, k) == ItemsFor(init, k) + [ItemOf(rows[j])];
    }
  }

  /** What the loop has built after the first `i` rows: one record per order
      seen so far, holding that order's items and total over those rows. */
  ghost predicate GroupedUpTo(rows: seq<JoinedRow>, i: nat, orders: map<nat, OrderView>)
    requires i <= |rows|
  {
    && orders.Keys == OrderIds(rows[..i])
    && forall k :: k in orders ==>
         orders[k].orderId == k && orders[k].items == ItemsFor(rows[..i], k)
         && orders[k].totalPrice == TotalFor(rows[..i], k)
  }

  /** Every order first seen among the first `i` rows carries the header of
      its first row. */
  ghost predicate HeadersUpTo(rows: seq<JoinedRow>, i: nat, orders: map<nat, OrderView>)
    requires i <= |rows|
  {
    forall j :: 0 <= j < i && IsFirstRowOf(rows, j) ==>
      rows[j].orderId in orders
      && orders[rows[j].orderId].customerId == rows[j].customerId
      && orders[rows[j].orderId].status == rows[j].status
      && orders[rows[j].orderId].createdAt == rows[j].createdAt
  }

  /** One pass of the loop body: open a record from the row if its order has
      none yet, then append the row's item and add its price times quantity. */
  function AddRow(orders: map<nat, OrderView>, row: JoinedRow): (r: map<nat, OrderView>)
    ensures r.Keys == orders.Keys + {row.orderId}
    ensures forall k :: k in orders && k != row.orderId ==> r[k] == orders[k]
    ensures var o := r[row.orderId]; |o.items| > 0 && o.items[|o.items| - 1] == ItemOf(row)
    ensures row.orderId in orders ==>
              var o := r[row.orderId];
              o.items[..|o.items| - 1] == orders[row.orderId].items
              && o.totalPrice == orders[row.orderId].totalPrice + row.price * row.quantity
              && o.orderId == orders[row.orderId].orderId && o.customerId == orders[row.orderId].customerId
              && o.status == orders[row.orderId].status && o.createdAt == orders[row.orderId].createdAt
  {
    var o := if row.orderId in orders then orders[row.orderId]
             else OrderView(row.orderId, row.customerId, row.status, row.createdAt, 0, []);
    orders[row.orderId := o.(items := o.items + [ItemOf(row)], totalPrice := o.totalPrice + row.price * row.quantity)]
  }

  /** `AddRow` is the loop body as written: pick or open the record, then update it. */
  lemma AddRowUnfolds(orders: map<nat, OrderView>, row: JoinedRow, o: OrderView)
    requires o == if row.orderId in orders then orders[row.orderId]
                  else OrderView(row.orderId, row.customerId, row.status, row.createdAt, 0, [])
    ensures orders[row.orderId := o.(items := o.items + [ItemOf(row)], totalPrice := o.totalPrice + row.price * row.quantity)]
            == AddRow(orders, row)
  {
  }

  /** The loop body keeps the record contents right. */
  lemma AddRowGroups(rows: seq<JoinedRow>, i: nat, orders: map<nat, OrderView>)
    requires i < |rows|
    requires GroupedUpTo(rows, i, orders)
    ensures GroupedUpTo(rows, i + 1, AddRow(orders, rows[i]))
  {
    var r := AddRow(orders, rows[i]);
    OrderIdsStep(rows, i);
    PrefixStep(rows, i);
    forall k | k in r
      ensures r[k].orderId == k && r[k].items == ItemsFor(rows[..i + 1], k)
              && r[k].totalPrice == TotalFor(rows[..i + 1], k)
    {
      if k == rows[i].orderId && k !in orders {
        AbsentOrderIsEmpty(rows[..i], k);
      }
    }
  }

  /** The loop body keeps the headers right: a new record takes the header of
      the row that opens it, and an existing one keeps its header. */
  lemma AddRowHeaders(rows: seq<JoinedRow>, i: nat, orders: map<nat, OrderView>)
    requires i < |rows|
    requires GroupedUpTo(rows, i, orders) && HeadersUpTo(rows, i, orders)
    ensures HeadersUpTo(rows, i + 1, AddRow(orders, rows[i]))
  {
    var r := AddRow(orders, rows[i]);
    forall j | 0 <= j < i + 1 && IsFirstRowOf(rows, j)
      ensures rows[j].orderId in r
      ensures r[rows[j].orderId].customerId == rows[j].customerId
      ensures r[rows[j].orderId].status == rows[j].status
      ensures r[rows[j].orderId].createdAt == rows[j].createdAt
    {
      if j == i {
        FirstRowIsNew(rows, i);
      }
    }
  }

  /** The loop invariant after the first `i` rows. */
  ghost predicate Grouping(rows: seq<JoinedRow>, i: nat, orders: map<nat, OrderView>)
    requires i <= |rows|
  {
    GroupedUpTo(rows, i, orders) && HeadersUpTo(rows, i, orders)
  }

  /** The records after folding `AddRow` over the rows, in order. */
  function GroupFold(rows: seq<JoinedRow>): map<nat, OrderView>
    decreases |rows|
  {
    if rows == [] then map[] else AddRow(GroupFold(rows[..|rows| - 1]), rows[|rows| - 1])
  }

  lemma FoldStep(rows: seq<JoinedRow>, i: nat)
    requires i < |rows|
    ensures GroupFold(rows[..i + 1]) == AddRow(GroupFold(rows[..i]), rows[i])
  {
    assert rows[..i + 1][..i] == rows[..i];
  }

  /** Folding the first `i` rows builds the records the invariants describe. */
  lemma {:induction false} FoldGroups(rows: seq<JoinedRow>, i: nat)
    requires i <= |rows|
    ensures Grouping(rows, i, GroupFold(rows[..i]))
    decreases i
  {
    if i == 0 {
      NothingGrouped(rows);
    } else {
      var prev := GroupFold(rows[..i - 1]);
      var next := AddRow(prev, rows[i - 1]);
      assert Grouping(rows, i - 1, prev) by { FoldGroups(rows, i - 1); }
      assert GroupedUpTo(rows, i, next) by { AddRowGroups(rows, i - 1, prev); }
      assert HeadersUpTo(rows, i, next) by { AddRowHeaders(rows, i - 1, prev); }
      assert GroupFold(rows[..i]) == next by { FoldStep(rows, i - 1); }
    }
  }

  lemma NothingGrouped(rows: seq<JoinedRow>)
    ensures Grouping(rows, 0, GroupFold(rows[..0]))
  {
    assert rows[..0] == [];
    assert OrderIds(rows[..0]) == {};
  }

  /** Once every row is taken, the invariants are the grouping's promise. */
  lemma AllRowsGrouped(rows: seq<JoinedRow>, orders: map<nat, OrderView>)
    requires Grouping(rows, |rows|, orders)
    ensures orders.Keys == OrderIds(rows)
    ensures forall k :: k in orders ==>
              orders[k].orderId == k && orders[k].items == ItemsFor(rows, k) && orders[k].totalPrice == TotalFor(rows, k)
    ensures forall j :: 0 <= j < |rows| && IsFirstRowOf(rows, j) ==>
              rows[j].orderId in orders
              && orders[rows[j].orderId].customerId == rows[j].customerId
              && orders[rows[j].orderId].status == rows[j].status
              && orders[rows[j].orderId].createdAt == rows[j].createdAt
  {
    assert rows[..|rows|] == rows;
  }

  /** The grouping loop: one record per distinct order id, created from the
      first row of that order, its items appended in row order, and its total
      accumulated as price times quantity over those rows. */
  method GroupByOrder(rows: seq<JoinedRow>) returns (orders: map<nat, OrderView>)
    ensures orders.Keys == OrderIds(rows)
    ensures forall k :: k in orders ==>
              orders[k].orderId == k && orders[k].items == ItemsFor(rows, k) && orders[k].totalPrice == TotalFor(rows, k)
    ensures forall j :: 0 <= j < |rows| && IsFirstRowOf(rows, j) ==>
              rows[j].orderId in orders
              && orders[rows[j].orderId].customerId == rows[j].customerId
              && orders[rows[j].orderId].status == rows[j].status
              && orders[rows[j].orderId].createdAt == rows[j].createdAt
  {
    orders := map[];
    var i := 0;
    while i < |rows|
      invariant 0 <= i <= |rows|
      invariant orders == GroupFold(rows[..i])
    {
      var row := rows[i];
      var o := if row.orderId in orders then orders[row.orderId]
               else OrderView(row.orderId, row.customerId, row.status, row.createdAt, 0, []);
      AddRowUnfolds(orders, row, o);
      FoldStep(rows, i);
      orders := orders[row.orderId := o.(items := o.items + [ItemOf(row)], totalPrice := o.totalPrice + row.price * row.quantity)];
      i := i + 1;
    }
    assert rows[..i] == rows;
    FoldGroups(rows, i);
    AllRowsGrouped(rows, orders);
  }
}
