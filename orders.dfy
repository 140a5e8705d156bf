/** Order placement in server.js (`POST /api/orders`): the per-line stock check
    against the stock as it stood when the transaction began, the total over the
    client-supplied prices, and the stock decrements the second loop issues. */
module Orders {
  import opened Common
  import opened Catalog

  const Pending := "pending"

  /** One entry of the request's `items`: product, quantity and the client's unit price (in cents). */
  datatype OrderLine = OrderLine(productId: nat, quantity: int, price: int)

  /** Why an order is refused: empty or missing `items` (before any transaction),
      an unknown product, or a line asking for more than the product's stock. */
  datatype OrderError = NoItems | ProductNotFound | InsufficientStock(productId: nat)

  /** One row of the `orders` table. */
  datatype Order = Order(
    customerId: int,
    totalPrice: int,
    status: string,
    latitude: Option<real>,
    longitude: Option<real>,
    address: Option<string>)

  /** One row of the `order_items` table. */
  datatype OrderItem = OrderItem(orderId: nat, productId: nat, quantity: int, price: int)

  /** What the first loop concludes about one line, reading the stock before any decrement. */
  function LineCheck(products: map<nat, Product>, line: OrderLine): (r: Option<OrderError>)
    ensures r.None? <==> line.productId in products && line.quantity <= products[line.productId].stock
    ensures r == Some(ProductNotFound) <==> line.productId !in products
    ensures r != Some(NoItems)
    ensures r.Some? && r.value.InsufficientStock? ==> r.value.productId == line.productId
  {
    if line.productId !in products then Some(ProductNotFound)
    else if products[line.productId].stock < line.quantity then Some(InsufficientStock(line.productId))
    else None
  }

  /** The error of the first line that fails its check, if any. */
  function FirstFailure(products: map<nat, Product>, lines: seq<OrderLine>): (r: Option<OrderError>)
    ensures r.Some? ==> exists i :: 0 <= i < |lines| && LineCheck(products, lines[i]) == r
    ensures r != Some(NoItems)
    decreases |lines|
  {
    if lines == [] then None
    else
      var earlier := FirstFailure(products, lines[..|lines| - 1]);
      if earlier.Some? then earlier else LineCheck(products, lines[|lines| - 1])
  }

  /** No line fails exactly when every line names an existing product whose
      stock (before the order) covers that line's quantity on its own. */
  lemma {:induction false} NoFailureIff(products: map<nat, Product>, lines: seq<OrderLine>)
    ensures FirstFailure(products, lines).None? <==>
              forall i :: 0 <= i < |lines| ==>
                lines[i].productId in products && products[lines[i].productId].stock >= lines[i].quantity
    decreases |lines|
  {
    if lines != [] {
      var init := lines[..|lines| - 1];
      NoFailureIff(products, init);
      assert forall i :: 0 <= i < |init| ==> init[i] == lines[i];
    }
  }

  /** The error reported is that of the first failing line. */
  lemma {:induction false} FirstFailureIsFirstFailingLine(products: map<nat, Product>, lines: seq<OrderLine>, k: nat)
    requires k < |lines|
    requires LineCheck(products, lines[k]).Some?
    requires forall j :: 0 <= j < k ==> LineCheck(products, lines[j]).None?
    ensures FirstFailure(products, lines) == LineCheck(products, lines[k])
    decreases |lines|
  {
    var init := lines[..|lines| - 1];
    if k < |lines| - 1 {
      assert init[k] == lines[k];
      assert forall j :: 0 <= j < k ==> init[j] == lines[j];
      FirstFailureIsFirstFailingLine(products, init, k);
    } else {
      assert forall j :: 0 <= j < |init| ==> init[j] == lines[j];
      NoFailureIff(products, init);
    }
  }

  /** A failure found in a prefix of the lines is the failure of the whole order. */
  lemma {:induction false} FirstFailurePrefix(products: map<nat, Product>, lines: seq<OrderLine>, k: nat)
    requires k <= |lines|
    requires FirstFailure(products, lines[..k]).Some?
    ensures FirstFailure(products, lines) == FirstFailure(products, lines[..k])
    decreases |lines| - k
  {
    if k < |lines| {
      assert lines[..k + 1][..k] == lines[..k];
      FirstFailurePrefix(products, lines, k + 1);
    } else {
      assert lines[..k] == lines;
    }
  }

  /** `total_price`: the sum of price times quantity over the client-supplied lines. */
  function OrderTotal(lines: seq<OrderLine>): (r: int)
    ensures (forall i :: 0 <= i < |lines| ==> lines[i].price >= 0 && lines[i].quantity >= 0) ==> r >= 0
    decreases |lines|
  {
    if lines == [] then 0
    else OrderTotal(lines[..|lines| - 1]) + lines[|lines| - 1].price * lines[|lines| - 1].quantity
  }

  /** The total quantity the lines ask of product `pid`. */
  function Demand(lines: seq<OrderLine>, pid: nat): int
    decreases |lines|
  {
    if lines == [] then 0
    else
      Demand(lines[..|lines| - 1], pid)
      + (if lines[|lines| - 1].productId == pid then lines[|lines| - 1].quantity else 0)
  }

  /** The products table after `UPDATE products SET stock = stock - ? WHERE id=?`
      has run once per line, in order; a line naming no row changes nothing. */
  function Debit(products: map<nat, Product>, lines: seq<OrderLine>): (r: map<nat, Product>)
    ensures r.Keys == products.Keys
    decreases |lines|
  {
    if lines == [] then products
    else
      var before := Debit(products, lines[..|lines| - 1]);
      var line := lines[|lines| - 1];
      if line.productId in before
      then before[line.productId := before[line.productId].(stock := before[line.productId].stock - line.quantity)]
      else before
  }

  /** One more line runs one more decrement. */
  lemma DebitStep(products: map<nat, Product>, lines: seq<OrderLine>, i: nat)
    requires i < |lines|
    ensures var before := Debit(products, lines[..i]);
            Debit(products, lines[..i + 1])
            == if lines[i].productId in before
               then before[lines[i].productId := before[lines[i].productId].(stock := before[lines[i].productId].stock - lines[i].quantity)]
               else before
  {
    assert lines[..i + 1][..i] == lines[..i];
  }

  /** The decrements take each product's stock down by exactly the quantity the
      lines ask of it, keep every other column, and add or drop no product. */
  lemma {:induction false} DebitStock(products: map<nat, Product>, lines: seq<OrderLine>)
    ensures Debit(products, lines).Keys == products.Keys
    ensures forall pid :: pid in products ==>
              Debit(products, lines)[pid] == products[pid].(stock := products[pid].stock - Demand(lines, pid))
    decreases |lines|
  {
    if lines != [] {
      DebitStock(products, lines[..|lines| - 1]);
    }
  }

  /** A product that no line names is asked for nothing. */
  lemma {:induction false} DemandUnnamed(lines: seq<OrderLine>, pid: nat)
    requires forall i :: 0 <= i < |lines| ==> lines[i].productId != pid
    ensures Demand(lines, pid) == 0
    decreases |lines|
  {
    if lines != [] {
      var init := lines[..|lines| - 1];
      assert forall i :: 0 <= i < |init| ==> init[i] == lines[i];
      DemandUnnamed(init, pid);
    }
  }

  /** When no product appears on two lines, each line's own check covers the
      whole demand on its product. */
  lemma {:induction false} DemandCoveredWhenDistinct(products: map<nat, Product>, lines: seq<OrderLine>, pid: nat)
    requires pid in products && products[pid].stock >= 0
    requires forall i :: 0 <= i < |lines| ==>
               lines[i].productId in products && products[lines[i].productId].stock >= lines[i].quantity
    requires forall i, j :: 0 <= i < j < |lines| ==> lines[i].productId != lines[j].productId
    ensures Demand(lines, pid) <= products[pid].stock
    decreases |lines|
  {
    if lines != [] {
      var init := lines[..|lines| - 1];
      var last := lines[|lines| - 1];
      assert forall i :: 0 <= i < |init| ==> init[i] == lines[i];
      if last.productId == pid {
        DemandUnnamed(init, pid);
      } else {
        DemandCoveredWhenDistinct(products, init, pid);
      }
    }
  }

  /** With distinct product ids, an order that passes the checks leaves no stock
      negative (given none was negative before). */
  lemma DistinctLinesKeepStockNonNegative(products: map<nat, Product>, lines: seq<OrderLine>)
    requires forall pid :: pid in products ==> products[pid].stock >= 0
    requires FirstFailure(products, lines).None?
    requires forall i, j :: 0 <= i < j < |lines| ==> lines[i].productId != lines[j].productId
    ensures forall pid :: pid in Debit(products, lines) ==> Debit(products, lines)[pid].stock >= 0
  {
    NoFailureIff(products, lines);
    DebitStock(products, lines);
    forall pid | pid in products
      ensures Demand(lines, pid) <= products[pid].stock
    {
      DemandCoveredWhenDistinct(products, lines, pid);
    }
  }

  /** Each line is checked against the stock before any decrement, so two lines
      for one product can jointly overdraw it: stock 5, two lines of 3 each, both
      pass and the stock ends at -1. */
  lemma DuplicateLinesOverdraw(p: Product)
    requires p.stock == 5
    ensures FirstFailure(map[1 := p], [OrderLine(1, 3, 10), OrderLine(1, 3, 10)]).None?
    ensures 1 in Debit(map[1 := p], [OrderLine(1, 3, 10), OrderLine(1, 3, 10)])
    ensures Debit(map[1 := p], [OrderLine(1, 3, 10), OrderLine(1, 3, 10)])[1].stock == -1
  {
    var lines := [OrderLine(1, 3, 10), OrderLine(1, 3, 10)];
    assert lines[..1][..0] == [];
    assert lines[..1] == [OrderLine(1, 3, 10)];
    NoFailureIff(map[1 := p], lines);
    DebitStock(map[1 := p], lines);
  }
}
