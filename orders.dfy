/** Orders as values, the checks checkout makes on each cart row, how it
    classifies failures, and what its stock decrement does to the product table. */
module Orders {
  import opened Errors
  import opened Catalog
  import opened Carts

  type OrderId = nat

  /** PENDING is the only status checkout produces; later states are outside this model. */
  datatype OrderStatus = Pending

  /** An order row: the product, the quantity bought and the unit price snapshotted at checkout. */
  datatype OrderItem = OrderItem(productId: ProductId, quantity: int, price: nat)

  datatype Order = Order(id: OrderId, totalAmount: int, status: OrderStatus, items: seq<OrderItem>)

  /** What the checkout loop collects before anything is written: the order rows and their total. */
  datatype Draft = Draft(items: seq<OrderItem>, totalAmount: int)

  /** The order row for a row of the cart view; the price is the one the view carries. */
  function LineOf(p: PricedItem): OrderItem {
    OrderItem(p.item.productId, p.item.quantity, p.product.price)
  }

  /** What an order's own rows add up to: price times quantity over its rows. */
  function OrderTotal(items: seq<OrderItem>): int {
    if items == [] then 0
    else
      var last := items[|items| - 1];
      OrderTotal(items[..|items| - 1]) + last.price * last.quantity
  }

  /** Order rows made one per view row add up to the view's total, so the
      totalAmount checkout stores agrees with the rows it stores beside it. */
  lemma {:induction false} OrderTotalOfLines(items: seq<PricedItem>, lines: seq<OrderItem>)
    requires |lines| == |items|
    requires forall i :: 0 <= i < |items| ==> lines[i] == LineOf(items[i])
    ensures OrderTotal(lines) == Sum(items)
  {
    if items != [] {
      var n := |items|;
      OrderTotalOfLines(items[..n - 1], lines[..n - 1]);
    }
  }

  /** A cart row passes the checks made inside the transaction: its product
      still exists and has at least the requested stock. */
  predicate Available(products: Products, item: CartItem) {
    item.productId in products && products[item.productId].stock >= item.quantity
  }

  /** Row `k` is the first row of the view that fails those checks. */
  predicate FirstUnavailable(products: Products, items: seq<PricedItem>, k: int) {
    && 0 <= k < |items|
    && !Available(products, items[k].item)
    && forall j :: 0 <= j < k ==> Available(products, items[j].item)
  }

  /** What the body of the transaction can end with when it does not return an
      order: an exception of a known kind, or some other failure. */
  datatype Failure = Raise(error: Error) | Unexpected

  /** The catch block of createOrder: known exceptions (not-found, bad-request and
      the persistence layer's known request errors) are passed on as they are;
      anything else surfaces as the generic Internal error. */
  function Classify(f: Failure): (e: Error)
    ensures f.Raise? && (f.error.NotFound? || f.error.BadRequest? || f.error.KnownRequest?) ==> e == f.error
    ensures f.Unexpected? ==> e == Internal
    ensures e.Internal? ==> f.Unexpected? || f.error.Internal?
  {
    match f
    case Raise(err) =>
      if err.NotFound? || err.BadRequest? || err.KnownRequest? then err else Internal
    case Unexpected => Internal
  }

  /** The product table after the decrement loop has decreased, for every product,
      the stock by the quantity the rows hold of it. */
  ghost predicate Decremented(before: Products, rows: seq<CartItem>, after: Products) {
    && after.Keys == before.Keys
    && forall p :: p in before ==> after[p] == before[p].(stock := before[p].stock - QuantityOf(rows, p))
  }

  /** When every row passed the stock check and no product has two rows, the
      decrement takes exactly each row's quantity off its product, leaves every
      other product alone and drives no stock below zero. */
  lemma DecrementedStock(before: Products, rows: seq<CartItem>, after: Products)
    requires forall p :: p in before ==> before[p].stock >= 0
    requires UniqueProducts(rows)
    requires forall i :: 0 <= i < |rows| ==> rows[i].productId in before && before[rows[i].productId].stock >= rows[i].quantity
    requires Decremented(before, rows, after)
    ensures forall i :: 0 <= i < |rows| ==> after[rows[i].productId].stock == before[rows[i].productId].stock - rows[i].quantity
    ensures forall p :: p in before && (forall i :: 0 <= i < |rows| ==> rows[i].productId != p) ==> after[p] == before[p]
    ensures forall p :: p in after ==> after[p].stock >= 0
    ensures forall p :: p in after ==> after[p].name == before[p].name && after[p].price == before[p].price
  {
    forall i | 0 <= i < |rows|
      ensures after[rows[i].productId].stock == before[rows[i].productId].stock - rows[i].quantity
    {
      QuantityOfUnique(rows, i);
    }
    forall p | p in before && (forall i :: 0 <= i < |rows| ==> rows[i].productId != p)
      ensures after[p] == before[p]
    {
      QuantityOfAbsent(rows, p);
    }
    forall p | p in after
      ensures after[p].stock >= 0
    {
      QuantityOfFind(rows, p);
    }
  }
}
