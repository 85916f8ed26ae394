/** OrdersService: checkout of a cart into an order inside one transaction, and
    the lookup of an order by id. */
module OrdersService {
  import opened Errors
  import opened Catalog
  import opened Carts
  import opened Orders
  import opened Store
  import CartService

  /** What a committed checkout leaves behind, given the tables before it and the
      cart view it worked from: one new PENDING order carrying one row per view row,
      in order, with the view's prices and their total; every product's stock less
      the quantity the view's rows hold of it; the cart's rows deleted. */
  ghost predicate Committed(before: Tables, snapshot: CartView, order: Order, after: Tables) {
    && order.id !in before.orders
    && after.orders == before.orders[order.id := order]
    && order.status == Pending
    && order.totalAmount == Sum(snapshot.items)
    && |order.items| == |snapshot.items|
    && (forall i :: 0 <= i < |snapshot.items| ==> order.items[i] == LineOf(snapshot.items[i]))
    && Decremented(before.products, Unpriced(snapshot.items), after.products)
    && after.carts == (if snapshot.id in before.carts then before.carts[snapshot.id := []] else before.carts)
  }

  /** A committed order's stored total is what its own rows add up to. */
  lemma CommittedTotal(before: Tables, snapshot: CartView, order: Order, after: Tables)
    requires Committed(before, snapshot, order, after)
    ensures order.totalAmount == OrderTotal(order.items)
  {
    OrderTotalOfLines(snapshot.items, order.items);
  }

  /** The first loop of the transaction: re-reads each row's product, fails
      NotFound for the first row whose product is gone or BadRequest for the first
      whose stock is short, and otherwise collects one order row per cart row, at the
      view's price, and their total. */
  method PrepareOrderItems(products: Products, items: seq<PricedItem>) returns (r: Result<Draft>)
    ensures r.Ok? <==> forall i :: 0 <= i < |items| ==> Available(products, items[i].item)
    ensures r.Ok? ==> |r.value.items| == |items| && r.value.totalAmount == Sum(items)
    ensures r.Ok? ==> forall i :: 0 <= i < |items| ==> r.value.items[i] == LineOf(items[i])
    ensures r.Err? ==> exists k :: FirstUnavailable(products, items, k)
                                   && r.error == (if items[k].item.productId in products then BadRequest else NotFound)
  {
    var totalAmount := 0;
    var orderItems: seq<OrderItem> := [];
    for i := 0 to |items|
      invariant |orderItems| == i
      invariant forall j :: 0 <= j < i ==> orderItems[j] == LineOf(items[j]) && Available(products, items[j].item)
      invariant totalAmount == Sum(items[..i])
    {
      var cartItem := items[i];
      if cartItem.item.productId !in products {
        assert FirstUnavailable(products, items, i);
        return Err(NotFound);
      }
      var product := products[cartItem.item.productId];
      if product.stock < cartItem.item.quantity {
        assert FirstUnavailable(products, items, i);
        return Err(BadRequest);
      }
      orderItems := orderItems + [LineOf(cartItem)];
      assert items[..i + 1][..i] == items[..i];
      totalAmount := totalAmount + cartItem.product.price * cartItem.item.quantity;
    }
    assert items[..|items|] == items;
    r := Ok(Draft(orderItems, totalAmount));
  }

  /** The $transaction of createOrder, over the cart view taken before it began.
      Either every check passes and all its writes happen (Committed), or it fails
      with the kind the first failing row raised and the tables are as they were. */
  method Checkout(db: Database, snapshot: CartView) returns (r: Result<Order>)
    requires db.Valid()
    requires UniqueProducts(Unpriced(snapshot.items))
    modifies db
    ensures db.Valid()
    ensures r.Ok? <==> forall i :: 0 <= i < |snapshot.items| ==> Available(old(db.products), snapshot.items[i].item)
    ensures r.Err? ==> db.State() == old(db.State())
    ensures r.Err? ==> exists k :: FirstUnavailable(old(db.products), snapshot.items, k)
                                   && r.error == (if snapshot.items[k].item.productId in old(db.products) then BadRequest else NotFound)
    ensures r.Ok? ==> Committed(old(db.State()), snapshot, r.value, db.State())
  {
    var draft := PrepareOrderItems(db.products, snapshot.items);
    if draft.Err? {
      return Err(Classify(Raise(draft.error)));
    }
    var order := db.InsertOrder(draft.value.totalAmount, Pending, draft.value.items);
    db.DecrementStock(Unpriced(snapshot.items));
    if snapshot.id in db.carts {
      db.SetRows(snapshot.id, []);
    }
    r := Ok(order);
  }

  /** createOrder. The cart goes through lookup-or-create outside the transaction, so
      an id that does not resolve leaves a fresh empty cart (`resolved`) behind and
      fails BadRequest, as an empty cart does. A non-empty cart is checked out from
      its priced view: the order is created, or the transaction fails BadRequest (its
      rows all name existing products, so only a short stock can fail) with the tables
      unchanged. */
  method CreateOrder(db: Database, cartId: CartId) returns (r: Result<Order>, ghost resolved: CartId)
    requires db.Valid()
    modifies db
    ensures db.Valid()
    ensures cartId in old(db.carts) ==> resolved == cartId
    ensures cartId !in old(db.carts) ==>
              && r == Err(BadRequest)
              && resolved !in old(db.carts)
              && db.State() == old(db.State()).(carts := old(db.carts)[resolved := []])
    ensures cartId in old(db.carts) && old(db.carts)[cartId] == [] ==>
              r == Err(BadRequest) && db.State() == old(db.State())
    ensures cartId in old(db.carts) && old(db.carts)[cartId] != [] ==>
              var snapshot := View(cartId, old(db.carts)[cartId], old(db.products));
              && (r.Ok? <==> forall i :: 0 <= i < |snapshot.items| ==> Available(old(db.products), snapshot.items[i].item))
              && (r.Err? ==> db.State() == old(db.State()) && r.error == BadRequest)
              && (r.Err? ==> exists k :: FirstUnavailable(old(db.products), snapshot.items, k))
              && (r.Ok? ==> Committed(old(db.State()), snapshot, r.value, db.State()))
    ensures r.Ok? ==> FindOrderById(db, r.value.id) == Ok(r.value)
  {
    var cart := CartService.FindOrCreateCart(db, Some(cartId));
    resolved := cart.id;
    if |cart.items| == 0 {
      r := Err(BadRequest);
      return;
    }
    // The substitution check (a non-empty cart under another id) cannot fire: a
    // substituted cart is fresh and therefore empty.
    assert cart.id == cartId;
    assert cart == View(cartId, old(db.carts)[cartId], old(db.products));
    r := Checkout(db, cart);
  }

  /** findOrderById: the stored order, or NotFound. */
  function FindOrderById(db: Database, orderId: OrderId): (r: Result<Order>)
    reads db
    requires db.Valid()
    ensures r.Ok? <==> orderId in db.orders
    ensures r.Ok? ==> r.value == db.orders[orderId] && r.value.id == orderId
    ensures r.Err? ==> r.error == NotFound
  {
    if orderId in db.orders then Ok(db.orders[orderId]) else Err(NotFound)
  }
}
