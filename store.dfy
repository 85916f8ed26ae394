/** The store the services share: the product, cart, cart-row and order tables,
    and the writes on them the services issue. */
module Store {
  import opened Catalog
  import opened Carts
  import opened Orders

  /** The contents of the tables as one value; each order is stored under its own id. */
  datatype Tables = Tables(products: Products, carts: map<CartId, seq<CartItem>>, orders: map<OrderId, Order>)

  /** No stock is negative, every cart's rows are well formed and refer to existing
      products, and no id in use has reached the generators' next id. */
  ghost predicate Consistent(t: Tables, nextCartId: nat, nextOrderId: nat) {
    && (forall p :: p in t.products ==> t.products[p].stock >= 0)
    && (forall c :: c in t.carts ==> c < nextCartId && WellFormed(t.carts[c], t.products))
    && (forall o :: o in t.orders ==> o < nextOrderId && t.orders[o].id == o)
  }

  /** Changing stock only keeps every cart well formed. */
  lemma StockChangeKeepsCarts(t: Tables, products: Products, nextCartId: nat, nextOrderId: nat)
    requires Consistent(t, nextCartId, nextOrderId)
    requires products.Keys == t.products.Keys
    requires forall p :: p in products ==> products[p].stock >= 0
    ensures Consistent(t.(products := products), nextCartId, nextOrderId)
  {
    forall c | c in t.carts
      ensures WellFormed(t.carts[c], products)
    {
      assert WellFormed(t.carts[c], t.products);
    }
  }

  class Database {
    var products: Products
    /** Every cart id, with the cart's rows in insertion order. */
    var carts: map<CartId, seq<CartItem>>
    var orders: map<OrderId, Order>
    /** The id generators: every cart and order id handed out so far lies below these. */
    var nextCartId: nat
    var nextOrderId: nat

    ghost predicate Valid()
      reads this
    {
      Consistent(State(), nextCartId, nextOrderId)
    }

    function State(): Tables
      reads this
    {
      Tables(products, carts, orders)
    }

    /** A store with the given catalogue and no carts or orders. */
    constructor (catalog: Products)
      requires forall p :: p in catalog ==> catalog[p].stock >= 0
      ensures Valid()
      ensures State() == Tables(catalog, map[], map[])
    {
      products := catalog;
      carts := map[];
      orders := map[];
      nextCartId := 0;
      nextOrderId := 0;
    }

    /** cart.create: a new empty cart under an id no cart had. */
    method CreateCart() returns (id: CartId)
      requires Valid()
      modifies this
      ensures Valid()
      ensures id !in old(carts) && carts == old(carts)[id := []]
      ensures products == old(products) && orders == old(orders)
    {
      id := nextCartId;
      carts := carts[id := []];
      nextCartId := id + 1;
    }

    /** The cart-row writes (create, update, delete, deleteMany) of one cart, as its new rows. */
    method SetRows(c: CartId, rows: seq<CartItem>)
      requires Valid()
      requires c in carts && WellFormed(rows, products)
      modifies this
      ensures Valid()
      ensures carts == old(carts)[c := rows]
      ensures products == old(products) && orders == old(orders)
    {
      carts := carts[c := rows];
    }

    /** order.create: a new order, with its rows, under an id no order had. */
    method InsertOrder(totalAmount: int, status: OrderStatus, items: seq<OrderItem>) returns (order: Order)
      requires Valid()
      modifies this
      ensures Valid()
      ensures order.id !in old(orders) && orders == old(orders)[order.id := order]
      ensures order == Order(order.id, totalAmount, status, items)
      ensures products == old(products) && carts == old(carts)
    {
      order := Order(nextOrderId, totalAmount, status, items);
      orders := orders[order.id := order];
      nextOrderId := nextOrderId + 1;
    }

    /** The stock-decrement loop of checkout: one product.update per row, in row
        order, each taking the row's quantity off its product's stock. Called only
        once every row has passed the stock check, so no stock goes below zero. */
    method DecrementStock(rows: seq<CartItem>)
      requires Valid()
      requires UniqueProducts(rows)
      requires forall i :: 0 <= i < |rows| ==> Available(products, rows[i])
      modifies this
      ensures Valid()
      ensures Decremented(old(products), rows, products)
      ensures carts == old(carts) && orders == old(orders)
    {
      ghost var start := State();
      for i := 0 to |rows|
        invariant carts == start.carts && orders == start.orders
        invariant nextCartId == old(nextCartId) && nextOrderId == old(nextOrderId)
        invariant Decremented(start.products, rows[..i], products)
      {
        var p := rows[i].productId;
        assert rows[..i + 1][..i] == rows[..i];
        products := products[p := products[p].(stock := products[p].stock - rows[i].quantity)];
      }
      assert rows[..|rows|] == rows;
      DecrementedStock(start.products, rows, products);
      StockChangeKeepsCarts(start, products, nextCartId, nextOrderId);
    }
  }
}
