/** CartService: the priced cart view, lookup-or-create of carts, and the four
    cart mutations. None of them writes the product or the order table. */
module CartService {
  import opened Errors
  import opened Catalog
  import opened Carts
  import opened Store

  /** getCartWithDetails: the priced view of the cart, or None when no cart has this id.
      The view shows the cart's rows in insertion order, each with the live product
      record (so the live price), and the total over those prices. */
  function GetCartWithDetails(db: Database, cartId: CartId): (r: Option<CartView>)
    reads db
    requires db.Valid()
    ensures r.None? <==> cartId !in db.carts
    ensures r.Some? ==> r.value.id == cartId && Unpriced(r.value.items) == db.carts[cartId]
    ensures r.Some? ==> forall i :: 0 <= i < |r.value.items| ==> r.value.items[i].product == db.products[db.carts[cartId][i].productId]
    ensures r.Some? ==> r.value.total == Sum(r.value.items)
    ensures r.Some? && db.carts[cartId] == [] ==> r.value.items == [] && r.value.total == 0
  {
    if cartId in db.carts then Some(View(cartId, db.carts[cartId], db.products)) else None
  }

  /** The rows a cart id stands for: the cart's rows, or none for an id that does not resolve. */
  function RowsOf(carts: map<CartId, seq<CartItem>>, c: CartId): seq<CartItem> {
    if c in carts then carts[c] else []
  }

  /** findOrCreateCart: an id that resolves gives that cart's view and changes
      nothing; an absent id, or one that does not resolve, adds one fresh empty
      cart, whose id no cart had, and gives its view. */
  method FindOrCreateCart(db: Database, cartId: Option<CartId>) returns (v: CartView)
    requires db.Valid()
    modifies db
    ensures db.Valid()
    ensures db.products == old(db.products) && db.orders == old(db.orders)
    ensures cartId.Some? && cartId.value in old(db.carts) ==> v.id == cartId.value && db.carts == old(db.carts)
    ensures !(cartId.Some? && cartId.value in old(db.carts)) ==>
              v.id !in old(db.carts) && db.carts == old(db.carts)[v.id := []] && v.items == [] && v.total == 0
    ensures GetCartWithDetails(db, v.id) == Some(v)
  {
    if cartId.Some? {
      var existing := GetCartWithDetails(db, cartId.value);
      if existing.Some? {
        return existing.value;
      }
    }
    var id := db.CreateCart();
    v := GetCartWithDetails(db, id).value;
  }

  /** addItemToCart. The cart id first goes through lookup-or-create, so an id that
      does not resolve stands for a fresh empty cart (`resolved`), kept even when the
      request then fails; the rest is AddToResolvedCart. */
  method AddItemToCart(db: Database, cartId: CartId, productId: ProductId, quantity: int)
    returns (r: Result<CartView>, ghost resolved: CartId)
    requires db.Valid()
    requires quantity >= 1
    modifies db
    ensures db.Valid()
    ensures db.products == old(db.products) && db.orders == old(db.orders)
    ensures cartId in old(db.carts) ==> resolved == cartId
    ensures cartId !in old(db.carts) ==> resolved !in old(db.carts)
    ensures r.Ok? <==> productId in old(db.products)
                       && QuantityOf(RowsOf(old(db.carts), resolved), productId) + quantity <= old(db.products)[productId].stock
    ensures r.Err? ==> r.error == (if productId in old(db.products) then BadRequest else NotFound)
    ensures r.Err? ==> db.carts == old(db.carts)[resolved := RowsOf(old(db.carts), resolved)]
    ensures r.Ok? ==> db.carts == old(db.carts)[resolved := Upsert(RowsOf(old(db.carts), resolved), productId, quantity)]
    ensures r.Ok? ==> r.value.id == resolved && GetCartWithDetails(db, resolved) == Some(r.value)
    ensures r.Ok? ==> QuantityOf(db.carts[resolved], productId) <= db.products[productId].stock
  {
    var cart := FindOrCreateCart(db, Some(cartId));
    resolved := cart.id;
    assert db.carts == old(db.carts)[resolved := RowsOf(old(db.carts), resolved)];
    r := AddToResolvedCart(db, cart.id, productId, quantity);
  }

  /** The steps of addItemToCart after the cart is resolved. Fails NotFound for an
      unknown product, BadRequest when the stock is below the requested quantity or
      below what the cart would then hold; otherwise the product's row grows by
      `quantity`, or a new row goes last. */
  method AddToResolvedCart(db: Database, cartId: CartId, productId: ProductId, quantity: int)
    returns (r: Result<CartView>)
    requires db.Valid()
    requires cartId in db.carts && quantity >= 1
    modifies db
    ensures db.Valid()
    ensures db.products == old(db.products) && db.orders == old(db.orders)
    ensures r.Ok? <==> productId in db.products
                       && QuantityOf(old(db.carts)[cartId], productId) + quantity <= db.products[productId].stock
    ensures r.Err? ==> r.error == (if productId in db.products then BadRequest else NotFound)
    ensures r.Err? ==> db.carts == old(db.carts)
    ensures r.Ok? ==> db.carts == old(db.carts)[cartId := Upsert(old(db.carts)[cartId], productId, quantity)]
    ensures r.Ok? ==> r.value.id == cartId && GetCartWithDetails(db, cartId) == Some(r.value)
    ensures r.Ok? ==> QuantityOf(db.carts[cartId], productId) <= db.products[productId].stock
  {
    var rows := db.carts[cartId];
    AddStockCheck(rows, productId, quantity, if productId in db.products then db.products[productId].stock else 0);
    var found := FindOne(db.products, productId);
    if found.Err? {
      return Err(found.error);
    }
    var product := found.value;
    if product.stock < quantity {
      return Err(BadRequest);
    }
    UpsertWellFormed(rows, productId, quantity, db.products);
    match Find(rows, productId) {
      case Some(k) =>
        var newQuantity := rows[k].quantity + quantity;
        if product.stock < newQuantity {
          return Err(BadRequest);
        }
        assert rows[k := CartItem(productId, newQuantity)] == Upsert(rows, productId, quantity);
        db.SetRows(cartId, rows[k := CartItem(productId, newQuantity)]);
      case None =>
        assert rows + [CartItem(productId, quantity)] == Upsert(rows, productId, quantity);
        db.SetRows(cartId, rows + [CartItem(productId, quantity)]);
    }
    r := Ok(GetCartWithDetails(db, cartId).value);
  }

  /** updateCartItemQuantity. Fails NotFound when the cart or its row for the product
      is missing; otherwise the row changes as ChangeQuantity says. */
  method UpdateCartItemQuantity(db: Database, cartId: CartId, productId: ProductId, newQuantity: int)
    returns (r: Result<CartView>)
    requires db.Valid()
    modifies db
    ensures db.Valid()
    ensures db.products == old(db.products) && db.orders == old(db.orders)
    ensures r.Err? ==> db.carts == old(db.carts)
    ensures cartId !in old(db.carts) ==> r == Err(NotFound)
    ensures cartId in old(db.carts) ==>
              var rows := old(db.carts)[cartId];
              match Find(rows, productId)
              case None => r == Err(NotFound)
              case Some(k) =>
                if newQuantity <= 0 then
                  r.Ok? && db.carts == old(db.carts)[cartId := rows[..k] + rows[k + 1..]]
                else if old(db.products)[productId].stock < newQuantity then
                  r == Err(BadRequest)
                else
                  r.Ok? && db.carts == old(db.carts)[cartId := rows[k := CartItem(productId, newQuantity)]]
    ensures r.Ok? ==> GetCartWithDetails(db, cartId) == Some(r.value)
    ensures r.Ok? && newQuantity <= 0 ==> Find(db.carts[cartId], productId).None?
  {
    var cart := GetCartWithDetails(db, cartId);
    if cart.None? {
      return Err(NotFound);
    }
    var found := Find(db.carts[cartId], productId);
    if found.None? {
      return Err(NotFound);
    }
    r := ChangeQuantity(db, cartId, found.value, newQuantity);
  }

  /** The steps of updateCartItemQuantity once row `k` of the cart is found. A
      quantity of zero or less deletes that row; otherwise it fails BadRequest when
      the stock is below the new quantity, and else sets the row's quantity to exactly
      the new one. Every other row stays as it was. */
  method ChangeQuantity(db: Database, cartId: CartId, k: nat, newQuantity: int) returns (r: Result<CartView>)
    requires db.Valid()
    requires cartId in db.carts && k < |db.carts[cartId]|
    modifies db
    ensures db.Valid()
    ensures db.products == old(db.products) && db.orders == old(db.orders)
    ensures var rows := old(db.carts)[cartId];
            var row := rows[k];
            if newQuantity <= 0 then
              r.Ok? && db.carts == old(db.carts)[cartId := rows[..k] + rows[k + 1..]]
            else if db.products[row.productId].stock < newQuantity then
              r == Err(BadRequest) && db.carts == old(db.carts)
            else
              r.Ok? && db.carts == old(db.carts)[cartId := rows[k := CartItem(row.productId, newQuantity)]]
    ensures r.Ok? ==> GetCartWithDetails(db, cartId) == Some(r.value)
    ensures r.Ok? && newQuantity <= 0 ==> Find(db.carts[cartId], old(db.carts)[cartId][k].productId).None?
  {
    var rows := db.carts[cartId];
    var row := rows[k];
    var product := db.products[row.productId];
    if newQuantity <= 0 {
      RemoveAtWellFormed(rows, k, db.products);
      db.SetRows(cartId, rows[..k] + rows[k + 1..]);
    } else {
      if product.stock < newQuantity {
        return Err(BadRequest);
      }
      db.SetRows(cartId, rows[k := CartItem(row.productId, newQuantity)]);
    }
    r := Ok(GetCartWithDetails(db, cartId).value);
  }

  /** removeItemFromCart. Fails NotFound when the cart is missing or holds no row for
      the product; otherwise deletes exactly that product's row, keeping the order of
      the others. */
  method RemoveItemFromCart(db: Database, cartId: CartId, productId: ProductId) returns (r: Result<CartView>)
    requires db.Valid()
    modifies db
    ensures db.Valid()
    ensures db.products == old(db.products) && db.orders == old(db.orders)
    ensures r.Err? <==> cartId !in old(db.carts) || Find(old(db.carts)[cartId], productId).None?
    ensures r.Err? ==> r.error == NotFound && db.carts == old(db.carts)
    ensures r.Ok? ==> var rows := old(db.carts)[cartId];
                      var k := Find(rows, productId).value;
                      db.carts == old(db.carts)[cartId := rows[..k] + rows[k + 1..]]
    ensures r.Ok? ==> GetCartWithDetails(db, cartId) == Some(r.value) && Find(db.carts[cartId], productId).None?
  {
    var cart := GetCartWithDetails(db, cartId);
    if cart.None? {
      return Err(NotFound);
    }
    var rows := db.carts[cartId];
    var remaining := Without(rows, productId);
    var count := |rows| - |remaining|;
    match Find(rows, productId) {
      case Some(k) =>
        WithoutUnique(rows, k);
        RemoveAtWellFormed(rows, k, db.products);
      case None =>
        WithoutAbsent(rows, productId);
    }
    db.SetRows(cartId, remaining);
    if count == 0 {
      return Err(NotFound);
    }
    r := Ok(GetCartWithDetails(db, cartId).value);
  }

  /** clearCart. Fails NotFound when the cart is missing; otherwise deletes all its
      rows, the cart itself staying, and gives the empty view with total 0. */
  method ClearCart(db: Database, cartId: CartId) returns (r: Result<CartView>)
    requires db.Valid()
    modifies db
    ensures db.Valid()
    ensures db.products == old(db.products) && db.orders == old(db.orders)
    ensures cartId !in old(db.carts) ==> r == Err(NotFound) && db.carts == old(db.carts)
    ensures cartId in old(db.carts) ==> r.Ok? && db.carts == old(db.carts)[cartId := []]
    ensures r.Ok? ==> r.value == CartView(cartId, [], 0) && GetCartWithDetails(db, cartId) == Some(r.value)
  {
    var cart := GetCartWithDetails(db, cartId);
    if cart.None? {
      return Err(NotFound);
    }
    db.SetRows(cartId, []);
    r := Ok(GetCartWithDetails(db, cartId).value);
  }
}
