/** The rows of a cart, the priced cart view and the row updates the cart
    service performs, as values. */
module Carts {
  import opened Errors
  import opened Catalog

  type CartId = nat

  /** A cart row: which product, and how many units of it. */
  datatype CartItem = CartItem(productId: ProductId, quantity: int)

  /** A cart row joined with its product record, as the priced view carries it. */
  datatype PricedItem = PricedItem(item: CartItem, product: Product)

  /** The priced cart view: the cart's id, its rows in insertion order with their
      products, and the total in cents. */
  datatype CartView = CartView(id: CartId, items: seq<PricedItem>, total: int)

  /** The (cart, product) unique index: no two rows of one cart name the same product. */
  predicate UniqueProducts(items: seq<CartItem>) {
    forall i, j :: 0 <= i < j < |items| ==> items[i].productId != items[j].productId
  }

  /** The rows of a cart as the store keeps them: one row per product, positive
      quantities, and every row refers to an existing product. */
  predicate WellFormed(items: seq<CartItem>, products: Products) {
    && UniqueProducts(items)
    && forall i :: 0 <= i < |items| ==> items[i].quantity >= 1 && items[i].productId in products
  }

  /** The cart rows of a priced view, without their products. */
  function Unpriced(items: seq<PricedItem>): seq<CartItem> {
    seq(|items|, i requires 0 <= i < |items| => items[i].item)
  }

  // ---------------------------------------------------------------------------
  // Pricing

  /** What one row costs: quantity times the unit price carried by the row. */
  function LineAmount(p: PricedItem): int {
    p.item.quantity * p.product.price
  }

  /** Reference definition of a total: the line amounts added up, first row first. */
  function Sum(items: seq<PricedItem>): int {
    if items == [] then 0 else Sum(items[..|items| - 1]) + LineAmount(items[|items| - 1])
  }

  /** The `reduce` that calculateTotal runs, with its accumulator. */
  function Reduce(acc: int, items: seq<PricedItem>): int
    decreases |items|
  {
    if items == [] then acc else Reduce(acc + LineAmount(items[0]), items[1..])
  }

  lemma {:induction false} SumPrepend(x: PricedItem, items: seq<PricedItem>)
    ensures Sum([x] + items) == LineAmount(x) + Sum(items)
  {
    var s := [x] + items;
    if items == [] {
      assert s[..|s| - 1] == [];
    } else {
      assert s[..|s| - 1] == [x] + items[..|items| - 1];
      assert s[|s| - 1] == items[|items| - 1];
      SumPrepend(x, items[..|items| - 1]);
    }
  }

  /** The fold from the front computes the reference total. */
  lemma {:induction false} ReduceIsSum(acc: int, items: seq<PricedItem>)
    ensures Reduce(acc, items) == acc + Sum(items)
    decreases |items|
  {
    if items != [] {
      ReduceIsSum(acc + LineAmount(items[0]), items[1..]);
      assert [items[0]] + items[1..] == items;
      SumPrepend(items[0], items[1..]);
    }
  }

  /** calculateTotal: the sum of quantity times unit price over the rows; 0 for no rows. */
  function CalculateTotal(items: seq<PricedItem>): (r: int)
    ensures r == Sum(items)
    ensures items == [] ==> r == 0
  {
    ReduceIsSum(0, items);
    Reduce(0, items)
  }

  /** The projection getCartWithDetails builds from a cart's rows: each row joined
      with the live product record, in the same order, and the total of the view. */
  function View(id: CartId, items: seq<CartItem>, products: Products): (v: CartView)
    requires forall i :: 0 <= i < |items| ==> items[i].productId in products
    ensures v.id == id && Unpriced(v.items) == items
    ensures forall i :: 0 <= i < |items| ==> v.items[i] == PricedItem(items[i], products[items[i].productId])
    ensures v.total == Sum(v.items)
    ensures items == [] ==> v.total == 0
  {
    var priced := seq(|items|, i requires 0 <= i < |items| => PricedItem(items[i], products[items[i].productId]));
    assert Unpriced(priced) == items;
    CartView(id, priced, CalculateTotal(priced))
  }

  // ---------------------------------------------------------------------------
  // Finding and counting rows

  /** The lookup by the (cart, product) index: the position of the first row of
      product `p`, or None when the cart has no such row. */
  function Find(items: seq<CartItem>, p: ProductId): (r: Option<nat>)
    ensures r.Some? ==> r.value < |items| && items[r.value].productId == p
    ensures r.Some? ==> forall j :: 0 <= j < r.value ==> items[j].productId != p
    ensures r.None? <==> forall j :: 0 <= j < |items| ==> items[j].productId != p
  {
    if items == [] then None
    else if items[0].productId == p then Some(0)
    else match Find(items[1..], p)
      case None => None
      case Some(k) => Some(k + 1)
  }

  /** How many units of product `p` the rows hold altogether (0 when none). */
  function QuantityOf(items: seq<CartItem>, p: ProductId): int {
    if items == [] then 0
    else
      var last := items[|items| - 1];
      QuantityOf(items[..|items| - 1], p) + (if last.productId == p then last.quantity else 0)
  }

  lemma {:induction false} QuantityOfAbsent(items: seq<CartItem>, p: ProductId)
    requires forall j :: 0 <= j < |items| ==> items[j].productId != p
    ensures QuantityOf(items, p) == 0
  {
    if items != [] {
      QuantityOfAbsent(items[..|items| - 1], p);
    }
  }

  /** With one row per product, the quantity of a product is that of its row. */
  lemma {:induction false} QuantityOfUnique(items: seq<CartItem>, k: nat)
    requires UniqueProducts(items)
    requires k < |items|
    ensures QuantityOf(items, items[k].productId) == items[k].quantity
  {
    var n := |items|;
    var prefix := items[..n - 1];
    if k == n - 1 {
      QuantityOfAbsent(prefix, items[k].productId);
    } else {
      assert prefix[k] == items[k];
      QuantityOfUnique(prefix, k);
    }
  }

  /** QuantityOf read through the index lookup. */
  lemma QuantityOfFind(items: seq<CartItem>, p: ProductId)
    requires UniqueProducts(items)
    ensures QuantityOf(items, p) == match Find(items, p) case Some(k) => items[k].quantity case None => 0
  {
    match Find(items, p)
    case Some(k) => QuantityOfUnique(items, k);
    case None => QuantityOfAbsent(items, p);
  }

  // ---------------------------------------------------------------------------
  // Adding to a cart

  /** The rows after adding `q` units of product `p`: its row grows by `q`, or,
      when the cart has no row for `p`, a new row goes last. */
  function Upsert(items: seq<CartItem>, p: ProductId, q: int): seq<CartItem> {
    match Find(items, p)
    case Some(k) => items[k := CartItem(p, items[k].quantity + q)]
    case None => items + [CartItem(p, q)]
  }

  /** Adding keeps one row per product, adds `q` to the quantity of `p`, leaves
      the quantity of every other product and every other row as it was. */
  lemma UpsertSpec(items: seq<CartItem>, p: ProductId, q: int)
    requires UniqueProducts(items)
    ensures UniqueProducts(Upsert(items, p, q))
    ensures Find(Upsert(items, p, q), p).Some?
    ensures QuantityOf(Upsert(items, p, q), p) == QuantityOf(items, p) + q
    ensures forall p' :: p' != p ==> QuantityOf(Upsert(items, p, q), p') == QuantityOf(items, p')
    ensures forall i :: 0 <= i < |items| && items[i].productId != p ==> Upsert(items, p, q)[i] == items[i]
    ensures |Upsert(items, p, q)| == |items| + (if Find(items, p).Some? then 0 else 1)
  {
    var r := Upsert(items, p, q);
    var k: nat;
    match Find(items, p) {
      case Some(k0) =>
        k := k0;
        assert r == items[k := CartItem(p, items[k].quantity + q)];
        QuantityOfUnique(items, k);
      case None =>
        k := |items|;
        assert r == items + [CartItem(p, q)];
        QuantityOfAbsent(items, p);
        assert r[..|r| - 1] == items;
    }
    assert r[k].productId == p;
    assert UniqueProducts(r);
    QuantityOfUnique(r, k);
    forall p' | p' != p
      ensures QuantityOf(r, p') == QuantityOf(items, p')
    {
      match Find(items, p') {
        case Some(j) =>
          QuantityOfUnique(items, j);
          assert r[j] == items[j];
          QuantityOfUnique(r, j);
        case None =>
          QuantityOfAbsent(items, p');
          QuantityOfAbsent(r, p');
      }
    }
  }

  /** Adding a positive quantity of an existing product to a well-formed cart keeps
      it well formed, and the cart then holds `q` more of that product. */
  lemma UpsertWellFormed(items: seq<CartItem>, p: ProductId, q: int, products: Products)
    requires WellFormed(items, products)
    requires p in products && q >= 1
    ensures WellFormed(Upsert(items, p, q), products)
    ensures QuantityOf(Upsert(items, p, q), p) == QuantityOf(items, p) + q
  {
    var r := Upsert(items, p, q);
    var positive := forall i :: 0 <= i < |r| ==> r[i].quantity >= 1 && r[i].productId in products;
    match Find(items, p) {
      case Some(k) =>
        assert r == items[k := CartItem(p, items[k].quantity + q)];
        assert positive;
      case None =>
        assert r == items + [CartItem(p, q)];
        assert positive;
    }
    UpsertSpec(items, p, q);
  }

  /** The lookup finds row `k` when that is the first row of product `p`. */
  lemma FindAt(items: seq<CartItem>, p: ProductId, k: nat)
    requires k < |items| && items[k].productId == p
    requires forall j :: 0 <= j < k ==> items[j].productId != p
    ensures Find(items, p) == Some(k)
  {
    var f := Find(items, p);
    assert f.Some?;
    assert !(f.value < k) && !(k < f.value);
  }

  /** Adding the same product twice gives the single row that adding both
      quantities at once gives. */
  lemma UpsertTwice(items: seq<CartItem>, p: ProductId, q1: int, q2: int)
    ensures Upsert(Upsert(items, p, q1), p, q2) == Upsert(items, p, q1 + q2)
  {
    var once := Upsert(items, p, q1);
    match Find(items, p) {
      case Some(k) =>
        assert once == items[k := CartItem(p, items[k].quantity + q1)];
        FindAt(once, p, k);
      case None =>
        assert once == items + [CartItem(p, q1)];
        FindAt(once, p, |items|);
        assert once[|items| := CartItem(p, q1 + q2)] == items + [CartItem(p, q1 + q2)];
    }
  }

  /** The check addItemToCart makes in two steps (the request alone, then the
      request on top of an existing row) is one check on the total quantity. */
  lemma AddStockCheck(items: seq<CartItem>, p: ProductId, q: int, stock: int)
    requires UniqueProducts(items)
    requires forall i :: 0 <= i < |items| ==> items[i].quantity >= 1
    ensures (stock < q || match Find(items, p) case Some(k) => stock < items[k].quantity + q case None => false)
            <==> stock < QuantityOf(items, p) + q
  {
    QuantityOfFind(items, p);
  }

  // ---------------------------------------------------------------------------
  // Removing from a cart

  /** The rows left after deleting every row of product `p` (a deleteMany on the
      cart and the product), the other rows keeping their order. */
  function Without(items: seq<CartItem>, p: ProductId): (r: seq<CartItem>)
    ensures |r| <= |items|
    ensures forall i :: 0 <= i < |r| ==> r[i].productId != p
    ensures forall x :: x in r <==> x in items && x.productId != p
  {
    if items == [] then []
    else if items[0].productId == p then Without(items[1..], p)
    else [items[0]] + Without(items[1..], p)
  }

  /** Deleting a product the cart does not hold deletes nothing. */
  lemma {:induction false} WithoutAbsent(items: seq<CartItem>, p: ProductId)
    requires forall j :: 0 <= j < |items| ==> items[j].productId != p
    ensures Without(items, p) == items
  {
    if items != [] {
      WithoutAbsent(items[1..], p);
      assert [items[0]] + items[1..] == items;
    }
  }

  /** With one row per product, deleting the product of row `k` deletes exactly row `k`. */
  lemma {:induction false} WithoutUnique(items: seq<CartItem>, k: nat)
    requires UniqueProducts(items)
    requires k < |items|
    ensures Without(items, items[k].productId) == items[..k] + items[k + 1..]
  {
    var p := items[k].productId;
    if k == 0 {
      WithoutAbsent(items[1..], p);
    } else {
      var tail := items[1..];
      assert tail[k - 1] == items[k];
      WithoutUnique(tail, k - 1);
      assert items[..k] + items[k + 1..] == [items[0]] + (tail[..k - 1] + tail[k..]);
    }
  }

  /** Deleting one row of a well-formed cart leaves a well-formed cart. */
  lemma RemoveAtWellFormed(items: seq<CartItem>, k: nat, products: Products)
    requires WellFormed(items, products)
    requires k < |items|
    ensures WellFormed(items[..k] + items[k + 1..], products)
  {
    var r := items[..k] + items[k + 1..];
    forall i | 0 <= i < |r|
      ensures r[i] == items[if i < k then i else i + 1]
    {
    }
  }
}
