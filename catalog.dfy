/** The product table, as the cart and order workflows read it. */
module Catalog {
  import opened Errors

  type ProductId = string

  /** A product row. `price` is in integer cents; `stock` is the number of units available. */
  datatype Product = Product(name: string, price: nat, stock: int)

  type Products = map<ProductId, Product>

  /** ProductsService.findOne: the product with this id, or NotFound when there is none. */
  function FindOne(products: Products, id: ProductId): (r: Result<Product>)
    ensures r.Ok? <==> id in products
    ensures r.Ok? ==> r.value == products[id]
    ensures r.Err? ==> r.error == NotFound
  {
    if id in products then Ok(products[id]) else Err(NotFound)
  }
}
