# Cart and checkout of the rlstore backend, in Dafny

This project models the core of the rlstore e-commerce backend (NestJS over Prisma):

- **The cart service** (`src/cart/cart.service.ts`). It computes the priced cart view: each row with its product's live price, and the total of quantity × price. It runs lookup-or-create of carts. It performs four mutations: add an item, change a row's quantity, remove a product's row, and clear the cart.
- **The order workflow** (`src/orders/orders.service.ts`). `createOrder` turns a cart into a PENDING order inside one transaction. For each row it checks that the product exists and has the stock. It snapshots each line's price and sums the total, inserts the order, takes each row's quantity off its product's stock, and empties the cart. `findOrderById` is a lookup that fails NotFound.

The database is the class `Store.Database`. Its fields are the product table, the cart table (each cart's rows in insertion order) and the order table, plus two id generators. `Valid()` is the invariant that every service method keeps:

- no stock is negative;
- every cart holds at most one row per product, each with quantity ≥ 1, naming an existing product;
- every id in use lies below its generator, and each order is stored under its own id.

The services are methods over a `Database`; their `ensures` give the whole new state of the tables. Each database write the source makes becomes a small method of `Database`:

- `CreateCart`, for `cart.create`;
- `SetRows`, for the cart-row `create`, `update`, `delete` and `deleteMany`;
- `InsertOrder`, for `order.create`;
- `DecrementStock`, for the loop of `product.update` calls.

Pure parts are functions with lemmas. The row arithmetic lives in module `Carts`: total, lookup by product, upsert, delete. Classification of failures and the stock arithmetic of checkout live in module `Orders`.

Amounts are integers (prices in cents). Quantities and stock are unbounded integers.

Points where the code behaves differently from a clean design, each followed by the model:

- **`createOrder` on a cart id that does not resolve does not fail NotFound.** Lookup-or-create first adds a fresh empty cart (kept afterwards). Then the empty-cart check fails BadRequest. The substitution check at `src/orders/orders.service.ts:28` can never fire, because a substituted cart is always empty. `CreateOrder` proves this with an assertion and has no branch for it.
- **The transaction works from the cart view read before it began.** Each line's price comes from that view, not from the product re-read inside the transaction. Only existence and stock are re-read; the cart's rows are not re-read, the transaction iterates over that view. `Checkout` therefore takes the view as a parameter (`snapshot`), and its contract is stated over that view.
- **`addItemToCart` on an unknown cart id does not fail NotFound.** It adds to a fresh cart with another id. The ghost out-parameter `resolved` names the cart actually written.

## Model

| member | source | states |
|---|---|---|
| Catalog.FindOne | src/products/products.service.ts:41-49 | The product stored under the id, or NotFound exactly when no product has that id. |
| Carts.CalculateTotal | src/cart/cart.service.ts:18-20 | The reduce over the rows equals Sum, the sum of quantity × price over the rows, and is 0 for no rows. |
| Carts.ReduceIsSum | src/cart/cart.service.ts:18-20 | A left fold from any start value adds exactly Sum of the rows to that value. |
| Carts.View | src/cart/cart.service.ts:22-52 | The priced view keeps the cart id and its rows in order, pairs each row with the live product record of its product id, and has total Sum of the view's rows (0 for an empty cart). |
| Carts.Find | src/cart/cart.service.ts:93-100 | The (cart, product) lookup gives the first row of the product, or None exactly when no row names it. |
| Carts.QuantityOfFind | src/cart/cart.service.ts:93-100 | With one row per product, the total quantity of a product is its row's quantity, or 0 when the lookup finds no row. |
| Carts.UpsertSpec | src/cart/cart.service.ts:102-124 | Adding q of product p keeps one row per product. Afterwards p has a row, and the cart holds exactly q more of p. The quantity of every other product and every row of another product are unchanged. The length grows only when p was absent. |
| Carts.UpsertWellFormed | src/cart/cart.service.ts:102-124 | Adding a quantity ≥ 1 of an existing product to a well-formed cart keeps it well formed. |
| Carts.FindAt | src/cart/cart.service.ts:93-100 | The lookup returns k exactly when row k is the first row of the product. |
| Carts.UpsertTwice | src/cart/cart.service.ts:102-124 | Adding q1 and then q2 of a product gives the same rows as adding q1 + q2 once. |
| Carts.AddStockCheck | src/cart/cart.service.ts:86-90 | The two stock checks of addItemToCart (stock < q, then stock < existing + q) fail exactly when stock < quantity held + q. |
| Carts.Without | src/cart/cart.service.ts:173-175 | The deleteMany on (cart, product) keeps exactly the rows of other products: a row is in the result if and only if it was in the cart and names another product. The result is never longer. |
| Carts.WithoutUnique | src/cart/cart.service.ts:173-175 | With one row per product, the deleteMany removes exactly the product's row and keeps the order of the others. |
| Carts.WithoutAbsent | src/cart/cart.service.ts:173-179 | The deleteMany of a product the cart does not hold leaves the rows unchanged (count 0). |
| Carts.RemoveAtWellFormed | src/cart/cart.service.ts:151-152 | Deleting one row of a well-formed cart leaves it well formed. |
| Orders.Classify | src/orders/orders.service.ts:106-116 | NotFound, BadRequest and known persistence errors keep their kind. Any other failure becomes Internal, and Internal comes from nothing else. |
| Orders.OrderTotalOfLines | src/orders/orders.service.ts:56-61 | Order rows made one per view row, at the view's price, add up (price × quantity) to the view's total. |
| Orders.DecrementedStock | src/orders/orders.service.ts:84-94 | After the decrement, each row's product has lost exactly the row's quantity, and products without a row are unchanged. No stock is below zero, given the stock check passed. Names and prices are untouched. |
| Store.StockChangeKeepsCarts | src/orders/orders.service.ts:84-94 | A change of stock alone, leaving no stock negative, keeps every cart well formed. |
| Store.Database.CreateCart | src/cart/cart.service.ts:68 | Adds one empty cart under an id no cart had and changes nothing else. |
| Store.Database.SetRows | src/cart/cart.service.ts:110-190 | Replaces one cart's rows with well-formed rows and changes nothing else. It stands for every cart-row write: the update and create of lines 110-123, the delete of line 152, the deleteMany calls of lines 173-175 and 188-190, and checkout's deleteMany at src/orders/orders.service.ts:97-99. |
| Store.Database.InsertOrder | src/orders/orders.service.ts:65-82 | Adds one order with the given total, status and rows under an id no order had, and changes nothing else. |
| Store.Database.DecrementStock | src/orders/orders.service.ts:84-94 | Takes off every product's stock the quantity the rows hold of it. It keeps the invariant, so no stock goes negative, and it leaves carts and orders unchanged. |
| CartService.GetCartWithDetails | src/cart/cart.service.ts:22-52 | None exactly when the cart does not exist. Otherwise: the cart's id and rows in order, each with its live product, and the total Sum of the rows (0 for an empty cart). |
| CartService.FindOrCreateCart | src/cart/cart.service.ts:56-70 | An id that resolves gives that cart's view and changes nothing. Otherwise it adds exactly one empty cart under an id no cart had and returns its empty view (total 0). Products and orders are untouched. |
| CartService.AddItemToCart | src/cart/cart.service.ts:73-130 | Succeeds exactly when the product exists and the quantity held plus q is within its stock. Otherwise it fails NotFound (unknown product) or BadRequest (stock), with the cart's rows unchanged. On success the resolved cart's rows are the upsert, within stock. An unknown cart id leaves a fresh cart behind. Products and orders are untouched. |
| CartService.AddToResolvedCart | src/cart/cart.service.ts:84-129 | On an existing cart: NotFound for an unknown product, BadRequest for short stock, otherwise the upsert of the rows and their view. |
| CartService.UpdateCartItemQuantity | src/cart/cart.service.ts:132-165 | NotFound when the cart or the product's row is missing. A quantity ≤ 0 deletes exactly that row. BadRequest when the stock is below the new quantity. Otherwise the row's quantity becomes exactly the new one. Other rows, products and orders are unchanged, and every error changes nothing. |
| CartService.ChangeQuantity | src/cart/cart.service.ts:151-164 | For a found row k: delete it (quantity ≤ 0), fail BadRequest (stock below the new quantity, nothing changed), or set its quantity. |
| CartService.RemoveItemFromCart | src/cart/cart.service.ts:167-181 | Fails NotFound exactly when the cart is missing or holds no row of the product, changing nothing. Otherwise it deletes exactly that row, keeping the order of the others. |
| CartService.ClearCart | src/cart/cart.service.ts:183-193 | NotFound for a missing cart. Otherwise the cart stays with no rows and its view is empty with total 0. Products and orders are untouched. |
| OrdersService.PrepareOrderItems | src/orders/orders.service.ts:36-62 | Succeeds exactly when every row's product exists with enough stock, giving one order row per cart row, in order, at the view's price, with total Sum of the view. Otherwise it fails at the first bad row: NotFound for a missing product, BadRequest for short stock. |
| OrdersService.Checkout | src/orders/orders.service.ts:35-116 | All-or-nothing. It succeeds exactly when every row passes the checks, and then commits one PENDING order (rows and total from the view), the stock decrement and the emptied cart. Otherwise it returns the first failing row's kind with every table unchanged. The invariant (no negative stock) holds after it. |
| OrdersService.CommittedTotal | src/orders/orders.service.ts:61-73 | The totalAmount of a committed order equals price × quantity summed over the order's own rows. |
| OrdersService.CreateOrder | src/orders/orders.service.ts:20-117 | An unresolved id leaves one fresh empty cart and fails BadRequest. An empty cart fails BadRequest with nothing changed. A non-empty cart is checked out from its current view. It succeeds exactly when every row has the stock, and afterwards the new order can be looked up by its id. Otherwise it fails BadRequest at the first short row with every table unchanged; NotFound cannot arise, because every cart row names an existing product. |
| OrdersService.FindOrderById | src/orders/orders.service.ts:119-135 | The stored order under that id, or NotFound exactly when there is none. |

## Left out

- Controllers, Swagger decorators, module wiring and `main.ts`: HTTP routing with no logic of the core.
- DTO validation. The add quantity minimum of 1 is a precondition of `AddItemToCart`. `UpdateCartItemQuantity` accepts any integer and models the removal branch for ≤ 0. `createOrder`'s required cart id is the parameter type.
- Auth, users, password hashing and JWT: foreign library calls outside the core.
- Product create, update, delete and search, with their unique-constraint error codes: CRUD glue outside the core. The catalogue is the constructor's parameter. Because no product is deleted, a cart row always names an existing product, and the view needs no missing-product case.
- Concurrency and transaction isolation. Each service call is one atomic step, and the transaction is all-or-nothing. Interleaved checkouts and row locking are not modelled.
- Floating point. `Number(price)` turns a decimal into a float. Prices are natural numbers (cents), so totals are exact.
- Ids and time. UUIDs are natural numbers from a counter, so a new id is one never handed out. Cart rows are ordered by insertion, standing for `createdAt` order. The empty-string cart id that JavaScript treats as absent has no counterpart.
- Logging (`console.error`) and the texts of error messages: only the error kind is modelled.
- Persistence failures. The in-memory store never fails, so the Internal path of createOrder's catch block is reachable only through `Orders.Classify`, which is modelled on its own.
- The check at `src/cart/cart.service.ts:81` (`if (!cart)` after lookup-or-create): lookup-or-create always gives a cart, so the model has no such branch.
- The product and image fields of the returned views (`imageUrl`, `sku`, the selected product columns of the order's rows) are not modelled; an order row carries product id, quantity and price.
- Order states other than PENDING: nothing in the core sets them.
