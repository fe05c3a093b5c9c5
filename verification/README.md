# Storefront cart and checkout, modelled in Dafny

This project models the session cart, the checkout and order flow, and the staff-only
product deletion, update and creation of a small Django storefront
(`myprojectonefinal/myapp/views.py`). It is written as pure functions over two values:

- the **session cart**: a Python dict from product id (a string) to quantity;
- the **catalog**: the `Product` table, keyed by the same string id, with prices in integer cents.

A Python dict has unique keys and iterates in insertion order. `Cart.Cart` is therefore a
sequence of `Entry(id, qty)` with unique ids, and `Cart.View` is the finite map it denotes.
`Cart.Put` models `cart[k] = v`: an existing key keeps its position and a new key is appended.
`Cart.Delete` models `del cart[k]`: the other entries keep their order. Cart contracts are
stated on the map (`View`) and on the key order (`Ids`). The cart listing and checkout keep
the dict's iteration order.

A view's answer is abstracted to `Http.Response`, which is one of:

- `Render(page)`: the data handed to the template;
- `Redirect(route)`: a redirect to a named route;
- `NotFound`: the 404 raised by `get_object_or_404`.

The admin views and `place_order` return `Http.Step(response, newState)`. The three cart
views return only the new cart, because their redirect is fixed. The request method is
`Get | Post`, and every method other than POST takes the GET branch, as in the source.
A failed `user_passes_test(admin_required)` redirects to the login page
(`Redirect(ToLogin)`). Validation by `ProductForm` happens outside this model: its outcome is
the parameter `form: Option<Product>`, with `None` for an invalid form. The key the database
assigns to a new product is the parameter `freshId`.

Modules: `Wrappers` (Option), `Http` (responses), `Catalog` (the Product row and table),
`Cart` (the three cart views), `Checkout` (listing, checkout, order placement, confirmation),
`Admin` (the guard and product management), `Flows` (properties across views).

Behaviour of the views worth spelling out:

- On an empty cart, `place_order` redirects to the product list.
- A non-staff user is redirected to the login page.
- `order_confirmation_view` never fails. It ignores the order id and shows two fixed sample
  rows with a total of 40.
- A quantity of 1 or more is an invariant only of carts built by the cart views from an
  empty cart (`Cart.SessionCartPositive`). Nothing in the views validates a stored cart.
- `DecimalField` does not forbid negative prices, so a price is an unbounded `int` number
  of cents. `Catalog.FitsColumns` records the column's ten-digit bound, but no view
  requires it; only `Admin.AdminKeepsWellFormed` assumes it of the forms.

## Model

| member | source | states |
|---|---|---|
| Cart.Put | myprojectonefinal/myapp/views.py:72 | dict assignment: the map gains `k := v`; an existing key keeps its place in the iteration order, a new key is appended last |
| Cart.Delete | myprojectonefinal/myapp/views.py:82 | `del`: the map loses exactly `k`, and the result is the cart with that one entry cut out, so the others keep their order |
| Cart.AddToCart | myprojectonefinal/myapp/views.py:67-75 | a non-empty id ends up with quantity old-or-0 plus 1, every other key keeps its quantity, and a new id goes last; a missing or empty id leaves the cart unchanged; the catalog is never consulted; positive quantities stay positive |
| Cart.RemoveFromCart | myprojectonefinal/myapp/views.py:77-85 | the map loses the id if it was a key, and nothing else changes; the remaining keys keep their order (the entry is spliced out at its index); an absent or missing id is a no-op; the size drops by exactly one when a key is removed |
| Cart.UpdateCart | myprojectonefinal/myapp/views.py:87-100 | for a key: a positive quantity (default 1) replaces the quantity in place, and 0 or less deletes the key, splicing its entry out so the remaining keys keep their order; every other key is unchanged; an absent or missing id leaves the cart unchanged |
| Cart.Apply | myprojectonefinal/myapp/urls.py:21-23 | dispatching one cart request keeps every stored quantity at least 1 |
| Cart.RunKeepsPositive | myprojectonefinal/myapp/views.py:67-100 | after any sequence of add, remove and update requests, a cart whose quantities were at least 1 still has only quantities of at least 1 |
| Cart.SessionCartPositive | myprojectonefinal/myapp/views.py:70-72 | a cart built from the empty session cart by any sequence of requests stores only quantities of at least 1 |
| Cart.AddRepeated | myprojectonefinal/myapp/views.py:71-73 | adding a product n times raises its quantity by exactly n |
| Cart.AddTwiceToEmpty | myprojectonefinal/myapp/views.py:71-73 | adding the same id twice to an empty cart gives that id alone, with quantity 2 |
| Cart.UpdateNonPositiveIsRemove | myprojectonefinal/myapp/views.py:96-98 | an update to 0 or less has exactly the effect of a removal |
| Cart.RemoveIdempotent | myprojectonefinal/myapp/views.py:81-83 | removing the same id twice is the same as removing it once |
| Checkout.Resolve | myprojectonefinal/myapp/views.py:106-111 | looking up every entry succeeds if and only if every id is in the catalog; on success it gives one row per entry, in cart order, holding that product and quantity |
| Checkout.ResolvableIffKnown | myprojectonefinal/myapp/views.py:106-107 | every entry resolves if and only if every key of the cart's map is a catalog key |
| Checkout.GetCart | myprojectonefinal/myapp/views.py:102-112 | the listing is a 404 if and only if some cart key is missing from the catalog; otherwise it has one row per entry, in cart order, with that product and the cart's quantity for it |
| Checkout.CheckoutView | myprojectonefinal/myapp/views.py:114-131 | a 404 if and only if some id is unknown; otherwise a POST redirects to order placement, and any other method renders one priced row per entry (line total = price x quantity) and a total equal to the sum of price x quantity over the cart |
| Checkout.PlaceOrder | myprojectonefinal/myapp/views.py:133-155 | an empty cart redirects to the product list; a 404 if and only if the cart is non-empty and has an unknown id; the redirect to the confirmation of order 1 happens if and only if the cart is non-empty and fully resolvable; the cart changes only then, and it becomes empty |
| Checkout.OrderConfirmationView | myprojectonefinal/myapp/views.py:157-170 | echoes the order id, shows the two fixed sample rows, and its total is their sum of quantity x price, which is 40 |
| Checkout.ConfirmationIgnoresOrderId | myprojectonefinal/myapp/views.py:159-164 | the confirmation's rows and total are the same for every order id |
| Checkout.TotalPut | myprojectonefinal/myapp/views.py:119-126 | after a dict assignment of a known product, the cart stays resolvable and its total equals the old total with that product's old line total (price x old quantity, 0 if absent) swapped for price x the new quantity |
| Checkout.TotalDelete | myprojectonefinal/myapp/views.py:119-126 | deleting a key of a resolvable cart keeps it resolvable and takes exactly that entry's price x quantity off the total |
| Checkout.TotalAfterAdd | myprojectonefinal/myapp/views.py:119-126 | adding a known product keeps the cart resolvable and raises the checkout total by exactly its price |
| Checkout.TotalAfterRemove | myprojectonefinal/myapp/views.py:119-126 | removing a product lowers the total by its line total; removing an absent id leaves the total unchanged |
| Checkout.TotalAfterUpdate | myprojectonefinal/myapp/views.py:119-126 | updating a key to q replaces its line total price x old quantity by price x q when q > 0, and drops it when q <= 0; an absent id leaves the total unchanged |
| Checkout.TotalAfterPositiveUpdate | myprojectonefinal/myapp/views.py:92-93 | a positive update of a key replaces its line total price x old quantity by price x q |
| Checkout.TotalExample | myprojectonefinal/myapp/views.py:124-126 | two units at 10.00 and one at 20.00 total 40.00 (4000 cents) |
| Admin.ProductDelete | myprojectonefinal/myapp/views.py:225-233 | a non-staff user is sent to login; a 404 if and only if a staff user names an unknown id; the catalog changes if and only if the user is staff, the id exists and the method is POST, and then exactly that row goes; for a staff user and an existing id, a POST redirects to the product list and any other method shows the confirmation page for that product |
| Admin.ProductUpdate | myprojectonefinal/myapp/views.py:209-223 | a non-staff user is sent to login; a 404 if and only if a staff user names an unknown id; only a staff POST with a valid form replaces that one row; otherwise the catalog is unchanged; the set of ids never changes |
| Admin.ProductCreate | myprojectonefinal/myapp/views.py:194-207 | a non-staff user is sent to login; the catalog changes if and only if a staff user POSTs a valid form, and then it gains exactly the new row under its fresh key; never a 404 |
| Admin.AdminRequired | myprojectonefinal/myapp/views.py:12-14 | a user passes the admin test if and only if the user is staff |
| Admin.GuardDecidesLoginRedirect | myprojectonefinal/myapp/views.py:194-195 | each of create, update and delete redirects to login exactly when the user is not staff (the same decorator guards all three views) |
| Admin.NonStaffNeverMutates | myprojectonefinal/myapp/views.py:12-14 | for a non-staff user, create, update and delete all redirect to login and leave the catalog unchanged |
| Admin.AdminKeepsWellFormed | myprojectonefinal/myapp/models.py:5-6 | if a valid form only yields rows within the column limits, the admin views keep every row within them |
| Flows.PlacedOrderEmptiesCart | myprojectonefinal/myapp/views.py:150-151 | after a placed order the cart lists as empty, and placing again only redirects to the product list |
| Flows.PlaceOrderAgreesWithListing | myprojectonefinal/myapp/views.py:144-145 | for a non-empty cart, order placement is a 404 exactly when the cart listing is |
| Flows.UnknownIdBreaksCart | myprojectonefinal/myapp/views.py:69-73 | adding an id that is not in the catalog is accepted, after which the listing and order placement are 404s |
| Flows.DeletedProductBreaksCart | myprojectonefinal/myapp/views.py:228-230 | after a staff member deletes a product that is in a cart, that cart's listing is a 404 and placing its order is a 404 that leaves the cart unchanged |

## Left out

- Signup, login, logout, profile and `is_logged_in` (views.py:21-60, 177-180) are left out. They only call Django's authentication framework.
- `index`, `cart`, `some_view`, `product_list` and `product_detail` are left out. Each only renders a template or reads the catalog.
- Templates, flash messages, the HTTP form of redirects and session persistence are left out. Responses are abstract.
- Cart.AddToCart: returns only the new cart. The fixed redirect of `add_to_cart` (product list) is not modelled.
- Cart.RemoveFromCart: returns only the new cart. The fixed redirect of `remove_from_cart` (cart page) is not modelled.
- Cart.UpdateCart: returns only the new cart. Its fixed redirect (cart page) is not modelled. The quantity arrives already parsed, so the `ValueError` that `int()` raises on non-numeric text is not modelled.
- Checkout.PlaceOrder: the total and the text lines that `place_order` computes and then discards are not produced. Only the lookups that can fail with a 404 are kept.
- Product ids are strings in both the cart and the catalog. `get_object_or_404` coerces a string to the integer key, and the URL patterns take an integer `pk`; neither is modelled. The `ValueError` for a non-numeric id is therefore not modelled.
- `Decimal` arithmetic is replaced by exact integer cents. The two part ways for large
  numbers: Python's `Decimal` multiplication rounds to 28 significant digits by default,
  and `update_cart` accepts any quantity. So `price * quantity` in `checkout_view` and
  `place_order` (views.py:124-126, 146-147) can round in the source, while
  `Checkout.CartTotal` stays exact.
- The product image upload is not modelled. `Catalog.DEFAULT_IMAGE` records the default path.
- `ProductForm` (forms.py) is not part of this model. Its verdict is the `form` parameter, and its field errors are not modelled.
- Concurrent requests on one session (last write wins) are not modelled. The model is sequential.
