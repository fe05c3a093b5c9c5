/** Properties of several views used one after another on one session and one catalog. */
module Flows {
  import opened Wrappers
  import opened Http
  import opened Catalog
  import opened Cart
  import opened Checkout
  import opened Admin

  /** After a placed order the cart lists nothing, and placing again only redirects. */
  lemma PlacedOrderEmptiesCart(c: Cart, catalog: Store)
    requires PlaceOrder(c, catalog).response == Redirect(ToOrderConfirmation(ORDER_ID))
    ensures GetCart(PlaceOrder(c, catalog).state, catalog) == Render([])
    ensures PlaceOrder(PlaceOrder(c, catalog).state, catalog) == Step(Redirect(ToProductList), [])
  {
  }

  /** Placing a non-empty order fails exactly when listing the cart fails. */
  lemma PlaceOrderAgreesWithListing(c: Cart, catalog: Store)
    requires c != []
    ensures PlaceOrder(c, catalog).response.NotFound? <==> GetCart(c, catalog).NotFound?
  {
  }

  /** Adding an id the catalog lacks is accepted, but from then on the cart cannot be listed
      nor the order placed, until that id is removed. */
  lemma UnknownIdBreaksCart(c: Cart, k: string, catalog: Store)
    requires k != "" && k !in catalog
    ensures GetCart(AddToCart(c, Some(k)), catalog).NotFound?
    ensures PlaceOrder(AddToCart(c, Some(k)), catalog).response.NotFound?
  {
  }

  /** Deleting a product that is in a cart leaves that cart unlistable and unorderable. */
  lemma DeletedProductBreaksCart(u: User, pk: ProductId, c: Cart, catalog: Store)
    requires u.isStaff && pk in catalog && pk in View(c)
    ensures GetCart(c, ProductDelete(u, Post, pk, catalog).state).NotFound?
    ensures PlaceOrder(c, ProductDelete(u, Post, pk, catalog).state) == Step(NotFound, c)
  {
  }
}
