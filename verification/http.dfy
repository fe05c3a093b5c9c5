/**
 * The request/response surface of the views, abstracted: a view either renders a
 * page, redirects to a named route, or fails with a 404 (`get_object_or_404`).
 * Templates, flash messages and the HTTP encoding of redirects are not modelled.
 */
module Http {

  /** The request method as the views test it: only `POST` is distinguished. */
  datatype Method = Get | Post

  /** The named routes the views redirect to. */
  datatype Route =
    | ToProductList
    | ToPlaceOrder
    | ToOrderConfirmation(orderId: nat)
    | ToLogin

  /** What a view answers. */
  datatype Response<+P> = Render(page: P) | Redirect(to: Route) | NotFound

  /** A view's answer together with the state it leaves behind (the session cart or the catalog). */
  datatype Step<+P, +S> = Step(response: Response<P>, state: S)
}
