/**
 * Staff-only product management: `admin_required` behind `user_passes_test`, and the
 * `product_create`, `product_update` and `product_delete` views. A failing guard
 * redirects to the login page before the view body runs. `ProductForm` validation
 * is outside this model: its outcome arrives as `form`, `None` for an invalid form.
 */
module Admin {
  import opened Wrappers
  import opened Http
  import opened Catalog

  /** The requesting user, as far as the guard looks at it. */
  datatype User = User(isStaff: bool)

  /** The page a product view renders. */
  datatype ProductPage =
    | ProductForm(instance: Option<Product>)
    | ConfirmDelete(product: Product)

  /** `admin_required`: the test `user_passes_test` applies before every admin view. */
  function AdminRequired(u: User): (pass: bool)
    ensures pass <==> u.isStaff
  {
    u.isStaff
  }

  /** `product_delete`: staff only; a 404 for an unknown id; a POST deletes the row, any
      other method shows the confirmation page. */
  function ProductDelete(u: User, m: Method, pk: ProductId, catalog: Store): (r: Step<ProductPage, Store>)
    ensures !AdminRequired(u) ==> r.response == Redirect(ToLogin)
    ensures r.response.NotFound? <==> AdminRequired(u) && pk !in catalog
    ensures r.state != catalog <==> AdminRequired(u) && pk in catalog && m == Post
    ensures pk in catalog ==> (pk !in r.state <==> AdminRequired(u) && m == Post)
    ensures r.state - {pk} == catalog - {pk}
    ensures r.response.Render? ==> pk in catalog && r.response.page == ConfirmDelete(catalog[pk])
    ensures AdminRequired(u) && pk in catalog ==>
      r.response == (if m == Post then Redirect(ToProductList) else Render(ConfirmDelete(catalog[pk])))
  {
    if !AdminRequired(u) then Step(Redirect(ToLogin), catalog)
    else if pk !in catalog then Step(NotFound, catalog)
    else if m == Post then
      var s := catalog - {pk};
      assert s - {pk} == catalog - {pk};
      Step(Redirect(ToProductList), s)
    else Step(Render(ConfirmDelete(catalog[pk])), catalog)
  }

  /** `product_update`: staff only; a 404 for an unknown id; a POST with a valid form
      overwrites that row, anything else shows the form for the current row. */
  function ProductUpdate(u: User, m: Method, pk: ProductId, form: Option<Product>, catalog: Store)
    : (r: Step<ProductPage, Store>)
    ensures !AdminRequired(u) ==> r.response == Redirect(ToLogin)
    ensures r.response.NotFound? <==> AdminRequired(u) && pk !in catalog
    ensures r.response == Redirect(ToProductList) <==> AdminRequired(u) && pk in catalog && m == Post && form.Some?
    ensures r.response == Redirect(ToProductList) ==> r.state == catalog[pk := form.value]
    ensures r.response != Redirect(ToProductList) ==> r.state == catalog
    ensures r.state.Keys == catalog.Keys
  {
    if !AdminRequired(u) then Step(Redirect(ToLogin), catalog)
    else if pk !in catalog then Step(NotFound, catalog)
    else if m == Post && form.Some? then Step(Redirect(ToProductList), catalog[pk := form.value])
    else Step(Render(ProductForm(Some(catalog[pk]))), catalog)
  }

  /** `product_create`: staff only; a POST with a valid form stores the product under the
      key the database assigns (`freshId`), anything else shows the form. */
  function ProductCreate(u: User, m: Method, form: Option<Product>, freshId: ProductId, catalog: Store)
    : (r: Step<ProductPage, Store>)
    requires freshId !in catalog
    ensures !AdminRequired(u) ==> r.response == Redirect(ToLogin)
    ensures !r.response.NotFound?
    ensures r.state != catalog <==> AdminRequired(u) && m == Post && form.Some?
    ensures r.state != catalog ==> r.state.Keys == catalog.Keys + {freshId} && r.state[freshId] == form.value
    ensures r.state - {freshId} == catalog
  {
    if !AdminRequired(u) then Step(Redirect(ToLogin), catalog)
    else if m == Post && form.Some? then
      var s := catalog[freshId := form.value];
      assert freshId in s && freshId !in catalog;
      assert s - {freshId} == catalog;
      Step(Redirect(ToProductList), s)
    else Step(Render(ProductForm(None)), catalog)
  }

  /** A user who is not staff never changes the catalog, whatever the request. */
  lemma NonStaffNeverMutates(u: User, m: Method, pk: ProductId, form: Option<Product>, freshId: ProductId, catalog: Store)
    requires !u.isStaff && freshId !in catalog
    ensures ProductDelete(u, m, pk, catalog) == Step(Redirect(ToLogin), catalog)
    ensures ProductUpdate(u, m, pk, form, catalog) == Step(Redirect(ToLogin), catalog)
    ensures ProductCreate(u, m, form, freshId, catalog) == Step(Redirect(ToLogin), catalog)
  {
  }

  /** The guard decides the login redirect: each admin view sends exactly the non-staff
      users to the login page, and a staff user never sees it. */
  lemma GuardDecidesLoginRedirect(u: User, m: Method, pk: ProductId, form: Option<Product>, freshId: ProductId, catalog: Store)
    requires freshId !in catalog
    ensures ProductDelete(u, m, pk, catalog).response == Redirect(ToLogin) <==> !u.isStaff
    ensures ProductUpdate(u, m, pk, form, catalog).response == Redirect(ToLogin) <==> !u.isStaff
    ensures ProductCreate(u, m, form, freshId, catalog).response == Redirect(ToLogin) <==> !u.isStaff
  {
  }

  /** The admin views keep every row within its column limits, given that a valid form only
      yields such rows. */
  lemma AdminKeepsWellFormed(u: User, m: Method, pk: ProductId, form: Option<Product>, freshId: ProductId, catalog: Store)
    requires WellFormed(catalog) && freshId !in catalog
    requires form.Some? ==> FitsColumns(form.value)
    ensures WellFormed(ProductDelete(u, m, pk, catalog).state)
    ensures WellFormed(ProductUpdate(u, m, pk, form, catalog).state)
    ensures WellFormed(ProductCreate(u, m, form, freshId, catalog).state)
  {
  }
}
