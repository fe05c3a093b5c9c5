/**
 * Cart listing, checkout and order placement: `get_cart`, `checkout_view`,
 * `place_order` and `order_confirmation_view`. Every cart entry is looked up in
 * the catalog with `get_object_or_404`, so one stale id turns the whole view
 * into a 404.
 */
module Checkout {
  import opened Wrappers
  import opened Http
  import opened Catalog
  import opened Cart

  /** One row of the cart listing. */
  datatype Line = Line(product: Product, quantity: int)

  /** One row of the checkout preview, with its line total in cents. */
  datatype PricedLine = PricedLine(product: Product, quantity: int, total: int)

  /** What `checkout.html` shows. */
  datatype CheckoutPage = CheckoutPage(lines: seq<PricedLine>, total: int)

  /** Every id of the cart names a product of the catalog. */
  predicate Resolvable(c: seq<Entry>, catalog: Store) {
    forall i :: 0 <= i < |c| ==> c[i].id in catalog
  }

  /** price x quantity of one entry, in cents. */
  function Cost(catalog: Store, e: Entry): int
    requires e.id in catalog
  {
    catalog[e.id].price * e.qty
  }

  /** The order total: the sum of price x quantity over the entries. */
  function CartTotal(c: seq<Entry>, catalog: Store): int
    requires Resolvable(c, catalog)
    decreases |c|
  {
    if c == [] then 0 else Cost(catalog, c[0]) + CartTotal(c[1..], catalog)
  }

  /** The loop over `cart.items()` with `get_object_or_404` on each id. */
  function Resolve(c: seq<Entry>, catalog: Store): (r: Option<seq<Line>>)
    ensures r.Some? <==> Resolvable(c, catalog)
    ensures r.Some? ==> |r.value| == |c|
    ensures r.Some? ==> forall i :: 0 <= i < |c| ==> r.value[i] == Line(catalog[c[i].id], c[i].qty)
    decreases |c|
  {
    if c == [] then Some([])
    else if c[0].id !in catalog then None
    else
      match Resolve(c[1..], catalog)
      case None =>
        assert !Resolvable(c, catalog) by {
          var i :| 0 <= i < |c[1..]| && c[1..][i].id !in catalog;
          assert c[i + 1].id !in catalog;
        }
        None
      case Some(rest) =>
        Some([Line(catalog[c[0].id], c[0].qty)] + rest)
  }

  /** Stale entries are exactly the keys of the cart's map that the catalog lacks. */
  lemma ResolvableIffKnown(c: seq<Entry>, catalog: Store)
    ensures Resolvable(c, catalog) <==> forall k :: k in View(c) ==> k in catalog
  {
    forall k ensures k in View(c) <==> k in Ids(c) {
      ViewKeys(c, k);
    }
    IdsIndex(c);
  }

  /** `get_cart`: the listing of every entry with its product, in cart order, or a 404
      as soon as one id has no product. */
  function GetCart(c: Cart, catalog: Store): (r: Response<seq<Line>>)
    ensures r.NotFound? <==> exists k :: k in View(c) && k !in catalog
    ensures r.Render? ==> Resolvable(c, catalog) && |r.page| == |c|
    ensures r.Render? ==> forall i :: 0 <= i < |c| ==> r.page[i] == Line(catalog[c[i].id], c[i].qty)
    ensures r.Render? ==> forall i :: 0 <= i < |c| ==>
      c[i].id in View(c) && r.page[i].quantity == View(c)[c[i].id]
    ensures !r.Redirect?
  {
    ResolvableIffKnown(c, catalog);
    ViewValues(c);
    match Resolve(c, catalog)
    case None => NotFound
    case Some(lines) => Render(lines)
  }

  /** `checkout_view`: prices every entry (a 404 if one id has no product); a POST then
      redirects to order placement, any other method renders the lines and their total. */
  method CheckoutView(c: Cart, catalog: Store, m: Method) returns (r: Response<CheckoutPage>)
    ensures r.NotFound? <==> !Resolvable(c, catalog)
    ensures r.Redirect? <==> Resolvable(c, catalog) && m == Post
    ensures r.Redirect? ==> r.to == ToPlaceOrder
    ensures r.Render? ==> m == Get && Resolvable(c, catalog)
    ensures r.Render? ==> r.page.total == CartTotal(c, catalog)
    ensures r.Render? ==> |r.page.lines| == |c| && forall i :: 0 <= i < |c| ==>
      r.page.lines[i] == PricedLine(catalog[c[i].id], c[i].qty, catalog[c[i].id].price * c[i].qty)
  {
    var lines: seq<PricedLine> := [];
    var total := 0;
    var i := 0;
    while i < |c|
      invariant 0 <= i <= |c|
      invariant forall j :: 0 <= j < i ==> c[j].id in catalog
      invariant |lines| == i
      invariant forall j :: 0 <= j < i ==>
        lines[j] == PricedLine(catalog[c[j].id], c[j].qty, catalog[c[j].id].price * c[j].qty)
      invariant Resolvable(c[i..], catalog) ==> total + CartTotal(c[i..], catalog) == CartTotal(c, catalog)
      decreases |c| - i
    {
      var e := c[i];
      if e.id !in catalog {
        return NotFound;
      }
      assert c[i..][0] == e && c[i..][1..] == c[i + 1..];
      if Resolvable(c[i + 1..], catalog) {
        TotalCons(c[i..], catalog);
      }
      lines := lines + [PricedLine(catalog[e.id], e.qty, catalog[e.id].price * e.qty)];
      total := total + catalog[e.id].price * e.qty;
      i := i + 1;
    }
    assert c[i..] == [];
    if m == Post {
      return Redirect(ToPlaceOrder);
    }
    return Render(CheckoutPage(lines, total));
  }

  /** The order id `place_order` redirects with: always 1, as no order is stored. */
  const ORDER_ID: nat := 1

  /** `place_order`: an empty cart redirects to the product list; otherwise every entry is
      looked up (a 404 leaves the cart as it was) and only then is the cart emptied and the
      browser sent to the confirmation of order 1. The computed total is discarded. */
  function PlaceOrder(c: Cart, catalog: Store): (r: Step<(), Cart>)
    ensures c == [] ==> r.response == Redirect(ToProductList)
    ensures r.response.NotFound? <==> c != [] && exists k :: k in View(c) && k !in catalog
    ensures r.response == Redirect(ToOrderConfirmation(ORDER_ID)) <==> c != [] && Resolvable(c, catalog)
    ensures r.state != c <==> c != [] && Resolvable(c, catalog)
    ensures r.state == c || r.state == []
  {
    ResolvableIffKnown(c, catalog);
    if c == [] then Step(Redirect(ToProductList), c)
    else if Resolve(c, catalog).None? then Step(NotFound, c)
    else Step(Redirect(ToOrderConfirmation(ORDER_ID)), [])
  }

  /** One of the fixed rows `order_confirmation_view` shows; the price is a plain integer. */
  datatype SampleItem = SampleItem(name: string, quantity: int, price: int)

  /** What `order_confirmation.html` shows. */
  datatype ConfirmationPage = ConfirmationPage(orderId: nat, details: seq<SampleItem>, total: int)

  /** The rows every confirmation shows, whatever the order id. */
  const SAMPLE_DETAILS: seq<SampleItem> :=
    [SampleItem("Sample Product 1", 2, 10), SampleItem("Sample Product 2", 1, 20)]

  /** The sum of quantity x price over the rows. */
  function ItemsTotal(items: seq<SampleItem>): int
    decreases |items|
  {
    if items == [] then 0 else items[0].quantity * items[0].price + ItemsTotal(items[1..])
  }

  /** `order_confirmation_view`: echoes the id but shows the fixed sample rows, whose total is 40. */
  function OrderConfirmationView(orderId: nat): (r: ConfirmationPage)
    ensures r.orderId == orderId
    ensures r.details == SAMPLE_DETAILS
    ensures r.total == ItemsTotal(r.details) == 40
  {
    ConfirmationPage(orderId, SAMPLE_DETAILS, ItemsTotal(SAMPLE_DETAILS))
  }

  /** The confirmation's rows and total do not depend on the order id. */
  lemma ConfirmationIgnoresOrderId(a: nat, b: nat)
    ensures OrderConfirmationView(a).details == OrderConfirmationView(b).details
    ensures OrderConfirmationView(a).total == OrderConfirmationView(b).total
  {
  }

  /** Overwriting or appending one entry swaps that entry's line total for the new one. */
  lemma {:induction false} TotalPut(c: Cart, k: string, v: int, catalog: Store)
    requires Resolvable(c, catalog) && k in catalog
    ensures Resolvable(Put(c, k, v), catalog)
    ensures CartTotal(Put(c, k, v), catalog) + Cost(catalog, Entry(k, QuantityOf(c, k)))
         == CartTotal(c, catalog) + Cost(catalog, Entry(k, v))
    decreases |c|
  {
    var r := Put(c, k, v);
    if c == [] {
      assert r == [Entry(k, v)];
      TotalCons(r, catalog);
    } else {
      ResolvableTail(c, catalog);
      assert r[1..] == (if c[0].id == k then c[1..] else Put(c[1..], k, v));
      if c[0].id == k {
        assert r[0] == Entry(k, v);
        assert QuantityOf(c, k) == c[0].qty;
      } else {
        assert r[0] == c[0];
        TotalPut(c[1..], k, v, catalog);
        assert QuantityOf(c, k) == QuantityOf(c[1..], k);
      }
      TotalCons(r, catalog);
    }
  }

  /** Deleting an entry takes its line total off the cart total. */
  lemma {:induction false} TotalDelete(c: Cart, k: string, catalog: Store)
    requires Resolvable(c, catalog) && k in View(c)
    ensures k in catalog
    ensures Resolvable(Delete(c, k), catalog)
    ensures CartTotal(Delete(c, k), catalog) + Cost(catalog, Entry(k, QuantityOf(c, k))) == CartTotal(c, catalog)
    decreases |c|
  {
    ViewKeys(c, k);
    var r := Delete(c, k);
    ResolvableTail(c, catalog);
    if c[0].id == k {
      assert r == c[1..];
      assert QuantityOf(c, k) == c[0].qty;
    } else {
      ViewKeys(c[1..], k);
      var tail := Delete(c[1..], k);
      TotalDelete(c[1..], k, catalog);
      assert r[0] == c[0] && r[1..] == tail;
      TotalCons(r, catalog);
      assert QuantityOf(c, k) == QuantityOf(c[1..], k);
    }
  }

  lemma ResolvableTail(c: seq<Entry>, catalog: Store)
    requires c != [] && Resolvable(c, catalog)
    ensures c[0].id in catalog && Resolvable(c[1..], catalog)
  {
    assert forall i :: 0 <= i < |c[1..]| ==> c[1..][i] == c[i + 1];
  }

  /** A cart resolves when its head and its tail do, and its total splits the same way. */
  lemma TotalCons(r: seq<Entry>, catalog: Store)
    requires r != [] && r[0].id in catalog && Resolvable(r[1..], catalog)
    ensures Resolvable(r, catalog)
    ensures CartTotal(r, catalog) == Cost(catalog, r[0]) + CartTotal(r[1..], catalog)
  {
    assert forall i :: 1 <= i < |r| ==> r[i] == r[1..][i - 1];
  }

  /** One more unit costs one more price. */
  lemma CostStep(catalog: Store, k: string, q: int)
    requires k in catalog
    ensures Cost(catalog, Entry(k, q + 1)) == Cost(catalog, Entry(k, q)) + catalog[k].price
  {
    var p := catalog[k].price;
    assert p * (q + 1) == p * q + p;
  }

  /** Adding a known product raises the checkout total by its price. */
  lemma TotalAfterAdd(c: Cart, k: string, catalog: Store)
    requires Resolvable(c, catalog) && k in catalog && k != ""
    ensures Resolvable(AddToCart(c, Some(k)), catalog)
    ensures CartTotal(AddToCart(c, Some(k)), catalog) == CartTotal(c, catalog) + catalog[k].price
  {
    var q := QuantityOf(c, k);
    var r := AddToCart(c, Some(k));
    assert r == Put(c, k, q + 1) by {
      AddIsPut(c, k);
    }
    assert Resolvable(r, catalog)
      && CartTotal(r, catalog) + Cost(catalog, Entry(k, q)) == CartTotal(c, catalog) + Cost(catalog, Entry(k, q + 1)) by {
      TotalPut(c, k, q + 1, catalog);
    }
    CostStep(catalog, k, q);
  }

  /** Removing a product takes its line total off the checkout total. */
  lemma TotalAfterRemove(c: Cart, k: string, catalog: Store)
    requires Resolvable(c, catalog)
    ensures Resolvable(RemoveFromCart(c, Some(k)), catalog)
    ensures k in View(c) ==> (k in catalog &&
      CartTotal(RemoveFromCart(c, Some(k)), catalog) == CartTotal(c, catalog) - catalog[k].price * QuantityOf(c, k))
    ensures k !in View(c) ==> CartTotal(RemoveFromCart(c, Some(k)), catalog) == CartTotal(c, catalog)
  {
    if k in View(c) {
      var r := RemoveFromCart(c, Some(k));
      assert r == Delete(c, k);
      TotalDelete(c, k, catalog);
    }
  }

  /** Updating a product's quantity to `q` replaces its line total by price x q, or drops it
      when `q` is 0 or less. */
  lemma TotalAfterUpdate(c: Cart, k: string, q: int, catalog: Store)
    requires Resolvable(c, catalog)
    ensures Resolvable(UpdateCart(c, Some(k), Some(q)), catalog)
    ensures k in View(c) ==> (k in catalog &&
      CartTotal(UpdateCart(c, Some(k), Some(q)), catalog)
        == CartTotal(c, catalog) - catalog[k].price * QuantityOf(c, k) + (if q > 0 then catalog[k].price * q else 0))
    ensures k !in View(c) ==> CartTotal(UpdateCart(c, Some(k), Some(q)), catalog) == CartTotal(c, catalog)
  {
    if q > 0 {
      TotalAfterPositiveUpdate(c, k, q, catalog);
    } else {
      assert UpdateCart(c, Some(k), Some(q)) == RemoveFromCart(c, Some(k)) by {
        UpdateNonPositiveIsRemove(c, k, q);
      }
      TotalAfterRemove(c, k, catalog);
    }
  }

  lemma TotalAfterPositiveUpdate(c: Cart, k: string, q: int, catalog: Store)
    requires Resolvable(c, catalog) && q > 0
    ensures Resolvable(UpdateCart(c, Some(k), Some(q)), catalog)
    ensures k in View(c) ==> (k in catalog &&
      CartTotal(UpdateCart(c, Some(k), Some(q)), catalog)
        == CartTotal(c, catalog) - catalog[k].price * QuantityOf(c, k) + catalog[k].price * q)
    ensures k !in View(c) ==> UpdateCart(c, Some(k), Some(q)) == c
  {
    if k in View(c) {
      var r := UpdateCart(c, Some(k), Some(q));
      assert r == Put(c, k, q);
      TotalDelete(c, k, catalog);
      TotalPut(c, k, q, catalog);
    }
  }

  /** A cart of two units at 10.00 and one at 20.00 totals 40.00. */
  lemma TotalExample()
    ensures
      var catalog := map["A" := Product("A", 1000, "", DEFAULT_IMAGE), "B" := Product("B", 2000, "", DEFAULT_IMAGE)];
      var c := [Entry("A", 2), Entry("B", 1)];
      Resolvable(c, catalog) && CartTotal(c, catalog) == 4000
  {
  }
}
