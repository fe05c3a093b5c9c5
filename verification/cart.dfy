/**
 * The session cart of `add_to_cart`, `remove_from_cart` and `update_cart`.
 *
 * The session stores the cart as a Python dict from product id to quantity. A dict
 * has unique keys and iterates in insertion order: assigning to an existing key
 * keeps its position, assigning to a new key appends it, and `del` keeps the
 * relative order of the others. The cart is therefore modelled as a sequence of
 * entries with unique ids; `View` is the finite map the dict denotes.
 */
module Cart {
  import opened Wrappers

  /** One `product_id: quantity` pair of the cart. */
  datatype Entry = Entry(id: string, qty: int)

  /** The keys in iteration order. */
  function Ids(c: seq<Entry>): (ids: seq<string>)
    ensures |ids| == |c|
    decreases |c|
  {
    if c == [] then [] else [c[0].id] + Ids(c[1..])
  }

  /** No key occurs twice. */
  predicate UniqueIds(c: seq<Entry>)
    decreases |c|
  {
    c == [] || (c[0].id !in Ids(c[1..]) && UniqueIds(c[1..]))
  }

  /** The session cart: an insertion-ordered dict. */
  type Cart = c: seq<Entry> | UniqueIds(c) witness []

  /** The finite map the dict denotes; an earlier entry wins over a later one with the same id. */
  function View(c: seq<Entry>): map<string, int>
    decreases |c|
  {
    if c == [] then map[] else View(c[1..])[c[0].id := c[0].qty]
  }

  /** The keys of the map are exactly the ids. */
  lemma {:induction false} ViewKeys(c: seq<Entry>, k: string)
    ensures k in View(c) <==> k in Ids(c)
    decreases |c|
  {
    if c != [] {
      ViewKeys(c[1..], k);
    }
  }

  /** `cart.get(k, 0)`. */
  function QuantityOf(c: seq<Entry>, k: string): int {
    if k in View(c) then View(c)[k] else 0
  }

  /** The i-th id is the id of the i-th entry. */
  lemma {:induction false} IdsIndex(c: seq<Entry>)
    ensures forall i :: 0 <= i < |c| ==> Ids(c)[i] == c[i].id
    decreases |c|
  {
    if c != [] {
      IdsIndex(c[1..]);
    }
  }

  /** In a dict every entry's quantity is the map's value at its id. */
  lemma {:induction false} ViewValues(c: Cart)
    ensures forall i :: 0 <= i < |c| ==> c[i].id in View(c) && View(c)[c[i].id] == c[i].qty
    decreases |c|
  {
    if c != [] {
      ViewValues(c[1..]);
      forall i | 1 <= i < |c| ensures c[i].id != c[0].id {
        IdsIndex(c[1..]);
        assert Ids(c[1..])[i - 1] == c[i].id;
      }
    }
  }

  /** Prepends an entry whose id is not yet a key. */
  function Cons(e: Entry, t: Cart): (r: Cart)
    requires e.id !in View(t)
    ensures |r| == |t| + 1 && r[0] == e && r[1..] == t
    ensures Ids(r) == [e.id] + Ids(t)
    ensures View(r) == View(t)[e.id := e.qty]
  {
    ViewKeys(t, e.id);
    var r: seq<Entry> := [e] + t;
    assert r[1..] == t;
    r
  }

  /** `cart[k] = v`: overwrites the entry in place when `k` is a key, appends it otherwise. */
  function Put(c: Cart, k: string, v: int): (r: Cart)
    ensures View(r) == View(c)[k := v]
    ensures k in View(c) ==> Ids(r) == Ids(c)
    ensures k !in View(c) ==> Ids(r) == Ids(c) + [k]
    decreases |c|
  {
    if c == [] then Cons(Entry(k, v), [])
    else if c[0].id == k then
      ViewKeys(c[1..], k);
      Cons(Entry(k, v), c[1..])
    else
      var tail := Put(c[1..], k, v);
      ViewKeys(c[1..], c[0].id);
      ViewKeys(c, k);
      ViewKeys(c[1..], k);
      UpdatesCommute(View(c[1..]), k, v, c[0].id, c[0].qty);
      assert Ids(c) + [k] == [c[0].id] + (Ids(c[1..]) + [k]);
      Cons(c[0], tail)
  }

  lemma UpdatesCommute(m: map<string, int>, k: string, v: int, k': string, v': int)
    requires k != k'
    ensures m[k := v][k' := v'] == m[k' := v'][k := v]
  {
  }

  /** The position of key `k` in the iteration order. */
  function IndexOf(c: seq<Entry>, k: string): (i: nat)
    requires k in Ids(c)
    ensures i < |c| && c[i].id == k
    decreases |c|
  {
    if c[0].id == k then 0 else 1 + IndexOf(c[1..], k)
  }

  /** `del cart[k]` for a key `k`: that entry goes and the others keep their order. */
  function Delete(c: Cart, k: string): (r: Cart)
    requires k in View(c)
    ensures View(r) == View(c) - {k}
    ensures k in Ids(c) && r == c[..IndexOf(c, k)] + c[IndexOf(c, k) + 1..]
    decreases |c|
  {
    ViewKeys(c, k);
    if c[0].id == k then
      var r: Cart := c[1..];
      ViewKeys(r, k);
      assert View(c) - {k} == View(r) by {
        assert View(c) == View(r)[k := c[0].qty];
      }
      assert c[..0] + c[1..] == r;
      r
    else
      ViewKeys(c[1..], k);
      var tail := Delete(c[1..], k);
      SpliceCons(c, IndexOf(c[1..], k));
      ViewKeys(tail, c[0].id);
      ViewKeys(c[1..], c[0].id);
      RemoveUnderUpdate(View(c[1..]), k, c[0].id, c[0].qty);
      Cons(c[0], tail)
  }

  lemma SpliceCons(c: seq<Entry>, j: nat)
    requires j + 1 < |c|
    ensures [c[0]] + (c[1..][..j] + c[1..][j + 1..]) == c[..j + 1] + c[j + 2..]
  {
    assert c[..j + 1] == [c[0]] + c[1..][..j];
    assert c[j + 2..] == c[1..][j + 1..];
  }

  lemma RemoveUnderUpdate(m: map<string, int>, k: string, k': string, v: int)
    requires k != k'
    ensures (m - {k})[k' := v] == m[k' := v] - {k}
  {
  }

  /** Every stored quantity is at least 1. */
  predicate Positive(c: seq<Entry>) {
    forall k :: k in View(c) ==> View(c)[k] >= 1
  }

  /** `add_to_cart`: a present, non-empty id gets its quantity (default 0) raised by one;
      the catalog is not consulted. A missing or empty id changes nothing. */
  function AddToCart(c: Cart, productId: Option<string>): (r: Cart)
    ensures productId.None? || productId.value == "" ==> r == c
    ensures productId.Some? && productId.value != "" ==>
      var k := productId.value;
      && k in View(r)
      && View(r)[k] == QuantityOf(c, k) + 1
      && View(r) - {k} == View(c) - {k}
      && Ids(r) == (if k in View(c) then Ids(c) else Ids(c) + [k])
    ensures Positive(c) ==> Positive(r)
  {
    match productId
    case None => c
    case Some(k) =>
      if k != "" then
        var r := Put(c, k, QuantityOf(c, k) + 1);
        assert View(r) - {k} == View(c) - {k};
        r
      else c
  }

  lemma AddIsPut(c: Cart, k: string)
    requires k != ""
    ensures AddToCart(c, Some(k)) == Put(c, k, QuantityOf(c, k) + 1)
  {
  }

  /** `remove_from_cart`: deletes the id when it is a key; otherwise nothing changes. */
  function RemoveFromCart(c: Cart, productId: Option<string>): (r: Cart)
    ensures productId.None? || productId.value !in View(c) ==> r == c
    ensures productId.Some? ==> View(r) == View(c) - {productId.value}
    ensures |r| == |c| - (if productId.Some? && productId.value in View(c) then 1 else 0)
    ensures productId.Some? && productId.value in View(c) ==>
      var k := productId.value;
      k in Ids(c) && r == c[..IndexOf(c, k)] + c[IndexOf(c, k) + 1..]
    ensures Positive(c) ==> Positive(r)
  {
    match productId
    case None => c
    case Some(k) =>
      if k in View(c) then Delete(c, k) else c
  }

  /** `update_cart`: the quantity defaults to 1. A key with a positive quantity is
      overwritten in place; a key with a quantity of 0 or less is deleted; an id
      that is not a key changes nothing. No other key ever changes. */
  function UpdateCart(c: Cart, productId: Option<string>, quantity: Option<int>): (r: Cart)
    ensures productId.None? || productId.value !in View(c) ==> r == c
    ensures productId.Some? && productId.value in View(c) ==>
      var k := productId.value;
      var q := quantity.GetOr(1);
      && (q > 0 ==> k in View(r) && View(r)[k] == q && Ids(r) == Ids(c))
      && (q <= 0 ==> k !in View(r) && k in Ids(c) && r == c[..IndexOf(c, k)] + c[IndexOf(c, k) + 1..])
      && View(r) - {k} == View(c) - {k}
    ensures Positive(c) ==> Positive(r)
  {
    match productId
    case None => c
    case Some(k) =>
      var q := quantity.GetOr(1);
      if k in View(c) && q > 0 then
        var r := Put(c, k, q);
        assert View(r) - {k} == View(c) - {k};
        r
      else if k in View(c) then
        var r := Delete(c, k);
        assert View(r) - {k} == View(c) - {k};
        r
      else c
  }

  /** One cart request: a form post to one of the three cart views. */
  datatype CartOp =
    | AddOp(productId: Option<string>)
    | RemoveOp(productId: Option<string>)
    | UpdateOp(productId: Option<string>, quantity: Option<int>)

  function Apply(c: Cart, op: CartOp): (r: Cart)
    ensures Positive(c) ==> Positive(r)
  {
    match op
    case AddOp(p) => AddToCart(c, p)
    case RemoveOp(p) => RemoveFromCart(c, p)
    case UpdateOp(p, q) => UpdateCart(c, p, q)
  }

  /** The cart after a session's requests, in order. */
  function Run(c: Cart, ops: seq<CartOp>): Cart
    decreases |ops|
  {
    if ops == [] then c else Run(Apply(c, ops[0]), ops[1..])
  }

  /** No sequence of cart requests stores a quantity below 1 in a cart that had none. */
  lemma {:induction false} RunKeepsPositive(c: Cart, ops: seq<CartOp>)
    requires Positive(c)
    ensures Positive(Run(c, ops))
    decreases |ops|
  {
    if ops != [] {
      RunKeepsPositive(Apply(c, ops[0]), ops[1..]);
    }
  }

  /** A session's cart starts empty, so every quantity it ever stores is at least 1. */
  lemma SessionCartPositive(ops: seq<CartOp>)
    ensures Positive(Run([], ops))
  {
    RunKeepsPositive([], ops);
  }

  /** The same request `n` times. */
  function Repeat(op: CartOp, n: nat): (ops: seq<CartOp>)
    ensures |ops| == n
    decreases n
  {
    if n == 0 then [] else [op] + Repeat(op, n - 1)
  }

  /** Adding the same product `n` times raises its quantity by exactly `n`. */
  lemma {:induction false} AddRepeated(c: Cart, k: string, n: nat)
    requires k != ""
    ensures QuantityOf(Run(c, Repeat(AddOp(Some(k)), n)), k) == QuantityOf(c, k) + n
    decreases n
  {
    if n > 0 {
      var ops := Repeat(AddOp(Some(k)), n);
      var c' := AddToCart(c, Some(k));
      assert ops[0] == AddOp(Some(k)) && ops[1..] == Repeat(AddOp(Some(k)), n - 1);
      assert Run(c, ops) == Run(c', ops[1..]);
      AddRepeated(c', k, n - 1);
    }
  }

  /** Adding a product twice to an empty cart gives that product alone, with quantity 2. */
  lemma AddTwiceToEmpty(k: string)
    requires k != ""
    ensures AddToCart(AddToCart([], Some(k)), Some(k)) == [Entry(k, 2)]
  {
    var once := AddToCart([], Some(k));
    assert once == [Entry(k, 1)] by {
      assert Ids(once) == [k];
      assert View(once)[k] == 1;
    }
    ViewKeys(once, k);
    var twice := AddToCart(once, Some(k));
    assert Ids(twice) == [k];
    assert twice[0].id == k;
    assert View(twice)[k] == 2;
  }

  /** An update to 0 or below is exactly a removal. */
  lemma UpdateNonPositiveIsRemove(c: Cart, k: string, q: int)
    requires q <= 0
    ensures UpdateCart(c, Some(k), Some(q)) == RemoveFromCart(c, Some(k))
  {
  }

  /** Removing twice is removing once. */
  lemma RemoveIdempotent(c: Cart, p: Option<string>)
    ensures RemoveFromCart(RemoveFromCart(c, p), p) == RemoveFromCart(c, p)
  {
  }
}
