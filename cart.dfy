/** The cart page: grouping the order's flat list of product ids (one entry per
    unit) into lines of product and quantity, the guard shared by the three item
    handlers, and the "Proceed to Checkout" button's enabled state. */
module Cart {
  import opened Wrappers
  import opened Seqs

  type ProductId = string

  /** The part of a pending order the cart page reads: its id and its items. */
  datatype Order = Order(id: string, items: seq<ProductId>)

  /** One rendered cart line. */
  datatype CartLine = CartLine(productId: ProductId, quantity: nat)

  /** A JavaScript `Map` from product id to count: its keys in insertion order,
      and the count stored for each. */
  datatype CountMap = CountMap(keys: seq<ProductId>, counts: map<ProductId, nat>) {

    ghost predicate Valid() {
      (forall k :: k in counts <==> k in keys) && NoDuplicates(keys)
    }

    /** `map.get(k)`; `None` stands for `undefined`. */
    function Get(k: ProductId): (r: Option<nat>)
      ensures r.Some? <==> k in counts
      ensures r.Some? ==> r.value == counts[k]
    {
      if k in counts then Some(counts[k]) else None
    }

    /** `map.set(k, v)`: a new key goes to the end of the iteration order, an
        existing one keeps its place. */
    function Set(k: ProductId, v: nat): (r: CountMap)
      requires Valid()
      ensures r.Valid()
      ensures r.counts == counts[k := v]
      ensures r.keys == if k in counts then keys else keys + [k]
    {
      if k in counts then this.(counts := counts[k := v])
      else CountMap(keys + [k], counts[k := v])
    }
  }

  /** The sum of the quantities of `lines`. */
  function TotalQuantity(lines: seq<CartLine>): nat
    decreases |lines|
  {
    if |lines| == 0 then 0 else TotalQuantity(lines[..|lines| - 1]) + lines[|lines| - 1].quantity
  }

  /** The sum of the multiplicities in `m` of the elements of `keys`. */
  function CountSum(keys: seq<ProductId>, m: multiset<ProductId>): nat
    decreases |keys|
  {
    if |keys| == 0 then 0 else CountSum(keys[..|keys| - 1], m) + m[keys[|keys| - 1]]
  }

  /** The counting pass of `groupedItems`: `itemMap.set(id, (itemMap.get(id) || 0) + 1)`
      for each item in turn. */
  method CountItems(items: seq<ProductId>) returns (itemMap: CountMap)
    ensures itemMap.Valid()
    ensures itemMap.keys == Distinct(items)
    ensures forall k :: k in itemMap.counts ==> itemMap.counts[k] == multiset(items)[k]
  {
    itemMap := CountMap([], map[]);
    for i := 0 to |items|
      invariant itemMap.Valid()
      invariant itemMap.keys == Distinct(items[..i])
      invariant forall k :: k in itemMap.counts ==> itemMap.counts[k] == multiset(items[..i])[k]
    {
      var itemId := items[i];
      assert items[..i + 1][..i] == items[..i];
      assert multiset(items[..i + 1]) == multiset(items[..i]) + multiset{itemId} by {
        assert items[..i + 1] == items[..i] + [itemId];
      }
      itemMap := itemMap.Set(itemId, itemMap.Get(itemId).GetOr(0) + 1);
    }
    assert items[..|items|] == items;
  }

  /** `groupedItems`: counts each product id in a `Map`, then lists the map's
      entries. No order data gives no lines. */
  method GroupItems(orderData: Option<Order>) returns (lines: seq<CartLine>)
    ensures orderData.None? ==> lines == []
    ensures orderData.Some? ==>
              var items := orderData.value.items;
              && |lines| == |Distinct(items)|
              && forall i :: 0 <= i < |lines| ==>
                   lines[i].productId == Distinct(items)[i]
                   && lines[i].quantity == multiset(items)[lines[i].productId]
    ensures orderData.Some? ==>
              forall x :: x in orderData.value.items ==>
                exists i :: 0 <= i < |lines| && lines[i].productId == x
    ensures forall i, j :: 0 <= i < j < |lines| ==> lines[i].productId != lines[j].productId
    ensures forall i :: 0 <= i < |lines| ==> lines[i].quantity >= 1
    ensures orderData.Some? ==> TotalQuantity(lines) == |orderData.value.items|
  {
    if orderData.None? {
      return [];
    }
    var items := orderData.value.items;
    var itemMap := CountItems(items);
    var keys := itemMap.keys;
    lines := seq(|keys|, j requires 0 <= j < |keys| => CartLine(keys[j], itemMap.counts[keys[j]]));
    LinesOfDistinct(lines, items);
  }

  /** Lines listing the distinct items in first-occurrence order with their
      multiplicities cover every item once, with positive quantities adding up to
      the number of items. */
  lemma LinesOfDistinct(lines: seq<CartLine>, items: seq<ProductId>)
    requires |lines| == |Distinct(items)|
    requires forall i :: 0 <= i < |lines| ==>
               lines[i].productId == Distinct(items)[i]
               && lines[i].quantity == multiset(items)[lines[i].productId]
    ensures forall x :: x in items ==> exists i :: 0 <= i < |lines| && lines[i].productId == x
    ensures forall i, j :: 0 <= i < j < |lines| ==> lines[i].productId != lines[j].productId
    ensures forall i :: 0 <= i < |lines| ==> lines[i].quantity >= 1
    ensures TotalQuantity(lines) == |items|
  {
    var keys := Distinct(items);
    forall x | x in items
      ensures exists i :: 0 <= i < |lines| && lines[i].productId == x
    {
      var i :| 0 <= i < |keys| && keys[i] == x;
      assert lines[i].productId == x;
    }
    forall i | 0 <= i < |lines|
      ensures lines[i].quantity >= 1
    {
      assert keys[i] in items;
    }
    TotalOfLines(lines, keys, multiset(items));
    CountSumOfDistinct(items);
  }

  lemma {:induction false} TotalOfLines(lines: seq<CartLine>, keys: seq<ProductId>, m: multiset<ProductId>)
    requires |lines| == |keys|
    requires forall j :: 0 <= j < |lines| ==> lines[j].quantity == m[keys[j]]
    ensures TotalQuantity(lines) == CountSum(keys, m)
    decreases |lines|
  {
    if |lines| > 0 {
      TotalOfLines(lines[..|lines| - 1], keys[..|keys| - 1], m);
    }
  }

  /** Adding one unit of `x` raises the sum over duplicate-free `keys` by one
      exactly when `x` is among them. */
  lemma {:induction false} CountSumAddOne(keys: seq<ProductId>, m: multiset<ProductId>, x: ProductId)
    requires NoDuplicates(keys)
    ensures CountSum(keys, m + multiset{x}) == CountSum(keys, m) + (if x in keys then 1 else 0)
    decreases |keys|
  {
    if |keys| > 0 {
      var pre := keys[..|keys| - 1];
      assert keys == pre + [keys[|keys| - 1]];
      CountSumAddOne(pre, m, x);
    }
  }

  /** The quantities of the grouped lines add up to the number of items. */
  lemma {:induction false} CountSumOfDistinct(items: seq<ProductId>)
    ensures CountSum(Distinct(items), multiset(items)) == |items|
    decreases |items|
  {
    if |items| > 0 {
      var pre := items[..|items| - 1];
      var x := items[|items| - 1];
      assert items == pre + [x];
      assert multiset(items) == multiset(pre) + multiset{x};
      var d := Distinct(pre);
      CountSumOfDistinct(pre);
      CountSumAddOne(d, multiset(pre), x);
      if x !in d {
        assert Distinct(items) == d + [x];
        assert (d + [x])[..|d|] == d;
        assert multiset(pre)[x] == 0;
      }
    }
  }

  /** The three item actions of a cart line. */
  datatype CartAction = Increment | Decrement | RemoveAll

  /** The mutation a handler goes on to send (after looking up the product's price). */
  datatype CartRequest = CartRequest(action: CartAction, orderId: string, productId: ProductId)

  /** The guard of `handleRemoveItem`, `handleIncrementItem` and `handleDecrementItem`:
      nothing happens unless the order data is present with a non-empty id. */
  function PlanCartAction(orderData: Option<Order>, action: CartAction, productId: ProductId)
    : (r: Option<CartRequest>)
    ensures r.None? <==> orderData.None? || orderData.value.id == ""
    ensures r.Some? ==>
              && r.value.orderId == orderData.value.id
              && r.value.orderId != ""
              && r.value.action == action
              && r.value.productId == productId
  {
    if orderData.None? || orderData.value.id == "" then None
    else Some(CartRequest(action, orderData.value.id, productId))
  }

  /** The "Proceed to Checkout" button's `disabled` attribute. */
  predicate CheckoutDisabled(order: Order) {
    |order.items| == 0
  }

  /** The grouping is empty exactly when the order has no items, so the button is
      disabled exactly when the cart shows "Your cart is empty!"; as the order
      summary holding the button is shown only for a non-empty grouping, the
      button is never disabled while it is visible. */
  lemma CheckoutDisabledIffNoLines(order: Order)
    ensures CheckoutDisabled(order) <==> |Distinct(order.items)| == 0
  {
    if |order.items| > 0 {
      assert order.items[0] in Distinct(order.items);
    }
  }
}
