/** The client cart: a sequence of items keyed by product id, the pure updaters the
    cart context and the cart page apply to it, its total, and the browser-storage
    entry "cart" both of them keep in step with it. */
module Cart {
  import opened Wrappers
  import opened Seqs
  import opened CategoryData
  import opened ProductImages

  /** `{ id, name, price, category, image, quantity }`. */
  datatype CartItem = CartItem(
    id: Id,
    name: string,
    price: real,
    category: string,
    image: Value,
    quantity: int)

  /** No two items share an id. */
  ghost predicate IdsUnique(items: seq<CartItem>) {
    forall i, j :: 0 <= i < |items| && 0 <= j < |items| && items[i].id == items[j].id ==> i == j
  }

  /** Every quantity is at least 1. */
  ghost predicate QuantitiesPositive(items: seq<CartItem>) {
    forall i :: 0 <= i < |items| ==> items[i].quantity >= 1
  }

  /** `items.findIndex(item => item.id === id)`. */
  function FindIndex(items: seq<CartItem>, id: Id): (r: int)
    ensures -1 <= r < |items|
    ensures 0 <= r ==> items[r].id == id && forall k :: 0 <= k < r ==> items[k].id != id
    ensures r == -1 ==> forall k :: 0 <= k < |items| ==> items[k].id != id
  {
    if items == [] then -1
    else if items[0].id == id then 0
    else
      var r := FindIndex(items[1..], id);
      if r == -1 then -1 else r + 1
  }

  /** The cart with the quantity of the item at `i` raised by `extra`. */
  function Bump(items: seq<CartItem>, i: int, extra: int): seq<CartItem>
    requires 0 <= i < |items|
  {
    items[i := items[i].(quantity := items[i].quantity + extra)]
  }

  /** The context's `addToCart` updater: the first item with the product's id gains the
      product's quantity; a product not in the cart is appended. */
  function MergeAdd(items: seq<CartItem>, product: CartItem): seq<CartItem> {
    var i := FindIndex(items, product.id);
    if i > -1 then Bump(items, i, product.quantity)
    else items + [product]
  }

  /** Adding a product already in a cart with unique ids adds its quantity to that item
      in place and changes nothing else. */
  lemma MergeAddExisting(items: seq<CartItem>, product: CartItem, i: int)
    requires IdsUnique(items) && 0 <= i < |items| && items[i].id == product.id
    ensures var r := MergeAdd(items, product);
      |r| == |items| &&
      r[i] == items[i].(quantity := items[i].quantity + product.quantity) &&
      forall k :: 0 <= k < |items| && k != i ==> r[k] == items[k]
  {
  }

  /** Adding a product not in the cart appends it unchanged. */
  lemma MergeAddNew(items: seq<CartItem>, product: CartItem)
    requires forall k :: 0 <= k < |items| ==> items[k].id != product.id
    ensures MergeAdd(items, product) == items + [product]
  {
  }

  /** Adding keeps the ids unique, and keeps quantities positive when the added
      quantity is positive. */
  lemma MergeAddKeepsInvariants(items: seq<CartItem>, product: CartItem)
    requires IdsUnique(items)
    ensures IdsUnique(MergeAdd(items, product))
    ensures QuantitiesPositive(items) && product.quantity >= 1 ==>
      QuantitiesPositive(MergeAdd(items, product))
  {
    var r := MergeAdd(items, product);
    var i := FindIndex(items, product.id);
    if i == -1 {
      forall a, b | 0 <= a < |r| && 0 <= b < |r| && a != b ensures r[a].id != r[b].id {
        assert r[a] == if a < |items| then items[a] else product;
        assert r[b] == if b < |items| then items[b] else product;
      }
    }
  }

  /** `removeFromCart`: `items.filter(item => item.id !== productId)`. */
  function RemoveId(items: seq<CartItem>, productId: Id): (r: seq<CartItem>)
    ensures forall x :: x in r <==> x in items && x.id != productId
  {
    Filter(items, (item: CartItem) => item.id != productId)
  }

  /** Removal keeps the remaining items in their order, so the invariants survive. */
  lemma RemoveIdKeepsOrder(items: seq<CartItem>, productId: Id)
    ensures IsSubsequence(RemoveId(items, productId), items)
    ensures |RemoveId(items, productId)| <= |items|
  {
    FilterIsSubsequence(items, (item: CartItem) => item.id != productId);
  }

  /** With unique ids, two different items never share an id. */
  lemma DifferentItemsDifferentIds(items: seq<CartItem>, x: CartItem, y: CartItem)
    requires IdsUnique(items) && x in items && y in items && x != y
    ensures x.id != y.id
  {
    var i :| 0 <= i < |items| && items[i] == x;
    var j :| 0 <= j < |items| && items[j] == y;
  }

  /** Removal keeps ids unique and quantities positive. */
  lemma RemoveIdKeepsInvariants(items: seq<CartItem>, productId: Id)
    requires IdsUnique(items) && QuantitiesPositive(items)
    ensures IdsUnique(RemoveId(items, productId)) && QuantitiesPositive(RemoveId(items, productId))
  {
    var keep := (item: CartItem) => item.id != productId;
    var r := RemoveId(items, productId);
    forall i | 0 <= i < |r| ensures r[i].quantity >= 1 {
      assert r[i] in items;
      var k :| 0 <= k < |items| && items[k] == r[i];
    }
    assert Distinct(items) by {
      forall i, j | 0 <= i < |items| && 0 <= j < |items| && items[i] == items[j] ensures i == j {
      }
    }
    FilterDistinct(items, keep);
    forall a, b | 0 <= a < |r| && 0 <= b < |r| && a != b ensures r[a].id != r[b].id {
      assert r[a] in items && r[b] in items;
      DifferentItemsDifferentIds(items, r[a], r[b]);
    }
  }

  /** `Math.max(1, quantity)`. */
  function AtLeastOne(q: int): (r: int)
    ensures r >= 1 && r >= q && (q >= 1 ==> r == q)
  {
    if q > 1 then q else 1
  }

  /** `updateQuantity`: every item with the id gets quantity `max(1, quantity)`; every
      other item is unchanged; positions stay. */
  function SetQuantity(items: seq<CartItem>, productId: Id, quantity: int): seq<CartItem> {
    seq(|items|, i requires 0 <= i < |items| =>
      if items[i].id == productId then items[i].(quantity := AtLeastOne(quantity)) else items[i])
  }

  /** An update keeps ids and order, never lets a quantity drop below 1, and touches
      only the items with that id. */
  lemma SetQuantityEffect(items: seq<CartItem>, productId: Id, quantity: int)
    ensures var r := SetQuantity(items, productId, quantity);
      |r| == |items| &&
      (forall i :: 0 <= i < |r| ==> r[i].id == items[i].id) &&
      (forall i :: 0 <= i < |r| && items[i].id == productId ==>
        r[i] == items[i].(quantity := AtLeastOne(quantity)) && r[i].quantity >= 1) &&
      (forall i :: 0 <= i < |r| && items[i].id != productId ==> r[i] == items[i])
    ensures IdsUnique(items) ==> IdsUnique(SetQuantity(items, productId, quantity))
    ensures QuantitiesPositive(items) ==> QuantitiesPositive(SetQuantity(items, productId, quantity))
  {
  }

  /** `item.price * item.quantity`. */
  function Subtotal(item: CartItem): real {
    item.price * item.quantity as real
  }

  /** `getCartTotal`: `items.reduce((total, item) => total + item.price * item.quantity, 0)`. */
  function Total(items: seq<CartItem>): real {
    if items == [] then 0.0
    else Total(items[..|items| - 1]) + Subtotal(items[|items| - 1])
  }

  /** One more item adds its subtotal. */
  lemma TotalSnoc(items: seq<CartItem>, x: CartItem)
    ensures Total(items + [x]) == Total(items) + Subtotal(x)
  {
    assert (items + [x])[..|items|] == items;
  }

  /** The total of a concatenation is the sum of the totals. */
  lemma {:induction false} TotalAppend(a: seq<CartItem>, b: seq<CartItem>)
    ensures Total(a + b) == Total(a) + Total(b)
    decreases |b|
  {
    if b != [] {
      var init, last := b[..|b| - 1], b[|b| - 1];
      assert b == init + [last];
      assert a + b == (a + init) + [last];
      TotalAppend(a, init);
      TotalSnoc(a + init, last);
      TotalSnoc(init, last);
    } else {
      assert a + b == a;
    }
  }

  /** Replacing one item changes the total by the difference of the two subtotals. */
  lemma TotalUpdate(items: seq<CartItem>, i: int, x: CartItem)
    requires 0 <= i < |items|
    ensures Total(items[i := x]) == Total(items) - Subtotal(items[i]) + Subtotal(x)
  {
    var pre, post := items[..i], items[i + 1..];
    assert items == (pre + [items[i]]) + post;
    assert items[i := x] == (pre + [x]) + post;
    TotalAppend(pre + [items[i]], post);
    TotalAppend(pre + [x], post);
    TotalSnoc(pre, items[i]);
    TotalSnoc(pre, x);
  }

  /** Raising an item's quantity to `q` changes its subtotal by the difference at its price. */
  lemma SubtotalShift(item: CartItem, q: int)
    ensures Subtotal(item.(quantity := q)) == Subtotal(item) + item.price * (q - item.quantity) as real
  {
    var p := item.price;
    assert p * q as real == p * item.quantity as real + p * (q - item.quantity) as real;
  }

  lemma TotalShiftAt(items: seq<CartItem>, i: int, x: CartItem, e: int)
    requires 0 <= i < |items| && x == items[i].(quantity := items[i].quantity + e)
    ensures Total(items[i := x]) == Total(items) + items[i].price * e as real
  {
    TotalUpdate(items, i, x);
    SubtotalShift(items[i], items[i].quantity + e);
  }

  /** Changing one item's quantity by `e` changes the total by `e` at its price. */
  lemma TotalShift(items: seq<CartItem>, i: int, e: int)
    requires 0 <= i < |items|
    ensures Total(Bump(items, i, e)) ==
      Total(items) + items[i].price * e as real
  {
    TotalShiftAt(items, i, items[i].(quantity := items[i].quantity + e), e);
  }

  lemma MergeAddAt(items: seq<CartItem>, product: CartItem, i: int)
    requires 0 <= i < |items| && FindIndex(items, product.id) == i
    ensures MergeAdd(items, product) == Bump(items, i, product.quantity)
  {
  }

  /** Adding a product already in the cart raises the total by the added quantity at
      the price of the stored item that receives it. */
  lemma TotalAfterAddAt(items: seq<CartItem>, product: CartItem, i: int)
    requires 0 <= i < |items| && FindIndex(items, product.id) == i
    ensures Total(MergeAdd(items, product)) == Total(items) + items[i].price * product.quantity as real
  {
    MergeAddAt(items, product, i);
    TotalAfterBump(items, product, i);
  }

  /** The merge that bumps item `i` raises the total by the added quantity at its price. */
  lemma TotalAfterBump(items: seq<CartItem>, product: CartItem, i: int)
    requires 0 <= i < |items| && MergeAdd(items, product) == Bump(items, i, product.quantity)
    ensures Total(MergeAdd(items, product)) == Total(items) + items[i].price * product.quantity as real
  {
    TotalShift(items, i, product.quantity);
  }

  /** Adding a new product raises the total by its own subtotal. */
  lemma TotalAfterAddNew(items: seq<CartItem>, product: CartItem)
    requires FindIndex(items, product.id) == -1
    ensures Total(MergeAdd(items, product)) == Total(items) + product.price * product.quantity as real
  {
    assert MergeAdd(items, product) == items + [product];
    TotalSnoc(items, product);
  }

  /** The total of the kept items plus the total of the removed ones is the old total. */
  lemma {:induction false} TotalSplits(items: seq<CartItem>, productId: Id)
    ensures Total(items) ==
      Total(RemoveId(items, productId)) + Total(Filter(items, (item: CartItem) => item.id == productId))
    decreases |items|
  {
    var keep := (item: CartItem) => item.id != productId;
    var drop := (item: CartItem) => item.id == productId;
    if items != [] {
      var init, last := items[..|items| - 1], items[|items| - 1];
      assert items == init + [last];
      TotalSplits(init, productId);
      TotalSnoc(init, last);
      FilterSnoc(init, last, keep);
      FilterSnoc(init, last, drop);
      if last.id == productId {
        assert Filter(items, keep) == Filter(init, keep);
        TotalSnoc(Filter(init, drop), last);
      } else {
        assert Filter(items, drop) == Filter(init, drop);
        TotalSnoc(Filter(init, keep), last);
      }
    }
  }

  lemma SetQuantityAt(items: seq<CartItem>, i: int, quantity: int)
    requires IdsUnique(items) && 0 <= i < |items|
    ensures SetQuantity(items, items[i].id, quantity) ==
      items[i := items[i].(quantity := AtLeastOne(quantity))]
  {
  }

  /** With unique ids, updating the quantity of an item in the cart replaces that item's
      subtotal in the total by its subtotal at the clamped quantity. */
  lemma TotalAfterSetQuantity(items: seq<CartItem>, i: int, quantity: int)
    requires IdsUnique(items) && 0 <= i < |items|
    ensures Total(SetQuantity(items, items[i].id, quantity)) ==
      Total(items) - Subtotal(items[i]) + Subtotal(items[i].(quantity := AtLeastOne(quantity)))
  {
    SetQuantityAt(items, i, quantity);
    TotalUpdate(items, i, items[i].(quantity := AtLeastOne(quantity)));
  }

  /** The cart page's load step for one item: a string `image` is JSON-parsed (and a
      failure aborts the whole load); any other image is kept. */
  function ParseImage(image: Value, parse: Parser): Option<Value> {
    match image
    case Str(s) => parse(s)
    case _ => Some(image)
  }

  /** The `map` over the stored cart on the cart page: `None` when any item's image
      fails to parse, otherwise the items with their images replaced. */
  function LoadImages(items: seq<CartItem>, parse: Parser): (r: Option<seq<CartItem>>)
    ensures r.None? <==> exists i :: 0 <= i < |items| && ParseImage(items[i].image, parse).None?
    ensures r.Some? ==> |r.value| == |items| && forall i :: 0 <= i < |items| ==>
      Some(r.value[i].image) == ParseImage(items[i].image, parse) &&
      r.value[i] == items[i].(image := r.value[i].image)
  {
    if items == [] then Some([])
    else
      match ParseImage(items[0].image, parse)
      case None => None
      case Some(image) =>
        match LoadImages(items[1..], parse)
        case None =>
          assert exists i :: 0 <= i < |items[1..]| && ParseImage(items[1..][i].image, parse).None?;
          var i :| 0 <= i < |items[1..]| && ParseImage(items[1..][i].image, parse).None?;
          assert ParseImage(items[i + 1].image, parse).None?;
          None
        case Some(rest) =>
          assert forall i :: 1 <= i < |items| ==> ParseImage(items[i].image, parse).Some? by {
            forall i | 1 <= i < |items| ensures ParseImage(items[i].image, parse).Some? {
              assert items[1..][i - 1] == items[i];
            }
          }
          Some([items[0].(image := image)] + rest)
  }

  /** An item whose image is a plain URL (a string that is not JSON) makes the cart page
      load every cart containing it as empty. */
  lemma PlainUrlImageFailsLoad(items: seq<CartItem>, parse: Parser, i: int, url: string)
    requires 0 <= i < |items| && items[i].image == Str(url) && parse(url).None?
    ensures LoadImages(items, parse).None?
  {
  }

  /** The browser's "cart" storage entry; `None` when the key is absent. The entry is
      the JSON text of the item list; its encoding is read back unchanged. */
  class CartStorage {
    var cart: Option<seq<CartItem>>

    constructor(stored: Option<seq<CartItem>>)
      ensures cart == stored
    {
      cart := stored;
    }
  }
}
