/** The cart page: its own copy of the cart state, loaded from the "cart" storage entry
    with the item images JSON-parsed, the same updaters, a persist rule that removes
    the entry for an empty cart, the quantity controls and the checkout guard. */
module CartPage {
  import opened Wrappers
  import opened CategoryData
  import opened ProductImages
  import opened Cart

  class CartPageState {
    var cartItems: seq<CartItem>

    constructor()
      ensures cartItems == []
    {
      cartItems := [];
    }

    /** The persist effect: a non-empty cart is stored, an empty one removes the entry. */
    method Persist(storage: CartStorage)
      modifies storage
      ensures storage.cart == if |cartItems| > 0 then Some(cartItems) else None
    {
      if |cartItems| > 0 {
        storage.cart := Some(cartItems);
      } else {
        storage.cart := None;
      }
    }

    /** Mounting: the load effect reads the entry, the persist effect then runs once with
        the still-empty state, and again once the loaded cart is set. A load in which any
        image string fails to parse yields the empty cart. */
    method Mount(storage: CartStorage, parse: Parser)
      requires cartItems == []
      modifies this, storage
      ensures old(storage.cart).None? ==> cartItems == []
      ensures old(storage.cart).Some? ==>
        cartItems == match LoadImages(old(storage.cart).value, parse)
                     case None => []
                     case Some(loaded) => loaded
      ensures storage.cart == if |cartItems| > 0 then Some(cartItems) else None
    {
      var stored := storage.cart;
      Persist(storage);
      if stored.Some? {
        var loaded := LoadImages(stored.value, parse);
        if loaded.Some? {
          cartItems := loaded.value;
        } else {
          cartItems := [];
        }
      }
      Persist(storage);
    }

    /** `removeFromCart`, then the persist effect. */
    method RemoveFromCart(productId: Id, storage: CartStorage)
      modifies this, storage
      ensures cartItems == RemoveId(old(cartItems), productId)
      ensures storage.cart == if |cartItems| > 0 then Some(cartItems) else None
    {
      cartItems := RemoveId(cartItems, productId);
      Persist(storage);
    }

    /** `updateQuantity`, then the persist effect. */
    method UpdateQuantity(productId: Id, quantity: int, storage: CartStorage)
      modifies this, storage
      ensures cartItems == SetQuantity(old(cartItems), productId, quantity)
      ensures storage.cart == if |cartItems| > 0 then Some(cartItems) else None
    {
      cartItems := SetQuantity(cartItems, productId, quantity);
      Persist(storage);
    }

    /** `clearCart`. */
    method ClearCart(storage: CartStorage)
      modifies this, storage
      ensures cartItems == [] && storage.cart.None?
    {
      cartItems := [];
      storage.cart := None;
      Persist(storage);
    }

    /** `handleCheckout`: nothing happens for an empty cart; otherwise the chat window
        opens and, once the timer fires, the cart is cleared. */
    method HandleCheckout(storage: CartStorage) returns (opensChat: bool)
      modifies this, storage
      ensures opensChat <==> |old(cartItems)| > 0
      ensures !opensChat ==> cartItems == old(cartItems) && storage.cart == old(storage.cart)
      ensures opensChat ==> cartItems == [] && storage.cart.None?
    {
      if |cartItems| == 0 {
        return false;
      }
      opensChat := true;
      ClearCart(storage);
    }
  }

  /** `Number.parseInt(e.target.value) || 1`: `None` stands for NaN. */
  function InputQuantity(parsed: Option<int>): int {
    match parsed
    case None => 1
    case Some(n) => if n == 0 then 1 else n
  }

  /** What the quantity field sets, after the `max(1, ...)` clamp: the typed number when
      it is at least 1, and 1 for anything else (blank, non-numeric, zero, negative). */
  lemma InputSetsQuantity(parsed: Option<int>)
    ensures AtLeastOne(InputQuantity(parsed)) ==
      if parsed.Some? && parsed.value >= 1 then parsed.value else 1
  {
  }

  /** The minus button is disabled at `quantity <= 1`. */
  predicate DecrementEnabled(item: CartItem) {
    !(item.quantity <= 1)
  }

  /** An enabled minus button lowers the quantity by exactly one and never below 1. */
  lemma DecrementStaysPositive(item: CartItem)
    requires DecrementEnabled(item)
    ensures AtLeastOne(item.quantity - 1) == item.quantity - 1 >= 1
  {
  }
}
