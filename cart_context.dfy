/** The cart context provider: the `cartItems` state cell, its updaters, and the two
    effects tying it to the "cart" storage entry (load once, save on change). */
module CartContext {
  import opened Wrappers
  import opened CategoryData
  import opened Cart

  class CartProvider {
    var cartItems: seq<CartItem>

    /** `useState([])`. */
    constructor()
      ensures cartItems == []
    {
      cartItems := [];
    }

    /** Ids unique and quantities positive, which every updater keeps. */
    ghost predicate Valid()
      reads this
    {
      IdsUnique(cartItems) && QuantitiesPositive(cartItems)
    }

    /** The save effect: the cart is written only when it is non-empty; an empty cart
        leaves whatever was stored before. */
    method Save(storage: CartStorage)
      modifies storage
      ensures storage.cart == if |cartItems| > 0 then Some(cartItems) else old(storage.cart)
    {
      if |cartItems| > 0 {
        storage.cart := Some(cartItems);
      }
    }

    /** The load effect: a stored cart replaces the state. The save effect that follows
        writes back what was read, or nothing for an empty cart. */
    method Load(storage: CartStorage)
      modifies this, storage
      ensures cartItems == if old(storage.cart).Some? then old(storage.cart).value else old(cartItems)
      ensures storage.cart == if |cartItems| > 0 then Some(cartItems) else old(storage.cart)
    {
      if storage.cart.Some? {
        cartItems := storage.cart.value;
      }
      Save(storage);
    }

    /** `addToCart`, then the save effect: the cart is non-empty, so it is stored. */
    method AddToCart(product: CartItem, storage: CartStorage)
      modifies this, storage
      ensures cartItems == MergeAdd(old(cartItems), product)
      ensures storage.cart == Some(cartItems)
      ensures old(Valid()) && product.quantity >= 1 ==> Valid()
    {
      if Valid() {
        MergeAddKeepsInvariants(cartItems, product);
      }
      cartItems := MergeAdd(cartItems, product);
      Save(storage);
    }

    /** `removeFromCart`, then the save effect. Removing the last item leaves the old
        stored cart, which still holds that item, in place. */
    method RemoveFromCart(productId: Id, storage: CartStorage)
      modifies this, storage
      ensures cartItems == RemoveId(old(cartItems), productId)
      ensures storage.cart == if cartItems == [] then old(storage.cart) else Some(cartItems)
      ensures old(Valid()) ==> Valid()
    {
      if Valid() {
        RemoveIdKeepsInvariants(cartItems, productId);
      }
      cartItems := RemoveId(cartItems, productId);
      Save(storage);
    }

    /** `updateQuantity`, then the save effect. */
    method UpdateQuantity(productId: Id, quantity: int, storage: CartStorage)
      modifies this, storage
      ensures cartItems == SetQuantity(old(cartItems), productId, quantity)
      ensures storage.cart == if cartItems == [] then old(storage.cart) else Some(cartItems)
      ensures old(Valid()) ==> Valid()
    {
      SetQuantityEffect(cartItems, productId, quantity);
      cartItems := SetQuantity(cartItems, productId, quantity);
      Save(storage);
    }

    /** `clearCart`: the state and the stored entry are both emptied. */
    method ClearCart(storage: CartStorage)
      modifies this, storage
      ensures cartItems == [] && storage.cart.None?
    {
      cartItems := [];
      storage.cart := None;
      Save(storage);
    }

    /** `getCartTotal`. */
    function GetCartTotal(): real
      reads this
    {
      Total(cartItems)
    }
  }

  /** Removing the only item of a stored one-item cart empties the state but leaves
      that item in storage, since the save effect skips an empty cart. */
  method StaleCopyAfterLastRemoval(provider: CartProvider, storage: CartStorage, item: CartItem)
    requires provider.cartItems == [item] && storage.cart == Some([item])
    modifies provider, storage
    ensures provider.cartItems == [] && storage.cart == Some([item])
  {
    assert RemoveId([item], item.id) == RemoveId([item][1..], item.id);
    provider.RemoveFromCart(item.id, storage);
  }
}
