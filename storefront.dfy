/** The page script's state (the `cart` and `wishlist` arrays, mirrored to
    local storage) and the handlers that change it. */
module Storefront {
  import opened Lists
  import opened Catalog
  import opened Cart
  import opened Wishlist

  /** What a click lands on, once `closest(...)` has resolved its target. */
  datatype Click =
    | ProductCard(id: ProductId)               // a product card, outside its buttons
    | AddToCartButton(id: ProductId)
    | WishlistButton(id: ProductId)
    | RemoveFromWishlistButton(id: ProductId)
    | IncreaseQuantityButton(id: ProductId)
    | DecreaseQuantityButton(id: ProductId)
    | RemoveFromCartButton(id: ProductId)
    | Elsewhere                                // no button carrying a product id

  class Store {
    const catalog: seq<Product>
    var cart: seq<CartEntry>
    var wishlist: seq<Product>
    /** What `saveCart` and `saveWishlist` last wrote to local storage. */
    var savedCart: seq<CartEntry>
    var savedWishlist: seq<Product>

    /** The store invariant: both lists keep their invariants, and local
        storage holds exactly what is in memory. */
    predicate Valid()
      reads this
    {
      WellFormed(cart) && NoDuplicates(wishlist) &&
      savedCart == cart && savedWishlist == wishlist
    }

    /** Page start-up: the lists are read back from local storage, or start
        empty when nothing was stored. */
    constructor (catalog: seq<Product>, storedCart: Option<seq<CartEntry>>, storedWishlist: Option<seq<Product>>)
      requires storedCart.Some? ==> WellFormed(storedCart.value)
      requires storedWishlist.Some? ==> NoDuplicates(storedWishlist.value)
      ensures Valid() && this.catalog == catalog
      ensures cart == (if storedCart.Some? then storedCart.value else [])
      ensures wishlist == (if storedWishlist.Some? then storedWishlist.value else [])
    {
      this.catalog := catalog;
      cart := if storedCart.Some? then storedCart.value else [];
      wishlist := if storedWishlist.Some? then storedWishlist.value else [];
      savedCart := if storedCart.Some? then storedCart.value else [];
      savedWishlist := if storedWishlist.Some? then storedWishlist.value else [];
    }

    /** `addToCart`. */
    method AddToCart(id: ProductId)
      requires Valid()
      modifies this
      ensures Valid()
      ensures cart == Added(catalog, old(cart), id) && wishlist == old(wishlist)
      ensures Find(catalog, id).None? ==> cart == old(cart)
      ensures Find(catalog, id).Some? ==>
        forall x :: Quantity(cart, x) ==
          if x == id then old(Quantity(cart, x)) + 1 else old(Quantity(cart, x))
    {
      AddedProperties(catalog, cart, id);
      var product := Find(catalog, id);
      if product.None? {
        return;
      }
      var found := IndexOfKey(cart, EntryId, id);
      if found.Some? {
        var i := found.value;
        cart := cart[i := cart[i].(quantity := cart[i].quantity + 1)];
      } else {
        cart := cart + [CartEntry(product.value, 1)];
      }
      savedCart := cart;
    }

    /** `toggleWishlist`. */
    method ToggleWishlist(id: ProductId)
      requires Valid()
      modifies this
      ensures Valid()
      ensures wishlist == Toggled(catalog, old(wishlist), id) && cart == old(cart)
      ensures Find(catalog, id).None? ==> wishlist == old(wishlist)
      ensures Find(catalog, id).Some? ==>
        (IsWishlisted(wishlist, id) <==> !old(IsWishlisted(wishlist, id)))
    {
      ToggledProperties(catalog, wishlist, id);
      var product := Find(catalog, id);
      if product.None? {
        return;
      }
      var wishlisted := IsWishlisted(wishlist, id);
      if wishlisted {
        wishlist := Without(wishlist, IdOf, id);
      } else {
        wishlist := wishlist + [product.value];
      }
      savedWishlist := wishlist;
    }

    /** The "Remove" button of the wishlist page. */
    method RemoveFromWishlist(id: ProductId)
      requires Valid()
      modifies this
      ensures Valid()
      ensures wishlist == Without(old(wishlist), IdOf, id) && cart == old(cart)
      ensures !IsWishlisted(wishlist, id)
    {
      RemoveFromWishlistProperties(wishlist, id);
      wishlist := Without(wishlist, IdOf, id);
      savedWishlist := wishlist;
    }

    /** The "+" button of the cart page. */
    method IncreaseQuantity(id: ProductId)
      requires Valid()
      modifies this
      ensures Valid()
      ensures cart == Increased(old(cart), id) && wishlist == old(wishlist)
      ensures
        forall x :: Quantity(cart, x) ==
          if x == id && old(InCart(cart, id)) then old(Quantity(cart, x)) + 1 else old(Quantity(cart, x))
    {
      IncreasedProperties(cart, id);
      var found := IndexOfKey(cart, EntryId, id);
      if found.None? {
        return;
      }
      var i := found.value;
      cart := cart[i := cart[i].(quantity := cart[i].quantity + 1)];
      savedCart := cart;
    }

    /** The "-" button of the cart page. */
    method DecreaseQuantity(id: ProductId)
      requires Valid()
      modifies this
      ensures Valid()
      ensures cart == Decreased(old(cart), id) && wishlist == old(wishlist)
      ensures Quantity(cart, id) == if old(Quantity(cart, id)) > 1 then old(Quantity(cart, id)) - 1 else 0
    {
      DecreasedProperties(cart, id);
      var found := IndexOfKey(cart, EntryId, id);
      if found.None? {
        return;
      }
      var i := found.value;
      if cart[i].quantity > 1 {
        cart := cart[i := cart[i].(quantity := cart[i].quantity - 1)];
      } else {
        cart := Without(cart, EntryId, id);
      }
      savedCart := cart;
    }

    /** The "Remove" button of the cart page. */
    method RemoveFromCart(id: ProductId)
      requires Valid()
      modifies this
      ensures Valid()
      ensures cart == Removed(old(cart), id) && wishlist == old(wishlist)
      ensures !InCart(cart, id)
    {
      RemovedProperties(cart, id);
      var found := IndexOfKey(cart, EntryId, id);
      if found.None? {
        return;
      }
      cart := Without(cart, EntryId, id);
      savedCart := cart;
    }

    /** The checkout button: an order empties a non-empty cart; an empty cart
        only earns an error notice. `placed` tells which notice is shown. */
    method Checkout() returns (placed: bool)
      requires Valid()
      modifies this
      ensures Valid()
      ensures placed <==> old(cart) != []
      ensures cart == [] && wishlist == old(wishlist)
    {
      if |cart| > 0 {
        cart := [];
        savedCart := cart;
        placed := true;
      } else {
        placed := false;
      }
    }

    /** The subtotal loop of `renderCart`, in cents. */
    method ComputeSubtotal() returns (subtotal: int)
      requires Valid()
      ensures subtotal == Subtotal(cart)
      ensures subtotal >= 0
    {
      subtotal := 0;
      var i := 0;
      while i < |cart|
        invariant 0 <= i <= |cart|
        invariant subtotal == Subtotal(cart[..i])
      {
        SubtotalConcat(cart[..i], [cart[i]]);
        assert cart[..i + 1] == cart[..i] + [cart[i]];
        var itemTotal := cart[i].product.price * cart[i].quantity;
        subtotal := subtotal + itemTotal;
        i := i + 1;
      }
      assert cart[..i] == cart;
    }

    /** The delegated click handler on the page body. `onCartPage` says
        whether the page has a cart list; the quantity and cart "Remove"
        buttons act only there. */
    method OnClick(click: Click, onCartPage: bool)
      requires Valid()
      modifies this
      ensures Valid()
      ensures match click
        case AddToCartButton(id) =>
          cart == Added(catalog, old(cart), id) && wishlist == old(wishlist)
        case WishlistButton(id) =>
          wishlist == Toggled(catalog, old(wishlist), id) && cart == old(cart)
        case RemoveFromWishlistButton(id) =>
          wishlist == Without(old(wishlist), IdOf, id) && cart == old(cart)
        case IncreaseQuantityButton(id) =>
          cart == (if onCartPage then Increased(old(cart), id) else old(cart)) && wishlist == old(wishlist)
        case DecreaseQuantityButton(id) =>
          cart == (if onCartPage then Decreased(old(cart), id) else old(cart)) && wishlist == old(wishlist)
        case RemoveFromCartButton(id) =>
          cart == (if onCartPage then Removed(old(cart), id) else old(cart)) && wishlist == old(wishlist)
        case ProductCard(_) => cart == old(cart) && wishlist == old(wishlist)
        case Elsewhere => cart == old(cart) && wishlist == old(wishlist)
    {
      match click
      case ProductCard(_) =>
        // navigation to the product page; no state changes
      case AddToCartButton(id) =>
        AddToCart(id);
      case WishlistButton(id) =>
        ToggleWishlist(id);
      case RemoveFromWishlistButton(id) =>
        // on the cart page the cart branch runs next, but no cart action
        // matches this button's class, so it only re-saves the cart
        RemoveFromWishlist(id);
      case IncreaseQuantityButton(id) =>
        if onCartPage {
          IncreaseQuantity(id);
        }
      case DecreaseQuantityButton(id) =>
        if onCartPage {
          DecreaseQuantity(id);
        }
      case RemoveFromCartButton(id) =>
        if onCartPage {
          RemoveFromCart(id);
        }
      case Elsewhere =>
    }
  }

  /** A $10.00 product added once and a $5.00 product added twice make a
      $20.00 subtotal. */
  method SubtotalScenario(p1: Product, p2: Product) returns (subtotal: int)
    requires p1.id != p2.id && p1.price == 1000 && p2.price == 500
    ensures subtotal == 2000
  {
    var store := new Store([p1, p2], None, None);
    assert [p1, p2][1..] == [p2];
    assert Find(store.catalog, p1.id) == Some(p1);
    assert IndexOfKey([p2], IdOf, p2.id) == Some(0);
    assert IndexOfKey([p1, p2], IdOf, p2.id) == Some(1);
    assert Find(store.catalog, p2.id) == Some(p2);
    store.AddToCart(p1.id);
    assert store.cart == [CartEntry(p1, 1)];
    store.AddToCart(p2.id);
    var two := [CartEntry(p1, 1), CartEntry(p2, 1)];
    assert store.cart == two;
    assert two[1..] == [CartEntry(p2, 1)];
    assert IndexOfKey(two, EntryId, p2.id) == Some(1);
    store.AddToCart(p2.id);
    var final := [CartEntry(p1, 1), CartEntry(p2, 2)];
    assert store.cart == final;
    assert final[1..] == [CartEntry(p2, 2)];
    assert Subtotal([CartEntry(p2, 2)]) == 1000;
    subtotal := store.ComputeSubtotal();
  }
}
