/** The shopping cart: an ordered list of entries, each a copy of a catalog
    product taken when it was first added (`{ ...product, quantity }`)
    together with how many of it are wanted. */
module Cart {
  import opened Lists
  import opened Catalog

  datatype CartEntry = CartEntry(product: Product, quantity: int)

  function EntryId(e: CartEntry): int
  {
    e.product.id
  }

  predicate InCart(cart: seq<CartEntry>, id: ProductId)
  {
    HasKey(cart, EntryId, id)
  }

  predicate PositiveQuantities(cart: seq<CartEntry>)
  {
    forall i :: 0 <= i < |cart| ==> cart[i].quantity >= 1
  }

  /** The cart invariant: one entry per product, and no entry with a quantity below 1. */
  predicate WellFormed(cart: seq<CartEntry>)
  {
    UniqueBy(cart, EntryId) && PositiveQuantities(cart)
  }

  /** How many of product `id` the cart holds: the quantity of the entry
      `cart.find` returns, or 0 when there is none. */
  function Quantity(cart: seq<CartEntry>, id: ProductId): (q: int)
    ensures !InCart(cart, id) ==> q == 0
    ensures PositiveQuantities(cart) && InCart(cart, id) ==> q >= 1
  {
    match IndexOfKey(cart, EntryId, id)
    case Some(i) => cart[i].quantity
    case None => 0
  }

  /** With one entry per product, each entry's quantity is the product's quantity. */
  lemma QuantityOfEntry(cart: seq<CartEntry>, e: CartEntry)
    requires UniqueBy(cart, EntryId) && e in cart
    ensures Quantity(cart, e.product.id) == e.quantity
  {
  }

  /** `item.quantity++` on the entry at `i`. */
  function Incremented(cart: seq<CartEntry>, i: nat): (r: seq<CartEntry>)
    requires i < |cart|
    ensures |r| == |cart| && r[i].product == cart[i].product
    ensures forall j :: 0 <= j < |r| && j != i ==> r[j] == cart[j]
  {
    cart[i := cart[i].(quantity := cart[i].quantity + 1)]
  }

  /** `item.quantity--` on the entry at `i`. */
  function Decremented(cart: seq<CartEntry>, i: nat): (r: seq<CartEntry>)
    requires i < |cart|
    ensures |r| == |cart| && r[i].product == cart[i].product
    ensures forall j :: 0 <= j < |r| && j != i ==> r[j] == cart[j]
  {
    cart[i := cart[i].(quantity := cart[i].quantity - 1)]
  }

  /** The cart after `addToCart(id)`. */
  function Added(catalog: seq<Product>, cart: seq<CartEntry>, id: ProductId): (r: seq<CartEntry>)
    ensures Find(catalog, id).None? ==> r == cart
    ensures |r| == if Find(catalog, id).Some? && !InCart(cart, id) then |cart| + 1 else |cart|
    ensures forall j :: 0 <= j < |cart| ==>
      r[j].product == cart[j].product && (EntryId(cart[j]) != id ==> r[j] == cart[j])
    ensures InCart(r, id) <==> InCart(cart, id) || Find(catalog, id).Some?
  {
    match Find(catalog, id)
    case None => cart
    case Some(p) =>
      match IndexOfKey(cart, EntryId, id)
      case Some(i) =>
        assert Incremented(cart, i)[i] in Incremented(cart, i);
        Incremented(cart, i)
      case None =>
        assert CartEntry(p, 1) in cart + [CartEntry(p, 1)];
        cart + [CartEntry(p, 1)]
  }

  /** The cart after its "+" button for `id`. */
  function Increased(cart: seq<CartEntry>, id: ProductId): (r: seq<CartEntry>)
    ensures !InCart(cart, id) ==> r == cart
    ensures |r| == |cart|
    ensures forall j :: 0 <= j < |r| ==> r[j].product == cart[j].product
    ensures forall j :: 0 <= j < |r| && EntryId(r[j]) != id ==> r[j] == cart[j]
  {
    match IndexOfKey(cart, EntryId, id)
    case Some(i) => Incremented(cart, i)
    case None => cart
  }

  /** The cart after its "-" button for `id`: one fewer, or the entry dropped when it held one. */
  function Decreased(cart: seq<CartEntry>, id: ProductId): (r: seq<CartEntry>)
    ensures !InCart(cart, id) ==> r == cart
    ensures |r| <= |cart|
    ensures forall e :: e in cart && EntryId(e) != id ==> e in r
    ensures forall e :: e in r && EntryId(e) != id ==> e in cart
  {
    match IndexOfKey(cart, EntryId, id)
    case Some(i) => if cart[i].quantity > 1 then Decremented(cart, i) else Without(cart, EntryId, id)
    case None => cart
  }

  /** The cart after its "Remove" button for `id`. */
  function Removed(cart: seq<CartEntry>, id: ProductId): (r: seq<CartEntry>)
    ensures !InCart(r, id)
    ensures forall e :: e in r <==> e in cart && EntryId(e) != id
    ensures |r| <= |cart|
  {
    match IndexOfKey(cart, EntryId, id)
    case Some(_) => Without(cart, EntryId, id)
    case None => cart
  }

  /** Raising one entry by one keeps the invariant, adds one to that product
      and changes no other product's quantity. */
  lemma IncrementedEffect(cart: seq<CartEntry>, i: nat)
    requires WellFormed(cart) && i < |cart|
    ensures WellFormed(Incremented(cart, i))
    ensures
      forall x :: Quantity(Incremented(cart, i), x) ==
        (if x == EntryId(cart[i]) then Quantity(cart, x) + 1 else Quantity(cart, x))
  {
  }

  /** Lowering an entry above 1 by one keeps the invariant, takes one from
      that product and changes no other product's quantity. */
  lemma DecrementedEffect(cart: seq<CartEntry>, i: nat)
    requires WellFormed(cart) && i < |cart| && cart[i].quantity > 1
    ensures WellFormed(Decremented(cart, i))
    ensures
      forall x :: Quantity(Decremented(cart, i), x) ==
        (if x == EntryId(cart[i]) then Quantity(cart, x) - 1 else Quantity(cart, x))
  {
  }

  /** Dropping product `id` keeps the invariant, leaves it with quantity 0 and
      changes no other product's quantity. */
  lemma WithoutEffect(cart: seq<CartEntry>, id: ProductId)
    requires WellFormed(cart)
    ensures WellFormed(Without(cart, EntryId, id))
    ensures
      forall x :: Quantity(Without(cart, EntryId, id), x) ==
        (if x == id then 0 else Quantity(cart, x))
  {
    var r := Without(cart, EntryId, id);
    WithoutUnique(cart, EntryId, id);
    forall j | 0 <= j < |r|
      ensures r[j].quantity >= 1
    {
      assert r[j] in cart;
    }
    forall x
      ensures Quantity(r, x) == if x == id then 0 else Quantity(cart, x)
    {
      HasKeyWithout(cart, EntryId, id, x);
      if x != id && InCart(cart, x) {
        var c :| c in cart && EntryId(c) == x;
        QuantityOfEntry(cart, c);
        QuantityOfEntry(r, c);
      }
    }
  }

  /** `addToCart(id)`: an identifier outside the catalog changes nothing;
      otherwise the product's quantity goes up by exactly one, either on its
      existing entry (nothing else moves) or as a new entry of quantity 1 at
      the end, and no other product's quantity changes. */
  lemma AddedProperties(catalog: seq<Product>, cart: seq<CartEntry>, id: ProductId)
    requires WellFormed(cart)
    ensures WellFormed(Added(catalog, cart, id))
    ensures Find(catalog, id).None? ==> Added(catalog, cart, id) == cart
    ensures Find(catalog, id).Some? ==>
      forall x :: Quantity(Added(catalog, cart, id), x) ==
        if x == id then Quantity(cart, x) + 1 else Quantity(cart, x)
    ensures Find(catalog, id).Some? && !InCart(cart, id) ==>
      Added(catalog, cart, id) == cart + [CartEntry(Find(catalog, id).value, 1)]
    ensures InCart(cart, id) ==>
      |Added(catalog, cart, id)| == |cart| &&
      forall j :: 0 <= j < |cart| ==>
        Added(catalog, cart, id)[j].product == cart[j].product &&
        (EntryId(cart[j]) != id ==> Added(catalog, cart, id)[j] == cart[j])
  {
    match Find(catalog, id)
    case None =>
    case Some(p) =>
      match IndexOfKey(cart, EntryId, id)
      case Some(i) =>
        IncrementedEffect(cart, i);
      case None =>
        var e := CartEntry(p, 1);
        var r := cart + [e];
        UniqueAppend(cart, e, EntryId);
        assert e in r;
        QuantityOfEntry(r, e);
        forall x | x != id
          ensures Quantity(r, x) == Quantity(cart, x)
        {
          if InCart(cart, x) {
            var c :| c in cart && EntryId(c) == x;
            assert c in r;
            QuantityOfEntry(cart, c);
            QuantityOfEntry(r, c);
          } else {
            assert forall y :: y in r ==> y in cart || y == e;
          }
        }
  }

  /** The "+" button: the product's quantity goes up by one when it is in the
      cart, and nothing changes otherwise. */
  lemma IncreasedProperties(cart: seq<CartEntry>, id: ProductId)
    requires WellFormed(cart)
    ensures WellFormed(Increased(cart, id))
    ensures !InCart(cart, id) ==> Increased(cart, id) == cart
    ensures InCart(cart, id) ==>
      forall x :: Quantity(Increased(cart, id), x) ==
        if x == id then Quantity(cart, x) + 1 else Quantity(cart, x)
    ensures |Increased(cart, id)| == |cart|
    ensures forall j :: 0 <= j < |cart| && EntryId(cart[j]) != id ==> Increased(cart, id)[j] == cart[j]
  {
  }

  /** The "-" button: a quantity above 1 goes down by one, an entry holding
      1 is dropped (keeping the order of the rest), an absent product changes
      nothing; no other product's quantity changes. */
  lemma DecreasedProperties(cart: seq<CartEntry>, id: ProductId)
    requires WellFormed(cart)
    ensures WellFormed(Decreased(cart, id))
    ensures !InCart(cart, id) ==> Decreased(cart, id) == cart
    ensures
      forall x :: Quantity(Decreased(cart, id), x) ==
        (if x != id then Quantity(cart, x)
         else if Quantity(cart, x) > 1 then Quantity(cart, x) - 1
         else 0)
    ensures Quantity(cart, id) > 1 ==>
      |Decreased(cart, id)| == |cart| &&
      forall j :: 0 <= j < |cart| ==>
        Decreased(cart, id)[j].product == cart[j].product &&
        (EntryId(cart[j]) != id ==> Decreased(cart, id)[j] == cart[j])
    ensures Quantity(cart, id) == 1 ==>
      exists i :: 0 <= i < |cart| && EntryId(cart[i]) == id &&
        Decreased(cart, id) == cart[..i] + cart[i + 1..]
  {
    match IndexOfKey(cart, EntryId, id)
    case Some(i) =>
      if cart[i].quantity > 1 {
        assert Decreased(cart, id) == Decremented(cart, i);
        DecrementedEffect(cart, i);
      } else {
        WithoutEffect(cart, id);
        WithoutAt(cart, EntryId, i);
      }
    case None =>
  }

  /** The "Remove" button: the product's entry is dropped and the other
      entries keep their order; an absent product changes nothing. */
  lemma RemovedProperties(cart: seq<CartEntry>, id: ProductId)
    requires WellFormed(cart)
    ensures WellFormed(Removed(cart, id))
    ensures !InCart(cart, id) ==> Removed(cart, id) == cart
    ensures forall x :: Quantity(Removed(cart, id), x) == if x == id then 0 else Quantity(cart, x)
    ensures InCart(cart, id) ==>
      exists i :: 0 <= i < |cart| && EntryId(cart[i]) == id &&
        Removed(cart, id) == cart[..i] + cart[i + 1..]
  {
    match IndexOfKey(cart, EntryId, id)
    case Some(i) =>
      WithoutEffect(cart, id);
      WithoutAt(cart, EntryId, i);
    case None =>
  }

  /** `item.price * item.quantity`, in cents. */
  function LineTotal(e: CartEntry): (total: int)
    ensures e.quantity >= 1 ==> total >= e.product.price
    ensures e.quantity == 0 ==> total == 0
  {
    e.product.price * e.quantity
  }

  /** The sum of price times quantity over all entries, in cents. */
  function Subtotal(cart: seq<CartEntry>): (total: int)
    ensures PositiveQuantities(cart) ==> total >= 0
    ensures PositiveQuantities(cart) && total == 0 ==> forall i :: 0 <= i < |cart| ==> cart[i].product.price == 0
  {
    if cart == [] then 0 else LineTotal(cart[0]) + Subtotal(cart[1..])
  }

  lemma {:induction false} SubtotalConcat(a: seq<CartEntry>, b: seq<CartEntry>)
    ensures Subtotal(a + b) == Subtotal(a) + Subtotal(b)
    decreases |a|
  {
    if a == [] {
      assert a + b == b;
    } else {
      assert (a + b)[0] == a[0] && (a + b)[1..] == a[1..] + b;
      SubtotalConcat(a[1..], b);
    }
  }

  /** Raising an entry by one raises the subtotal by that entry's unit price. */
  lemma {:induction false} SubtotalIncremented(cart: seq<CartEntry>, i: nat)
    requires i < |cart|
    ensures Subtotal(Incremented(cart, i)) == Subtotal(cart) + cart[i].product.price
    decreases i
  {
    var r := Incremented(cart, i);
    if i == 0 {
      assert r[1..] == cart[1..];
    } else {
      assert r[0] == cart[0] && r[1..] == Incremented(cart[1..], i - 1);
      SubtotalIncremented(cart[1..], i - 1);
    }
  }

  /** Adding a catalog product raises the subtotal by the unit price its cart
      entry carries: the catalog price for a new entry, the price copied
      into the existing entry otherwise. */
  lemma AddedSubtotal(catalog: seq<Product>, cart: seq<CartEntry>, id: ProductId)
    requires WellFormed(cart) && Find(catalog, id).Some?
    ensures !InCart(cart, id) ==>
      Subtotal(Added(catalog, cart, id)) == Subtotal(cart) + Find(catalog, id).value.price
    ensures forall e :: e in cart && EntryId(e) == id ==>
      Subtotal(Added(catalog, cart, id)) == Subtotal(cart) + e.product.price
  {
    var p := Find(catalog, id).value;
    match IndexOfKey(cart, EntryId, id)
    case Some(i) =>
      SubtotalIncremented(cart, i);
      forall e | e in cart && EntryId(e) == id
        ensures e == cart[i]
      {
        var j :| 0 <= j < |cart| && cart[j] == e;
      }
    case None =>
      SubtotalConcat(cart, [CartEntry(p, 1)]);
  }
}
