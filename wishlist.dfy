/** The wishlist: an ordered list of catalog products, at most one per identifier. */
module Wishlist {
  import opened Lists
  import opened Catalog

  /** `wishlist.some(item => item.id == id)`: what the heart icon on a product card shows. */
  predicate IsWishlisted(wishlist: seq<Product>, id: ProductId): (b: bool)
    ensures b <==> exists i :: 0 <= i < |wishlist| && wishlist[i].id == id
  {
    assert forall i :: 0 <= i < |wishlist| ==> wishlist[i] in wishlist && IdOf(wishlist[i]) == wishlist[i].id;
    HasKey(wishlist, IdOf, id)
  }

  predicate NoDuplicates(wishlist: seq<Product>)
  {
    UniqueBy(wishlist, IdOf)
  }

  /** The wishlist after `toggleWishlist(id)`. */
  function Toggled(catalog: seq<Product>, wishlist: seq<Product>, id: ProductId): (r: seq<Product>)
    ensures Find(catalog, id).None? ==> r == wishlist
    ensures Find(catalog, id).Some? ==> (IsWishlisted(r, id) <==> !IsWishlisted(wishlist, id))
    ensures forall p: Product :: p.id != id ==> (p in r <==> p in wishlist)
  {
    match Find(catalog, id)
    case None => wishlist
    case Some(p) =>
      if IsWishlisted(wishlist, id) then Without(wishlist, IdOf, id)
      else
        assert p in wishlist + [p];
        wishlist + [p]
  }

  /** Toggling a catalog product flips its membership and no other; an
      identifier outside the catalog changes nothing; duplicates never arise.
      An absent product is appended at the end; a present one is dropped and
      the rest keep their order. */
  lemma ToggledProperties(catalog: seq<Product>, wishlist: seq<Product>, id: ProductId)
    requires NoDuplicates(wishlist)
    ensures NoDuplicates(Toggled(catalog, wishlist, id))
    ensures Find(catalog, id).None? ==> Toggled(catalog, wishlist, id) == wishlist
    ensures Find(catalog, id).Some? ==>
      (IsWishlisted(Toggled(catalog, wishlist, id), id) <==> !IsWishlisted(wishlist, id))
    ensures forall x :: x != id ==>
      (IsWishlisted(Toggled(catalog, wishlist, id), x) <==> IsWishlisted(wishlist, x))
    ensures Find(catalog, id).Some? && !IsWishlisted(wishlist, id) ==>
      Toggled(catalog, wishlist, id) == wishlist + [Find(catalog, id).value]
    ensures Find(catalog, id).Some? && IsWishlisted(wishlist, id) ==>
      exists i :: 0 <= i < |wishlist| && wishlist[i].id == id &&
        Toggled(catalog, wishlist, id) == wishlist[..i] + wishlist[i + 1..]
  {
    match Find(catalog, id)
    case None =>
    case Some(p) =>
      if IsWishlisted(wishlist, id) {
        WithoutUnique(wishlist, IdOf, id);
        forall x
          ensures IsWishlisted(Without(wishlist, IdOf, id), x) <==> IsWishlisted(wishlist, x) && x != id
        {
          HasKeyWithout(wishlist, IdOf, id, x);
        }
        var i := IndexOfKey(wishlist, IdOf, id).value;
        WithoutAt(wishlist, IdOf, i);
      } else {
        UniqueAppend(wishlist, p, IdOf);
        var r := wishlist + [p];
        assert p in r;
        forall x | x != id
          ensures IsWishlisted(r, x) <==> IsWishlisted(wishlist, x)
        {
          assert forall y :: y in r <==> y in wishlist || y == p;
        }
      }
  }

  /** Toggling the same identifier twice restores every product's membership. */
  lemma ToggleTwiceMembership(catalog: seq<Product>, wishlist: seq<Product>, id: ProductId)
    requires NoDuplicates(wishlist)
    ensures forall x ::
      IsWishlisted(Toggled(catalog, Toggled(catalog, wishlist, id), id), x) <==> IsWishlisted(wishlist, x)
  {
  }

  /** Adding a product and toggling it off again gives back the very same list. */
  lemma ToggleTwiceRestores(catalog: seq<Product>, wishlist: seq<Product>, id: ProductId)
    requires !IsWishlisted(wishlist, id)
    ensures Toggled(catalog, Toggled(catalog, wishlist, id), id) == wishlist
  {
    match Find(catalog, id)
    case None =>
    case Some(p) =>
      var r := wishlist + [p];
      assert p in r;
      assert IsWishlisted(r, id);
      FilterAppend(wishlist, [p], NotKey(IdOf, id));
      WithoutAbsent(wishlist, IdOf, id);
      assert Filter([p], NotKey(IdOf, id)) == [];
  }

  /** The wishlist page's "Remove": exactly the entries with that identifier
      go, the others stay in order, and duplicates never arise. */
  lemma RemoveFromWishlistProperties(wishlist: seq<Product>, id: ProductId)
    requires NoDuplicates(wishlist)
    ensures NoDuplicates(Without(wishlist, IdOf, id))
    ensures !IsWishlisted(Without(wishlist, IdOf, id), id)
    ensures forall x :: x != id ==> (IsWishlisted(Without(wishlist, IdOf, id), x) <==> IsWishlisted(wishlist, x))
    ensures !IsWishlisted(wishlist, id) ==> Without(wishlist, IdOf, id) == wishlist
    ensures IsWishlisted(wishlist, id) ==>
      exists i :: 0 <= i < |wishlist| && wishlist[i].id == id &&
        Without(wishlist, IdOf, id) == wishlist[..i] + wishlist[i + 1..]
  {
    WithoutUnique(wishlist, IdOf, id);
    forall x
      ensures IsWishlisted(Without(wishlist, IdOf, id), x) <==> IsWishlisted(wishlist, x) && x != id
    {
      HasKeyWithout(wishlist, IdOf, id, x);
    }
    if IsWishlisted(wishlist, id) {
      var i := IndexOfKey(wishlist, IdOf, id).value;
      WithoutAt(wishlist, IdOf, i);
    } else {
      WithoutAbsent(wishlist, IdOf, id);
    }
  }
}
