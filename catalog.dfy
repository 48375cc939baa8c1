/** The read-only product catalog (`allProducts`), loaded once at start-up. */
module Catalog {
  import opened Lists

  type ProductId = int

  /** A catalog product. Prices are whole cents; images and the
      specification table only feed the page markup and are not modelled. */
  datatype Product = Product(id: ProductId, name: string, description: string, price: nat)

  function IdOf(p: Product): int
  {
    p.id
  }

  /** `allProducts.find(p => p.id == id)`: the first catalog product with
      identifier `id`, or `None` when the catalog has none. */
  function Find(catalog: seq<Product>, id: ProductId): (r: Option<Product>)
    ensures r.Some? ==> r.value in catalog && r.value.id == id
    ensures r.Some? ==>
      exists i :: 0 <= i < |catalog| && catalog[i] == r.value &&
        forall j :: 0 <= j < i ==> catalog[j].id != id
    ensures r.None? <==> !HasKey(catalog, IdOf, id)
  {
    match IndexOfKey(catalog, IdOf, id)
    case Some(i) => Some(catalog[i])
    case None => None
  }
}
