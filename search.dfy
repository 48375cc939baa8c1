/** Searching the catalog: case-insensitive substring match on a product's
    name or description, as the search button and the `?search=` query of
    the home page do it. */
module Search {
  import opened Lists
  import opened Catalog

  function LowerChar(c: char): char
  {
    if 'A' <= c <= 'Z' then (c as int - 'A' as int + 'a' as int) as char else c
  }

  /** `toLowerCase`, for ASCII letters. */
  function Lower(s: string): (r: string)
    ensures |r| == |s|
    ensures forall i :: 0 <= i < |s| ==> r[i] == LowerChar(s[i])
    ensures forall i :: 0 <= i < |r| ==> !('A' <= r[i] <= 'Z')
  {
    seq(|s|, i requires 0 <= i < |s| => LowerChar(s[i]))
  }

  lemma LowerIdempotent(s: string)
    ensures Lower(Lower(s)) == Lower(s)
  {
  }

  /** `term` occurs in `text` starting at position `i`. */
  predicate OccursAt(text: string, term: string, i: nat)
  {
    i + |term| <= |text| && text[i..i + |term|] == term
  }

  lemma OccursAtShift(text: string, term: string, i: nat)
    requires text != []
    ensures OccursAt(text[1..], term, i) <==> OccursAt(text, term, i + 1)
  {
  }

  /** `String.prototype.includes`: `term` is a substring of `text`. */
  function Includes(text: string, term: string): (r: bool)
    ensures r <==> exists i: nat :: OccursAt(text, term, i)
    decreases |text|
  {
    if |term| > |text| then false
    else if text[..|term|] == term then
      assert OccursAt(text, term, 0);
      true
    else
      var r := Includes(text[1..], term);
      if r then
        var i: nat :| OccursAt(text[1..], term, i);
        OccursAtShift(text, term, i);
        r
      else
        forall i: nat
          ensures !OccursAt(text, term, i)
        {
          if i > 0 {
            OccursAtShift(text, term, i - 1);
          }
        }
        r
  }

  /** The filter test of the search: the lower-cased name or the lower-cased
      description contains the lower-cased term. */
  predicate Matches(p: Product, term: string): (b: bool)
    ensures b <==>
      (exists i: nat :: OccursAt(Lower(p.name), Lower(term), i)) ||
      (exists i: nat :: OccursAt(Lower(p.description), Lower(term), i))
  {
    Includes(Lower(p.name), Lower(term)) || Includes(Lower(p.description), Lower(term))
  }

  function MatchesTerm(term: string): Product -> bool
  {
    p => Matches(p, term)
  }

  /** The search button on the home page: the catalog products that match, in catalog order. */
  function SearchCatalog(catalog: seq<Product>, term: string): (r: seq<Product>)
    ensures IsSubsequence(r, catalog)
    ensures forall p :: p in r <==> p in catalog && Matches(p, term)
    ensures forall p :: multiset(r)[p] == if Matches(p, term) then multiset(catalog)[p] else 0
    ensures |r| <= |catalog|
  {
    FilterIsSubsequence(catalog, MatchesTerm(term));
    Filter(catalog, MatchesTerm(term))
  }

  /** Every product matches the empty term, so searching for it lists the whole catalog. */
  lemma SearchEmptyTerm(catalog: seq<Product>)
    ensures SearchCatalog(catalog, "") == catalog
  {
    forall p | p in catalog
      ensures MatchesTerm("")(p)
    {
      assert OccursAt(Lower(p.name), Lower(""), 0);
    }
    FilterKeepsAll(catalog, MatchesTerm(""));
  }

  /** Case does not matter in the term: searching for its lower-cased form gives the same products. */
  lemma SearchIgnoresCase(catalog: seq<Product>, term: string)
    ensures SearchCatalog(catalog, Lower(term)) == SearchCatalog(catalog, term)
  {
    LowerIdempotent(term);
    FilterCongruent(catalog, MatchesTerm(Lower(term)), MatchesTerm(term));
  }

  /** The grid the home page draws on load: the whole catalog, or, when the
      address carries a non-empty `search` query, the products matching it. */
  function InitialGrid(catalog: seq<Product>, query: Option<string>): (r: seq<Product>)
    ensures query.None? ==> r == catalog
    ensures |r| <= |catalog|
    ensures forall p :: p in r ==> p in catalog && (query.Some? ==> Matches(p, query.value))
  {
    match query
    case None => catalog
    case Some(q) =>
      if q == "" then
        forall p | p in catalog
          ensures Matches(p, q)
        {
          assert OccursAt(Lower(p.name), Lower(q), 0);
        }
        catalog
      else Filter(catalog, MatchesTerm(q))
  }

  /** A `search` query in the address shows exactly what the search button shows for it. */
  lemma InitialGridIsSearch(catalog: seq<Product>, q: string)
    ensures InitialGrid(catalog, Some(q)) == SearchCatalog(catalog, q)
  {
    if q == "" {
      SearchEmptyTerm(catalog);
    }
  }

  /** Searching from another page redirects home with the lower-cased term in
      the address; the home page then shows what the search button would have. */
  lemma RedirectedSearchAgrees(catalog: seq<Product>, term: string)
    ensures InitialGrid(catalog, Some(Lower(term))) == SearchCatalog(catalog, term)
  {
    InitialGridIsSearch(catalog, Lower(term));
    SearchIgnoresCase(catalog, term);
  }
}
