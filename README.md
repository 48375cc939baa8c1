# Storefront cart, wishlist and search — a Dafny model

This project models the state logic of a small browser storefront (`script.js`).
The page script keeps two mutable lists:

- the **cart**, an ordered list of entries. Each entry is a copy of a catalog product plus a quantity.
- the **wishlist**, an ordered list of products.

Both lists are mirrored to local storage after every change. The script also
filters a read-only **catalog** by a search term.

The model has six modules:

- `Lists` models the array idioms the script uses: `filter`, and `find`/`some`/`filter` by product id.
- `Catalog` holds the product record and `allProducts.find`.
- `Search` holds ASCII lower-casing, `includes`, the search filter of the search button, and the home page's `?search=` query.
- `Cart` holds the cart invariant and one specification function per cart operation. Its lemmas state what each operation does to every product's quantity and to the order of entries. It also holds the subtotal.
- `Wishlist` holds membership (`some`), toggling and removal, with their lemmas.
- `Storefront` holds the class `Store`: the catalog, the `cart` and `wishlist` sequences, and what was last saved to local storage. It has one method per handler. Each method is proved against the specification function of its module. Each method also keeps the invariant `Valid()`: every quantity is at least 1, ids are unique in both lists, and storage equals memory. The class also has the `renderCart` subtotal loop and the body click dispatcher.

Prices are whole cents and product ids are integers. Lower-casing covers ASCII letters only.

The model follows what the code does, including where it is more specific than a generic storefront description:

- The wishlist is an ordered list with append-at-end, not a set.
- `toggleWishlist` returns nothing; the detail-page icon is set from the old membership state.
- Search matches the description as well as the name, on both the button and the `?search=` paths.

## Model

| member | source | states |
|---|---|---|
| `Lists.Filter` | script.js:306-309 | `filter` keeps exactly the elements that pass the test, each as many times as it occurs in the input, and never lengthens the list |
| `Lists.FilterIsSubsequence` | script.js:306-309 | the result of `filter` is an order-preserving sublist of its input |
| `Lists.IndexOfKey` | script.js:112 | `find` by id stops at the first element with that id; it finds nothing exactly when no element has that id |
| `Lists.Without` | script.js:81 | `filter(item => item.id != id)` keeps exactly the elements with another id, each as many times as it occurs, in their order |
| `Lists.WithoutAt` | script.js:289 | when ids are unique, dropping an element's id removes exactly that element and keeps the others in order |
| `Lists.WithoutUnique` | script.js:270 | filtering by id never introduces duplicate ids |
| `Lists.UniqueAppend` | script.js:84 | pushing an element keeps ids unique exactly when its id was not present |
| `Catalog.Find` | script.js:109-110 | `allProducts.find` gives the first catalog product with the id, and nothing exactly when the catalog lacks that id |
| `Search.Lower` | script.js:303 | lower-casing keeps the length, maps each character, and leaves no upper-case ASCII letter |
| `Search.LowerIdempotent` | script.js:348 | lower-casing an already lower-cased term changes nothing |
| `Search.Includes` | script.js:307-308 | `includes` holds exactly when the term occurs at some position of the text |
| `Search.SearchCatalog` | script.js:303-309 | the search result is an order-preserving sublist of the catalog holding exactly the products whose lower-cased name or description contains the lower-cased term, a repeated catalog record as often as the catalog holds it |
| `Search.Matches` | script.js:306-309 | a product passes the search test exactly when the lower-cased term occurs at some position of its lower-cased name or of its lower-cased description |
| `Search.InitialGrid` | script.js:343-352 | the grid drawn on load is the whole catalog, in order, when the address has no `search` query; otherwise it lists only catalog products, never more of them than the catalog holds, and with a `search` query only products matching it; `Search.InitialGridIsSearch` shows it equals the search button's result |
| `Search.SearchEmptyTerm` | script.js:344-352 | an empty term matches every product, so the whole catalog is listed |
| `Search.SearchIgnoresCase` | script.js:303 | searching for the lower-cased term gives the same products as the term itself |
| `Search.InitialGridIsSearch` | script.js:341-352 | a `search` query in the address (empty or not) shows exactly what the search button shows for it |
| `Search.RedirectedSearchAgrees` | script.js:311-314 | the redirect from another page, which carries the lower-cased term, leads to the same products as searching on the home page |
| `Cart.Quantity` | script.js:112-114 | a product absent from the cart has quantity 0; a present one has quantity at least 1 when all quantities are positive |
| `Cart.QuantityOfEntry` | script.js:280 | with unique ids, the entry found for a product carries that product's quantity |
| `Cart.Incremented` | script.js:284 | `quantity++` touches only the entry at its index: the length, that entry's product and every other entry stay as they were; `Cart.IncrementedEffect` and `Cart.SubtotalIncremented` give its effect on quantities and on the subtotal |
| `Cart.Decremented` | script.js:287 | `quantity--` touches only the entry at its index: the length, that entry's product and every other entry stay as they were; `Cart.DecrementedEffect` gives its effect on quantities |
| `Cart.Added` | script.js:108-117 | `addToCart`: an id outside the catalog changes nothing; the cart grows by one entry exactly when a catalog product is not yet in it; every old entry keeps its position and its product copy, and entries of other products are untouched; afterwards the product is in the cart exactly when it was before or is in the catalog; `Cart.AddedProperties` and `Cart.AddedSubtotal` give the rest |
| `Cart.Increased` | script.js:280-284 | "+": an id not in the cart changes nothing; the length and every entry's product stay, and entries of other products are untouched; `Cart.IncreasedProperties` gives the quantities |
| `Cart.Decreased` | script.js:285-290 | "-": an id not in the cart changes nothing; the cart never grows; entries of other products are neither lost nor invented; `Cart.DecreasedProperties` gives the quantities, and the positions in both the decrement and the removal case |
| `Cart.Removed` | script.js:291-292 | cart "Remove": afterwards the product is not in the cart, and the remaining entries are exactly the old entries of other products; `Cart.RemovedProperties` gives the quantities and the order |
| `Cart.IncrementedEffect` | script.js:284 | `quantity++` keeps the cart invariant, adds one to that product only |
| `Cart.DecrementedEffect` | script.js:286-287 | `quantity--` above 1 keeps the invariant, takes one from that product only |
| `Cart.WithoutEffect` | script.js:292 | filtering a product out keeps the invariant, sets it to 0 and changes no other product's quantity |
| `Cart.AddedProperties` | script.js:108-117 | `addToCart`: an id outside the catalog changes nothing; otherwise the product's quantity rises by exactly 1, either on the existing entry, which keeps its position and product copy while all other entries stay unchanged, or as a new entry of quantity 1 at the end; no other quantity changes; ids stay unique and quantities positive |
| `Cart.IncreasedProperties` | script.js:280-284 | "+" raises only that product by 1 and leaves the other entries as they were; an id not in the cart changes nothing |
| `Cart.DecreasedProperties` | script.js:285-290 | "-" lowers a quantity above 1 by one in place (same length, every entry keeps its position and product, other entries unchanged) and removes an entry at 1, keeping the order of the rest; an id not in the cart changes nothing; the invariant holds |
| `Cart.RemovedProperties` | script.js:291-292 | "Remove" drops the product's entry and keeps the rest in order; other quantities are unchanged; an id not in the cart changes nothing |
| `Cart.Subtotal` | script.js:130-133 | the subtotal of a cart with positive quantities is never negative, and it is 0 only when every entry's price is 0 |
| `Cart.LineTotal` | script.js:132 | `item.price * item.quantity` is at least the unit price for a positive quantity, and 0 for quantity 0 |
| `Cart.SubtotalConcat` | script.js:131-133 | the subtotal of two carts placed end to end is the sum of their subtotals |
| `Cart.SubtotalIncremented` | script.js:114 | raising an entry by one raises the subtotal by that entry's unit price |
| `Cart.AddedSubtotal` | script.js:112-117 | adding a product raises the subtotal by the price its cart entry carries: the catalog price for a new entry, or the price copied into the existing entry |
| `Wishlist.IsWishlisted` | script.js:78 | `wishlist.some(item => item.id == id)` holds exactly when some position of the wishlist holds a product with that id |
| `Wishlist.Toggled` | script.js:74-86 | `toggleWishlist`: an id outside the catalog changes nothing; for a catalog id the membership flips; every product with another id is in the list afterwards exactly when it was before; `Wishlist.ToggledProperties` adds order and the absence of duplicates |
| `Wishlist.ToggledProperties` | script.js:74-87 | `toggleWishlist` on a catalog id flips that product's membership and no other: an absent product is appended at the end, a present one is removed and the rest keep their order; an id outside the catalog changes nothing; no duplicates arise |
| `Wishlist.ToggleTwiceMembership` | script.js:78-85 | toggling the same id twice restores every product's membership |
| `Wishlist.ToggleTwiceRestores` | script.js:80-84 | toggling a product on and off again gives back the very same list |
| `Wishlist.RemoveFromWishlistProperties` | script.js:268-271 | "Remove" on the wishlist page drops exactly the entries with that id, keeps the others in order, and keeps ids unique |
| `Storefront.Store.constructor` | script.js:12-14 | the lists start as what local storage holds, or empty when it holds nothing, and storage agrees with memory |
| `Storefront.Store.AddToCart` | script.js:108-120 | the cart becomes `Added` of the old cart, the invariant is kept, the cart is saved, the wishlist is untouched, and the quantities change as `Cart.AddedProperties` states |
| `Storefront.Store.ToggleWishlist` | script.js:74-87 | the wishlist becomes `Toggled` of the old one and is saved; the cart is untouched; membership of a catalog id flips |
| `Storefront.Store.RemoveFromWishlist` | script.js:268-273 | the wishlist loses every entry with that id and is saved; the cart is untouched |
| `Storefront.Store.IncreaseQuantity` | script.js:280-284 | the cart becomes `Increased` of the old cart and is saved; only that product's quantity rises by 1 when present |
| `Storefront.Store.DecreaseQuantity` | script.js:285-290 | the cart becomes `Decreased` of the old cart and is saved; that product's quantity drops by 1, or to 0 (entry gone) from 1 |
| `Storefront.Store.RemoveFromCart` | script.js:291-292 | the cart becomes `Removed` of the old cart, no longer holds the product, and is saved |
| `Storefront.Store.Checkout` | script.js:318-329 | the order is placed exactly when the cart was non-empty; afterwards the cart is empty and saved, and the wishlist is untouched |
| `Storefront.Store.ComputeSubtotal` | script.js:130-133 | the accumulating loop returns the sum of price times quantity over all entries, which is non-negative |
| `Storefront.Store.OnClick` | script.js:241-299 | the body click handler routes each button to its operation; the quantity and cart "Remove" buttons act only on the cart page; a card click or a click elsewhere changes nothing |
| `Storefront.SubtotalScenario` | script.js:108-133 | a $10.00 product added once and a $5.00 product added twice give a subtotal of 2000 cents |

## Left out

- Page markup from `renderProducts`, `renderCart`, `renderWishlist` and `displayProductDetails`, the thumbnail listeners, and the detail-page icon update (script.js:51-72, 94-105, 122-238) are presentation. Only the data they read is modelled: `IsWishlisted` and the subtotal.
- `showNotification` and its timers (script.js:25-49) are UI timing. `Checkout` returns which notice would be shown.
- The `fetch` of `products.json`, JSON parsing and the error message in `init` (script.js:332-374) are I/O. The catalog is a constructor argument.
- Local storage and JSON serialisation (script.js:13-18) are a snapshot: `savedCart`/`savedWishlist` are set equal to the lists after each change. Storage quota errors are not modelled.
- Navigation through `window.location` and `URLSearchParams` (script.js:8-9, 251, 313) is browser plumbing. The encode/decode of the `search` parameter is taken as an exact round trip, and the product-card click only navigates.
- Product images and the specification table are not part of `Product`: only the markup uses them.
- Floating-point prices and `toFixed(2)` are replaced by whole cents.
- JavaScript loose equality between string `data-id` values and numeric ids is not modelled: ids are one integer type.
- `toLowerCase` is modelled for ASCII letters only, with no Unicode case mapping.
- The grid redrawn after a toggle is not modelled: `toggleWishlist` redraws it with the whole catalog (script.js:90), so an active search filter is discarded on screen, while the model defines the grid only on load (`InitialGrid`) and after a search (`SearchCatalog`).
- The `if (!id) return` guard of the cart branch (script.js:277-278) is a click on a button without a product id, which is `Click.Elsewhere`.
- Storefront.Store.constructor: requires the stored cart to satisfy the cart invariant and the stored wishlist to hold no duplicate ids. The script does not check what it reads back; the model assumes the stored lists were written by these same operations.
