# Auto-parts storefront core, modelled in Dafny

The storefront is a small browser shop for car parts. Two page scripts carry the logic.

- `js/my.js` holds `AllProductsPage`, the catalog page. It:
  - collects the product categories;
  - lists them sorted, with counts;
  - filters the product grid by the selected category and a case-insensitive search;
  - keeps a cart saved under the `localStorage` key `'cart'`, whose `.cart-count` badge shows the total quantity;
  - replaces that cart when another tab changes the key.
- `js/products-carousel.js` holds `CarouselProductService`, which feeds the home-page carousel. It:
  - keeps the carousel-flagged products;
  - stable-sorts them by `carouselIndex`, with a missing index counting as 0;
  - cuts them into slides of `productsPerSlide`;
  - answers slide lookups and the slide count;
  - keeps its own cart under `'autoparts_cart'`, where adding takes a quantity and reports success.
- Both scripts format prices by putting a space between groups of three digits, counted from the right.

The project contains these modules:

- Wrappers: `Option`.
- Seqs: `Filter`, `CountWhere`, order-preserving subsequences and first-match search, with their laws.
- Text: lowercasing, substring search, string order, decimal digits.
- Products: the product record and lookup by id.
- Cart: cart lines, merge-or-append, totals, unique ids, and `localStorage` as a class holding a key → cart map.
- PriceFormat: `formatPrice`.
- Catalog: the catalog page's pure view logic.
- CatalogPage: the `AllProductsPage` class, whose methods update its fields in place.
- Carousel: the in-place stable sort on an array, paging, and the `CarouselProductService` class.

Storage holds already-parsed carts, and loading a product list means receiving the parsed list as an argument.

## Model

| member | source | states |
|---|---|---|
| `Products.FindById` | js/my.js:200 | `products.find(p => p.id == id)`: none exactly when no product has the id; otherwise a product of the list with that id, the first one |
| `Catalog.CategoriesOfSnoc` | js/my.js:17-21 | visiting one more product adds its category to the set exactly when the category is present and non-empty |
| `CatalogPage.AllProductsPage.LoadProducts` | js/my.js:14-25 | the products become the loaded list; the category set becomes the old set plus every distinct non-empty category of the list (it is never cleared); cart, selection and query are kept; the badge shows the cart total |
| `CatalogPage.AllProductsPage.constructor` | js/my.js:2-8 | empty products and categories, category "all", empty query, cart read from the 'cart' key (empty when absent) |
| `Catalog.InsertSorted` | js/my.js:45 | inserting a new string into a strictly ascending list keeps it strictly ascending, one longer, with exactly the old members plus the new one |
| `Catalog.SortCategories` | js/my.js:45 | `Array.from(categories).sort()`: every category exactly once, in strictly ascending order |
| `CatalogPage.AllProductsPage.CategoryListing` | js/my.js:38-54 | the "all" button counts every product; then one entry per category of the set, names strictly ascending, each count the number of products whose category equals that name |
| `Catalog.CategoryCountsSum` | js/my.js:40-48 | the category counts add up to the number of products with a non-empty category, and so to the "all" count when every product has one |
| `Catalog.SumCountsIsCountIn` | js/my.js:47-48 | the sum of per-category counts over distinct names equals the number of products whose category is one of those names |
| `Catalog.FilterProductsIsOneFilter` | js/my.js:64-79 | the category stage followed by the search stage is a single filter by "category passes and query, if any, matches" |
| `Catalog.FilterProductsSelects` | js/my.js:64-79 | the shown list is an order-preserving subsequence of the products; it contains a product exactly when that product passes both tests; its length is the number that pass; "all" with an empty query shows every product |
| `CatalogPage.AllProductsPage.VisibleProducts` | js/my.js:64-79 | the page's current grid: a subsequence of its products, holding exactly those that pass its category and query, as many as pass (so each as often as in the products), and all of them for "all" with no query |
| `Catalog.CategoryOnlyExact` | js/my.js:67-69 | with a category other than "all" and no query, the result is the only order-preserving subsequence made of that category's products that is as long as their count |
| `Catalog.FilterProductsIdempotent` | js/my.js:64-79 | filtering the shown list again with the same category and query changes nothing |
| `Catalog.SearchIgnoresQueryCase` | js/my.js:73 | lowercasing the query before searching gives the same list |
| `Text.Includes` | js/my.js:75-77 | `includes`: true exactly when the query occurs at some position of the text |
| `Text.LowerChar` | js/my.js:73 | `toLowerCase` on one character: it changes exactly when it is a capital of A–Z, А–Я or Ё; the result is never such a capital; a capital becomes the small letter at its position in the written-out alphabet tables |
| `Text.Lower` | js/my.js:73 | `toLowerCase`: same length; a character changes exactly when it is a modelled capital; each capital becomes its small letter from the alphabet tables; the result holds no modelled capital |
| `Text.CapitalsAreModelled` | js/my.js:73 | the capitals table lists exactly the characters that lowercasing changes |
| `Text.LowerOfCapitals` | js/my.js:73 | lowercasing the capitals table gives the small-letters table |
| `Text.LowerIdempotent` | js/my.js:73 | lowercasing twice equals lowercasing once |
| `Text.StrLtTransitive` | js/my.js:45 | the code-point order used for the sort is transitive |
| `Text.StrLtTotal` | js/my.js:45 | any two different strings are ordered one way or the other |
| `Text.StrLtIrreflexive` | js/my.js:45 | no string sorts before itself, so a strictly sorted list has distinct names |
| `CatalogPage.AllProductsPage.SelectCategory` | js/my.js:148 | the selected category becomes the clicked one; nothing else changes |
| `CatalogPage.AllProductsPage.SetSearchQuery` | js/my.js:159-160 | the query becomes the (trimmed) input value; nothing else changes |
| `CatalogPage.AllProductsPage.AddToCart` | js/my.js:199-226 | an unknown id changes nothing; a known one merges one unit into the product's line or appends its snapshot with quantity 1; the cart is saved under 'cart'; the badge shows the total, which rose by exactly 1; one line per id stays true |
| `CatalogPage.AllProductsPage.UpdateCartCount` | js/my.js:228-234 | the badge equals the sum of line quantities |
| `CatalogPage.AllProductsPage.OnStorageEvent` | js/my.js:182-186 | a change to 'cart' replaces the cart wholesale (empty when the key was removed) and refreshes the badge; any other key changes nothing |
| `Cart.MergeLine` | js/my.js:204-216 | the merge-or-append step both `addToCart`s perform raises the total by exactly the quantity added and keeps one line per id |
| `Cart.AddLineTotal` | js/my.js:204-216 | adding `quantity` of a product raises the total by exactly `quantity` |
| `Cart.AddLineQuantityOf` | js/my.js:204-216 | adding raises the added product's own quantity by `quantity` and leaves every other product's quantity unchanged |
| `Cart.AddLineFrame` | js/my.js:204-216 | lines of other products stay in place; ids never move; the cart grows by one line exactly when the product had none, and that line is the product's snapshot; otherwise the product's first line keeps its name, price and image and only its quantity rises by `quantity` |
| `Cart.AddLineMerges` | js/my.js:204-207 | when the product already has a line, adding changes only the quantity of its first line, raised by `quantity`; the snapshot's name, price and image stay |
| `Cart.AddLineIds` | js/my.js:204-216 | the ids in the cart after adding are the old ones plus the product's |
| `Cart.AddLineKeepsIdsUnique` | js/my.js:204-216 | adding to a cart with one line per id keeps one line per id |
| `Cart.TotalQuantityConcat` | js/my.js:229 | the total of two carts joined is the sum of their totals |
| `Cart.TotalQuantitySet` | js/my.js:207 | changing one line's quantity changes the total by the difference |
| `Cart.QuantityOfSet` | js/my.js:207 | changing one line's quantity changes only that line's product quantity |
| `Cart.LoadAfterSave` | js/my.js:219 | a key written with a cart (as here, then read back as at line 7) gives that cart; every other key reads back what it held before |
| `Cart.CartKeysIndependent` | js/products-carousel.js:63-70 | saving under 'cart' leaves what 'autoparts_cart' reads unchanged, and the other way round |
| `PriceFormat.FormatPriceMeaning` | js/products-carousel.js:113-116 | price 0 gives "0"; otherwise the result holds digits and spaces only, removing the spaces gives the decimal digits of the price (which read back as the price), a space stands exactly at every fourth position from the right, and the leading group has 1 to 3 digits (`js/my.js:254-256` is the same function) |
| `PriceFormat.SeparateIsGroupFromRight` | js/products-carousel.js:115 | the regex rule "a space before every position that has a non-zero multiple of three digits after it" is the same as grouping by threes from the right |
| `PriceFormat.GroupFromRightDigits` | js/products-carousel.js:115 | removing the inserted spaces gives back the digit string |
| `PriceFormat.GroupFromRightSpaces` | js/products-carousel.js:115 | spaces sit exactly at every fourth position from the right, and the leading group is not empty |
| `Text.DecimalString` | js/products-carousel.js:115 | `toString` of a natural: at least one digit, all digits, and no leading zero for a positive number |
| `Text.DecimalRoundTrip` | js/products-carousel.js:115 | reading the decimal string back gives the number |
| `Carousel.CarouselProductService.CarouselProducts` | js/products-carousel.js:26-28 | an order-preserving subsequence of the products, holding exactly the carousel-flagged ones, as many as there are |
| `Carousel.InsertByKeyMembers` | js/products-carousel.js:36 | inserting one product adds exactly that product to the multiset |
| `Carousel.InsertByKeySorted` | js/products-carousel.js:36 | insertion keeps a list sorted by `carouselIndex`, a missing one counting as 0 |
| `Carousel.InsertByKeyStable` | js/products-carousel.js:36 | insertion puts the new product after every product with the same key |
| `Carousel.StableSortByKeyCorrect` | js/products-carousel.js:36 | the stable sort is ordered by key, is a permutation, and keeps the relative order of products with equal keys |
| `Carousel.InsertByKeyAt` | js/products-carousel.js:36 | inserting before the first strictly larger key splices the product in at that index |
| `Carousel.InsertIntoSortedPrefix` | js/products-carousel.js:36 | one insertion-sort step on the array: the first i+1 cells become the sorted prefix with `a[i]` inserted, and the rest is untouched |
| `Carousel.SortByCarouselIndex` | js/products-carousel.js:36 | `sort` in place: the array ends as the stable sort of its old contents |
| `Carousel.CeilDiv` | js/products-carousel.js:54 | `Math.ceil(n / k)` for k > 0: the r with (r-1)·k < n ≤ r·k |
| `Carousel.CeilDivUnique` | js/products-carousel.js:54 | only one count satisfies the ceiling bounds |
| `Carousel.PagingShape` | js/products-carousel.js:39-41 | joining the slides gives the list back; every slide has 1 to k items; all but the last have exactly k; the number of slides is ceil(n/k) |
| `Carousel.PagingIndices` | js/products-carousel.js:39 | slide j exists exactly when j·k is below the length |
| `Carousel.PagingSlide` | js/products-carousel.js:40 | slide j is the slice from j·k to j·k+k, clipped at the end |
| `Carousel.CutIntoSlides` | js/products-carousel.js:39-41 | the `for` loop that pushes slices produces exactly the paging of the array |
| `Carousel.CarouselProductService.GroupProductsForCarousel` | js/products-carousel.js:31-44 | the slides of the stably sorted carousel products: joined they give that sorted list; each holds 1 to k, all but the last exactly k; their number is `TotalSlides(k)`; no carousel products give no slides |
| `Carousel.CarouselProductService.TotalSlides` | js/products-carousel.js:53-55 | the ceiling of the carousel product count over k |
| `Carousel.CarouselProductService.ProductsForSlide` | js/products-carousel.js:47-50 | the slice of the sorted carousel products for that slide; non-empty exactly when 0 ≤ index < `TotalSlides(k)`, empty otherwise |
| `Carousel.ParseInt` | js/products-carousel.js:59 | a number parses to itself; a string with a `0x`/`0X` prefix parses exactly when a hexadecimal digit follows the prefix, any other string exactly when it starts with a decimal digit; a parsed string is never negative |
| `Carousel.ParseIntOfDecimal` | js/products-carousel.js:59 | the decimal string of an id parses back to that id |
| `Carousel.ParseIntOfHex` | js/products-carousel.js:59 | `0x` or `0X`, then hexadecimal digits, then anything not starting with one parses to the value of those digits |
| `Text.LeadingDigits` | js/products-carousel.js:59 | the longest all-digit prefix: a prefix, all digits, stopped by a non-digit or the end |
| `Carousel.CarouselProductService.ProductById` | js/products-carousel.js:58-60 | found exactly when the id parses and some product has the parsed id; the one found is in the list with that id |
| `Carousel.CarouselProductService.constructor` | js/products-carousel.js:3-6 | no products; the cart is read from 'autoparts_cart' (empty when absent) |
| `Carousel.CarouselProductService.LoadProducts` | js/products-carousel.js:16 | the products become the loaded list |
| `Carousel.CarouselProductService.LoadCart` | js/products-carousel.js:63-66 | the cart stored under 'autoparts_cart', or the empty cart when the key is absent |
| `Carousel.CarouselProductService.SaveCart` | js/products-carousel.js:68-70 | the cart is written under 'autoparts_cart' and `LoadCart` afterwards gives it back |
| `Carousel.CarouselProductService.AddToCart` | js/products-carousel.js:72-93 | false and no change when no product has the id; otherwise true, `quantity` merged into the product's line or a snapshot line appended, the cart saved, the badge showing the total, which rose by exactly `quantity`, and one line per id kept |
| `Carousel.CarouselProductService.UpdateCartCounter` | js/products-carousel.js:95-101 | the badge equals the sum of line quantities |
| `Carousel.AddToCartAsWritten` | js/products-carousel.js:72-88 | the result and cart update of `addToCart` as written (saving and the badge aside): it succeeds exactly when the id parses to a product's id, changes nothing otherwise, and for any string id that succeeds it appends a new line after the unchanged old ones, whatever the cart held |
| `Carousel.AsWrittenDuplicatesLine` | js/products-carousel.js:76 | as written, adding product 5 by the string id "5" to a cart that holds product 5 succeeds but appends a second line for id 5 |

## Left out

- `fetch`, `async` loading, the `response.ok` check, the error path and `getFallbackData`, which is not part of this model. Loading means receiving the parsed product list.
- All rendering:
  - HTML strings, `innerHTML` and `classList`;
  - listener wiring, the add-to-cart button animation and its `setTimeout`;
  - the Bootstrap carousel controls;
  - search highlighting, which builds a `RegExp` from the unescaped query.
- The root-level `my.js`. It is a DOM counter plus smooth scrolling, with no state worth modelling.
- `JSON.parse`/`JSON.stringify`. Storage holds already-parsed carts. Malformed JSON, which `js/products-carousel.js:65` does not catch, is not modelled.
- The two listeners' trimming of the search input (js/my.js:159, 174). `SetSearchQuery` receives the trimmed value.
- JavaScript's loose `==` between a string id and a number at js/my.js:200 and js/my.js:204. The catalog page takes integer ids.
- Text.Lower: covers ASCII and the basic Cyrillic alphabet, including Ё. It does not model the rest of Unicode case mapping.
- Text.StrLt: orders strings by code point. JavaScript's `sort` compares UTF-16 code units, and the two differ only for characters outside the Basic Multilingual Plane.
- PriceFormat.FormatPrice: takes natural prices. Negative, fractional and `null` prices, and exponent notation from `toString`, are not modelled. The regex would also group fractional digits.
- Carousel.CarouselProductService.TotalSlides: requires `productsPerSlide > 0`. For 0 or a negative size the source yields `Infinity`, `NaN` or a negative count.
- Carousel.CarouselProductService.GroupProductsForCarousel: needs, like `ProductsForSlide`, `productsPerSlide > 0` unless there are no carousel products. With any other size, the source's loop never ends.
- Carousel.ParseInt: does not model leading whitespace, a sign, or a numeric argument that is not an integer. The `0x` hexadecimal branch is modelled.
- The default arguments `productsPerSlide = 4` (js/products-carousel.js:31, 47, 53) and `quantity = 1` (js/products-carousel.js:72). Every member takes the slide size and the quantity explicitly.
- Both pages write the same `.cart-count` badge element. Each class keeps its own `cartCount` field for it.

## Findings

| source | as written | input that shows it | evidently intended | confidence | as-written member | corrected member |
|---|---|---|---|---|---|---|
| js/products-carousel.js:76 | the product is looked up with `parseInt(id)` (line 59), but the cart line with `item.id === productId`, so a string id never equals a numeric line id | `addToCart("5")` when product 5 is already in the cart (a string id reaches the method only through a direct call such as `window.carouselProductService.addToCart("5")`, line 297: the carousel's buy button carries no `data-product-id`, line 140, so its handler at lines 240-241 passes `null`, which does not parse) | the line of the found product gains the quantity; one line per product id | not executed | `Carousel.AsWrittenDuplicatesLine` | `Carousel.CarouselProductService.AddToCart` |
