/**
 * The catalog page's view logic (`AllProductsPage` in js/my.js), as pure functions
 * of the product list: the category set and its sorted listing with counts, and the
 * product filter that composes the category button with the text search.
 */
module Catalog {
  import opened Wrappers
  import opened Seqs
  import opened Text
  import opened Products

  /** The pseudo-category of the "all products" button. */
  const AllCategories: string := "all"

  /** `if (product.category)`: the product has a category and it is not empty. */
  predicate HasNamedCategory(p: Product)
  {
    p.category.Some? && p.category.value != ""
  }

  /** The distinct non-empty categories of the products. */
  function CategoriesOf(products: seq<Product>): set<string>
  {
    set p | p in products && HasNamedCategory(p) :: p.category.value
  }

  lemma CategoriesOfSnoc(products: seq<Product>, p: Product)
    ensures CategoriesOf(products + [p])
         == CategoriesOf(products) + (if HasNamedCategory(p) then {p.category.value} else {})
  {
    assert forall x :: x in products + [p] <==> x in products || x == p;
  }

  /** `p => p.category === c`. */
  function InCategory(c: string): Product -> bool
  {
    (p: Product) => p.category == Some(c)
  }

  /**
   * The search test of `renderProducts` for an already lowercased query: it occurs in
   * the lowercased name, or in the description or category when those are non-empty.
   */
  predicate SearchHit(p: Product, lowerQuery: string)
  {
    || Includes(Lower(p.name), lowerQuery)
    || (p.description.Some? && p.description.value != "" && Includes(Lower(p.description.value), lowerQuery))
    || (p.category.Some? && p.category.value != "" && Includes(Lower(p.category.value), lowerQuery))
  }

  function MatchesQuery(lowerQuery: string): Product -> bool
  {
    (p: Product) => SearchHit(p, lowerQuery)
  }

  /**
   * The list `renderProducts` shows: filtered by the selected category unless it is
   * "all", then by the lowercased search query unless it is empty.
   */
  function FilterProducts(products: seq<Product>, selectedCategory: string, searchQuery: string): seq<Product>
  {
    var byCategory := if selectedCategory != AllCategories
      then Filter(products, InCategory(selectedCategory))
      else products;
    if searchQuery != "" then Filter(byCategory, MatchesQuery(Lower(searchQuery))) else byCategory
  }

  /** Reference test, in one piece: the category passes and the query, if any, matches. */
  predicate Shown(p: Product, selectedCategory: string, searchQuery: string)
  {
    && (selectedCategory == AllCategories || p.category == Some(selectedCategory))
    && (searchQuery == "" || SearchHit(p, Lower(searchQuery)))
  }

  function ShownBy(selectedCategory: string, searchQuery: string): Product -> bool
  {
    (p: Product) => Shown(p, selectedCategory, searchQuery)
  }

  /** The two-stage filter of `renderProducts` is a single filter by `Shown`. */
  lemma FilterProductsIsOneFilter(products: seq<Product>, selectedCategory: string, searchQuery: string)
    ensures FilterProducts(products, selectedCategory, searchQuery)
         == Filter(products, ShownBy(selectedCategory, searchQuery))
  {
    var c, q := selectedCategory, searchQuery;
    var shown := ShownBy(c, q);
    if c != AllCategories && q != "" {
      FilterThenFilter(products, InCategory(c), MatchesQuery(Lower(q)), shown);
    } else if c != AllCategories {
      FilterCongruent(products, InCategory(c), shown);
    } else if q != "" {
      FilterCongruent(products, MatchesQuery(Lower(q)), shown);
    } else {
      FilterAll(products, shown);
    }
  }

  /**
   * What the product list holds: an order-preserving subsequence of the products,
   * containing a product exactly when it passes both tests, as many as pass; with
   * category "all" and an empty query it is the whole list.
   */
  lemma FilterProductsSelects(products: seq<Product>, selectedCategory: string, searchQuery: string)
    ensures var r := FilterProducts(products, selectedCategory, searchQuery);
      && IsSubsequence(r, products)
      && (forall p :: p in r <==> p in products && Shown(p, selectedCategory, searchQuery))
      && |r| == CountWhere(products, ShownBy(selectedCategory, searchQuery))
      && (selectedCategory == AllCategories && searchQuery == "" ==> r == products)
  {
    var shown := ShownBy(selectedCategory, searchQuery);
    FilterProductsIsOneFilter(products, selectedCategory, searchQuery);
    FilterIsSubsequence(products, shown);
    FilterMembers(products, shown);
    FilterLength(products, shown);
  }

  /**
   * A category button with an empty search shows exactly the products of that
   * category in their original order: the only subsequence of category-`c` products
   * as long as their count.
   */
  lemma CategoryOnlyExact(products: seq<Product>, c: string, r: seq<Product>)
    requires c != AllCategories
    requires IsSubsequence(r, products)
    requires forall p :: p in r ==> p.category == Some(c)
    requires |r| == CountWhere(products, InCategory(c))
    ensures FilterProducts(products, c, "") == r
  {
    FilterUnique(r, products, InCategory(c));
  }

  /** Applying the same filter to its own result changes nothing. */
  lemma FilterProductsIdempotent(products: seq<Product>, selectedCategory: string, searchQuery: string)
    ensures var r := FilterProducts(products, selectedCategory, searchQuery);
      FilterProducts(r, selectedCategory, searchQuery) == r
  {
    var r := FilterProducts(products, selectedCategory, searchQuery);
    var shown := ShownBy(selectedCategory, searchQuery);
    FilterProductsIsOneFilter(products, selectedCategory, searchQuery);
    FilterProductsIsOneFilter(r, selectedCategory, searchQuery);
    FilterMembers(products, shown);
    FilterAll(r, shown);
  }

  /** The search ignores the case of the query: lowercasing it first changes nothing. */
  lemma SearchIgnoresQueryCase(products: seq<Product>, selectedCategory: string, searchQuery: string)
    ensures FilterProducts(products, selectedCategory, Lower(searchQuery))
         == FilterProducts(products, selectedCategory, searchQuery)
  {
    LowerIdempotent(searchQuery);
    assert (Lower(searchQuery) == "") == (searchQuery == "");
  }

  /** One button of the category listing: a category and how many products carry it. */
  datatype CategoryEntry = CategoryEntry(name: string, count: nat)

  /** Places `x` into a strictly sorted list of strings. */
  function InsertSorted(s: seq<string>, x: string): (r: seq<string>)
    requires StrictlySorted(s) && x !in s
    ensures StrictlySorted(r)
    ensures |r| == |s| + 1
    ensures forall y :: y in r <==> y in s || y == x
  {
    if s == [] then [x]
    else if StrLt(x, s[0]) then
      assert forall j :: 0 <= j < |s| ==> StrLt(x, s[j]) by {
        forall j | 0 <= j < |s| ensures StrLt(x, s[j]) {
          if j > 0 { StrLtTransitive(x, s[0], s[j]); }
        }
      }
      [x] + s
    else
      assert StrLt(s[0], x) by { StrLtTotal(x, s[0]); }
      var rest := InsertSorted(s[1..], x);
      assert forall y :: y in rest ==> StrLt(s[0], y);
      [s[0]] + rest
  }

  /** `Array.from(categories).sort()`: the categories, ascending, each once. */
  method SortCategories(categories: set<string>) returns (r: seq<string>)
    ensures StrictlySorted(r)
    ensures forall c :: c in r <==> c in categories
    ensures |r| == |categories|
  {
    r := [];
    var rest := categories;
    while rest != {}
      invariant StrictlySorted(r)
      invariant rest <= categories
      invariant forall c :: c in r <==> c in categories && c !in rest
      invariant |r| + |rest| == |categories|
      decreases |rest|
    {
      var c :| c in rest;
      r := InsertSorted(r, c);
      rest := rest - {c};
    }
  }

  /** The products whose category is one of `names`. */
  function CategoryIn(names: set<string>): Product -> bool
  {
    (p: Product) => p.category.Some? && p.category.value in names
  }

  function NameSet(entries: seq<CategoryEntry>): set<string>
  {
    set e | e in entries :: e.name
  }

  function SumCounts(entries: seq<CategoryEntry>): int
  {
    if entries == [] then 0 else entries[0].count + SumCounts(entries[1..])
  }

  /** Each entry counts the products of its category, and no category is listed twice. */
  predicate CountsCategories(products: seq<Product>, entries: seq<CategoryEntry>)
  {
    && (forall i, j :: 0 <= i < j < |entries| ==> entries[i].name != entries[j].name)
    && (forall i :: 0 <= i < |entries| ==> entries[i].count == CountWhere(products, InCategory(entries[i].name)))
  }

  lemma {:induction false} SumCountsIsCountIn(products: seq<Product>, entries: seq<CategoryEntry>)
    requires CountsCategories(products, entries)
    ensures SumCounts(entries) == CountWhere(products, CategoryIn(NameSet(entries)))
  {
    if entries != [] {
      var e, rest := entries[0], entries[1..];
      assert CountsCategories(products, rest);
      SumCountsIsCountIn(products, rest);
      assert NameSet(entries) == {e.name} + NameSet(rest) by {
        assert forall x :: x in entries <==> x == e || x in rest;
      }
      assert e.name !in NameSet(rest) by {
        forall k | 0 <= k < |rest| ensures rest[k].name != e.name {
          assert rest[k] == entries[k + 1];
        }
      }
      CountDisjointUnion(products, InCategory(e.name), CategoryIn(NameSet(rest)), CategoryIn(NameSet(entries)));
    } else {
      assert NameSet(entries) == {};
      CountWhereNone(products, CategoryIn({}));
    }
  }

  /**
   * The per-category counts of the listing add up to the number of products that
   * have a non-empty category; when every product has one, to `products.length`,
   * the count on the "all" button.
   */
  lemma CategoryCountsSum(products: seq<Product>, entries: seq<CategoryEntry>)
    requires CountsCategories(products, entries)
    requires NameSet(entries) == CategoriesOf(products)
    ensures SumCounts(entries) == CountWhere(products, HasNamedCategory)
    ensures (forall p :: p in products ==> HasNamedCategory(p)) ==> SumCounts(entries) == |products|
  {
    SumCountsIsCountIn(products, entries);
    FilterCongruent(products, CategoryIn(CategoriesOf(products)), HasNamedCategory);
    if forall p :: p in products ==> HasNamedCategory(p) {
      FilterAll(products, HasNamedCategory);
      FilterLength(products, HasNamedCategory);
    }
  }
}
