/**
 * `AllProductsPage` (js/my.js): the catalog page's state and the operations that
 * change it: loading the product list, picking a category or query, adding to the
 * cart saved under the 'cart' key, the badge count, and the cross-tab `storage` event.
 */
module CatalogPage {
  import opened Wrappers
  import opened Seqs
  import opened Text
  import opened Products
  import opened Cart
  import opened Catalog

  class AllProductsPage {
    var products: seq<Product>
    var categories: set<string>
    var selectedCategory: string
    var searchQuery: string
    var cartItems: seq<CartItem>
    /** The number shown in the `.cart-count` badge. */
    var cartCount: int
    const storage: LocalStorage

    /** A fresh page: nothing loaded, every category, no query, the saved cart. */
    constructor (storage: LocalStorage)
      ensures this.storage == storage
      ensures products == [] && categories == {}
      ensures selectedCategory == AllCategories && searchQuery == ""
      ensures cartItems == LoadSlot(storage.slots, CartKey) && cartCount == 0
    {
      this.storage := storage;
      products := [];
      categories := {};
      selectedCategory := AllCategories;
      searchQuery := "";
      cartItems := LoadSlot(storage.slots, CartKey);
      cartCount := 0;
    }

    /**
     * The successful path of `loadProducts`: the parsed list replaces the products,
     * each non-empty category is added to the category set (which is never cleared),
     * and the badge is refreshed.
     */
    method LoadProducts(data: seq<Product>)
      modifies this
      ensures products == data
      ensures categories == old(categories) + CategoriesOf(data)
      ensures cartCount == TotalQuantity(cartItems)
      ensures cartItems == old(cartItems)
      ensures selectedCategory == old(selectedCategory) && searchQuery == old(searchQuery)
    {
      products := data;
      var i := 0;
      while i < |data|
        invariant 0 <= i <= |data|
        invariant categories == old(categories) + CategoriesOf(data[..i])
        invariant products == data && cartItems == old(cartItems)
        invariant selectedCategory == old(selectedCategory) && searchQuery == old(searchQuery)
      {
        var p := data[i];
        if p.category.Some? && p.category.value != "" {
          categories := categories + {p.category.value};
        }
        CategoriesOfSnoc(data[..i], p);
        assert data[..i + 1] == data[..i] + [p];
        i := i + 1;
      }
      assert data[..i] == data;
      UpdateCartCount();
    }

    /**
     * The category buttons of `renderCategories`: the "all" count is the number of
     * products; then every category of the set once, ascending, with the number of
     * products that carry it.
     */
    method CategoryListing() returns (allCount: nat, entries: seq<CategoryEntry>)
      ensures allCount == |products|
      ensures |entries| == |categories|
      ensures NameSet(entries) == categories
      ensures forall i, j :: 0 <= i < j < |entries| ==> StrLt(entries[i].name, entries[j].name)
      ensures CountsCategories(products, entries)
    {
      allCount := |products|;
      var sorted := SortCategories(categories);
      var ps := products;
      entries := seq(|sorted|, i requires 0 <= i < |sorted| => CategoryEntry(sorted[i], |Filter(ps, InCategory(sorted[i]))|));
      forall i | 0 <= i < |entries| ensures entries[i].count == CountWhere(ps, InCategory(entries[i].name)) {
        FilterLength(ps, InCategory(sorted[i]));
      }
      forall i, j | 0 <= i < j < |entries| ensures entries[i].name != entries[j].name {
        StrLtIrreflexive(sorted[i]);
      }
      assert NameSet(entries) == categories by {
        forall c | c in categories ensures c in NameSet(entries) {
          var k :| 0 <= k < |sorted| && sorted[k] == c;
          assert entries[k] in entries;
        }
      }
    }

    /** The products `renderProducts` shows for the current category and query. */
    function VisibleProducts(): (r: seq<Product>)
      reads this
      ensures IsSubsequence(r, products)
      ensures forall p :: p in r <==> p in products && Shown(p, selectedCategory, searchQuery)
      ensures |r| == CountWhere(products, ShownBy(selectedCategory, searchQuery))
      ensures selectedCategory == AllCategories && searchQuery == "" ==> r == products
    {
      FilterProductsSelects(products, selectedCategory, searchQuery);
      FilterProducts(products, selectedCategory, searchQuery)
    }

    /** A category button was clicked. */
    method SelectCategory(category: string)
      modifies this`selectedCategory
      ensures selectedCategory == category
    {
      selectedCategory := category;
    }

    /** The search box changed (its value already trimmed). */
    method SetSearchQuery(query: string)
      modifies this`searchQuery
      ensures searchQuery == query
    {
      searchQuery := query;
    }

    /**
     * `addToCart`: an id that no product has changes nothing; otherwise the product's
     * line gains one unit, or a snapshot line with quantity 1 is appended, the cart is
     * saved under 'cart', and the badge shows the new total.
     */
    method AddToCart(productId: int)
      modifies this, storage
      ensures products == old(products) && categories == old(categories)
      ensures selectedCategory == old(selectedCategory) && searchQuery == old(searchQuery)
      ensures FindById(products, productId).None? ==>
        cartItems == old(cartItems) && cartCount == old(cartCount) && storage.slots == old(storage.slots)
      ensures FindById(products, productId).Some? ==>
        && cartItems == AddLine(old(cartItems), FindById(products, productId).value, 1)
        && storage.slots == old(storage.slots)[CartKey := cartItems]
        && cartCount == TotalQuantity(cartItems)
        && TotalQuantity(cartItems) == TotalQuantity(old(cartItems)) + 1
        && (UniqueIds(old(cartItems)) ==> UniqueIds(cartItems))
    {
      var found := FindById(products, productId);
      if found.None? {
        return;
      }
      var product := found.value;
      cartItems := MergeLine(cartItems, product, 1);
      storage.slots := storage.slots[CartKey := cartItems];
      UpdateCartCount();
    }

    /** `updateCartCount`: the badge shows the sum of the line quantities. */
    method UpdateCartCount()
      modifies this`cartCount
      ensures cartCount == TotalQuantity(cartItems)
    {
      cartCount := TotalQuantity(cartItems);
    }

    /**
     * The `storage` listener: a change to the 'cart' key made in another tab replaces
     * the cart wholesale (an empty one when the key was removed) and refreshes the
     * badge; a change to any other key is ignored.
     */
    method OnStorageEvent(key: string, newValue: Option<seq<CartItem>>)
      modifies this`cartItems, this`cartCount
      ensures key == CartKey ==> cartItems == newValue.GetOr([]) && cartCount == TotalQuantity(cartItems)
      ensures key != CartKey ==> cartItems == old(cartItems) && cartCount == old(cartCount)
    {
      if key == CartKey {
        cartItems := newValue.GetOr([]);
        UpdateCartCount();
      }
    }
  }
}
