/**
 * `CarouselProductService` (js/products-carousel.js): the carousel-flagged products,
 * stably sorted by `carouselIndex` and cut into slides, and the carousel page's own
 * cart saved under the 'autoparts_cart' key.
 */
module Carousel {
  import opened Wrappers
  import opened Seqs
  import opened Text
  import opened Products
  import opened Cart

  /** `product.carousel === true`. */
  function IsCarousel(): Product -> bool
  {
    (p: Product) => p.carousel
  }

  /** The sort key `(p.carouselIndex || 0)`: a missing index counts as 0. */
  function SortKey(p: Product): int
  {
    p.carouselIndex.GetOr(0)
  }

  function KeyIs(k: int): Product -> bool
  {
    (p: Product) => SortKey(p) == k
  }

  predicate SortedByKey(s: seq<Product>)
  {
    forall i, j :: 0 <= i < j < |s| ==> SortKey(s[i]) <= SortKey(s[j])
  }

  /** Inserts `x` after every element whose key is not greater than its own, scanning from the right. */
  function InsertByKey(sorted: seq<Product>, x: Product): (r: seq<Product>)
    ensures |r| == |sorted| + 1
  {
    if sorted == [] then [x]
    else if SortKey(sorted[|sorted| - 1]) > SortKey(x) then InsertByKey(sorted[..|sorted| - 1], x) + [sorted[|sorted| - 1]]
    else sorted + [x]
  }

  /** The reference stable sort by key: insertion of each element in turn. */
  function StableSortByKey(s: seq<Product>): (r: seq<Product>)
    ensures |r| == |s|
  {
    if s == [] then [] else InsertByKey(StableSortByKey(s[..|s| - 1]), s[|s| - 1])
  }

  lemma SortedSnoc(s: seq<Product>, y: Product)
    requires SortedByKey(s)
    requires forall z :: z in s ==> SortKey(z) <= SortKey(y)
    ensures SortedByKey(s + [y])
  {
    var r := s + [y];
    forall i, j | 0 <= i < j < |r| ensures SortKey(r[i]) <= SortKey(r[j]) {
      if j == |s| {
        assert r[i] in s;
      }
    }
  }

  lemma {:induction false} InsertByKeyMembers(sorted: seq<Product>, x: Product)
    ensures multiset(InsertByKey(sorted, x)) == multiset(sorted) + multiset{x}
    ensures forall y :: y in InsertByKey(sorted, x) ==> y in sorted || y == x
    decreases |sorted|
  {
    if sorted != [] {
      var front, last := sorted[..|sorted| - 1], sorted[|sorted| - 1];
      assert sorted == front + [last];
      if SortKey(last) > SortKey(x) {
        InsertByKeyMembers(front, x);
      }
    }
  }

  lemma {:induction false} InsertByKeySorted(sorted: seq<Product>, x: Product)
    requires SortedByKey(sorted)
    ensures SortedByKey(InsertByKey(sorted, x))
    decreases |sorted|
  {
    if sorted != [] {
      var front, last := sorted[..|sorted| - 1], sorted[|sorted| - 1];
      assert sorted == front + [last];
      assert forall z :: z in front ==> SortKey(z) <= SortKey(last);
      if SortKey(last) > SortKey(x) {
        InsertByKeySorted(front, x);
        InsertByKeyMembers(front, x);
        SortedSnoc(InsertByKey(front, x), last);
      } else {
        assert forall z :: z in sorted ==> SortKey(z) <= SortKey(x);
        SortedSnoc(sorted, x);
      }
    }
  }

  /** Elements with one key keep their order through an insertion. */
  lemma {:induction false} InsertByKeyStable(sorted: seq<Product>, x: Product, k: int)
    ensures Filter(InsertByKey(sorted, x), KeyIs(k))
         == Filter(sorted, KeyIs(k)) + Filter([x], KeyIs(k))
    decreases |sorted|
  {
    if sorted == [] {
    } else {
      var front, last := sorted[..|sorted| - 1], sorted[|sorted| - 1];
      assert sorted == front + [last];
      FilterConcat(front, [last], KeyIs(k));
      if SortKey(last) > SortKey(x) {
        InsertByKeyStable(front, x, k);
        FilterConcat(InsertByKey(front, x), [last], KeyIs(k));
        assert Filter([x], KeyIs(k)) == [] || Filter([last], KeyIs(k)) == [];
      } else {
        FilterConcat(sorted, [x], KeyIs(k));
      }
    }
  }

  /**
   * The stable sort orders by key, is a permutation, and keeps the original order
   * among elements with equal keys (the subsequence of each key is unchanged).
   */
  lemma {:induction false} StableSortByKeyCorrect(s: seq<Product>)
    ensures SortedByKey(StableSortByKey(s))
    ensures multiset(StableSortByKey(s)) == multiset(s)
    ensures forall k :: Filter(StableSortByKey(s), KeyIs(k)) == Filter(s, KeyIs(k))
  {
    if s != [] {
      var front, last := s[..|s| - 1], s[|s| - 1];
      assert s == front + [last];
      StableSortByKeyCorrect(front);
      InsertByKeySorted(StableSortByKey(front), last);
      InsertByKeyMembers(StableSortByKey(front), last);
      forall k ensures Filter(StableSortByKey(s), KeyIs(k)) == Filter(s, KeyIs(k)) {
        InsertByKeyStable(StableSortByKey(front), last, k);
        FilterConcat(front, [last], KeyIs(k));
      }
    }
  }

  /**
   * Inserting `x` puts it right after position `j` when every later element has a
   * greater key and the one before `j`, if any, does not.
   */
  lemma {:induction false} InsertByKeyAt(before: seq<Product>, x: Product, j: nat)
    requires j <= |before|
    requires j == 0 || SortKey(before[j - 1]) <= SortKey(x)
    requires forall k :: j <= k < |before| ==> SortKey(before[k]) > SortKey(x)
    ensures InsertByKey(before, x) == before[..j] + [x] + before[j..]
    decreases |before|
  {
    if j < |before| {
      var front := before[..|before| - 1];
      InsertByKeyAt(front, x, j);
      assert front[..j] == before[..j];
      assert front[j..] + [before[|before| - 1]] == before[j..];
    } else {
      assert before[..j] == before;
    }
  }

  /** The array prefix the shifting loop leaves behind is the insertion of `x`. */
  lemma ShiftedIsInsert(c: seq<Product>, before: seq<Product>, x: Product, j: nat)
    requires |c| == |before| + 1 && j <= |before|
    requires forall k :: 0 <= k < j ==> c[k] == before[k]
    requires c[j] == x
    requires forall k :: j < k < |c| ==> c[k] == before[k - 1]
    requires j == 0 || SortKey(before[j - 1]) <= SortKey(x)
    requires forall k :: j <= k < |before| ==> SortKey(before[k]) > SortKey(x)
    ensures c == InsertByKey(before, x)
  {
    InsertByKeyAt(before, x, j);
    var spliced := before[..j] + [x] + before[j..];
    forall k | 0 <= k < |c| ensures c[k] == spliced[k] {
      if k < j {
        assert spliced[k] == before[k];
      } else if k > j {
        assert spliced[k] == before[k - 1];
      }
    }
  }

  /** One step of the insertion sort: moves `a[i]` left past the greater keys before it. */
  method InsertIntoSortedPrefix(a: array<Product>, i: nat)
    requires i < a.Length
    modifies a
    ensures a[..i + 1] == InsertByKey(old(a[..i]), old(a[i]))
    ensures a[i + 1..] == old(a[i + 1..])
  {
    var x := a[i];
    var key := SortKey(x);
    ghost var orig := a[..];
    ghost var before := a[..i];
    var j := i;
    while j > 0 && SortKey(a[j - 1]) > key
      invariant 0 <= j <= i
      invariant forall k :: 0 <= k < j ==> a[k] == before[k]
      invariant forall k :: j < k <= i ==> a[k] == before[k - 1]
      invariant forall k :: i < k < a.Length ==> a[k] == orig[k]
      invariant forall k :: j <= k < i ==> SortKey(before[k]) > key
    {
      assert SortKey(before[j - 1]) > key by {
        assert a[j - 1] == before[j - 1];
      }
      a[j] := a[j - 1];
      j := j - 1;
    }
    a[j] := x;
    ShiftedIsInsert(a[..i + 1], before, x, j);
    SameSuffix(a[..], orig, i + 1);
  }

  /** Two lists that agree from index `from` on have the same suffix there. */
  lemma SameSuffix(c: seq<Product>, o: seq<Product>, from: nat)
    requires |c| == |o| && from <= |c|
    requires forall k :: from <= k < |c| ==> c[k] == o[k]
    ensures c[from..] == o[from..]
  {
  }

  /**
   * `carouselProducts.sort((a, b) => (a.carouselIndex || 0) - (b.carouselIndex || 0))`,
   * in place and stable: an insertion sort that shifts greater keys to the right.
   */
  method SortByCarouselIndex(a: array<Product>)
    modifies a
    ensures a[..] == StableSortByKey(old(a[..]))
  {
    ghost var orig := a[..];
    var i := 0;
    while i < a.Length
      invariant 0 <= i <= a.Length
      invariant a[..i] == StableSortByKey(orig[..i])
      invariant a[i..] == orig[i..]
    {
      ghost var sortedPrefix := a[..i];
      assert a[i] == orig[i] by {
        assert a[i..][0] == orig[i..][0];
      }
      assert a[i + 1..] == orig[i + 1..] by {
        assert a[i + 1..] == a[i..][1..];
      }
      InsertIntoSortedPrefix(a, i);
      assert orig[..i + 1][..i] == orig[..i] && orig[..i + 1][i] == orig[i];
      assert StableSortByKey(orig[..i + 1]) == InsertByKey(sortedPrefix, orig[i]);
      i := i + 1;
    }
    assert orig[..a.Length] == orig;
  }

  function Min(a: int, b: int): int
  {
    if a < b then a else b
  }

  /** The slides of `groupProductsForCarousel`: consecutive runs of `k`, the last possibly shorter. */
  function Paging(s: seq<Product>, k: int): seq<seq<Product>>
    requires k > 0 || s == []
    decreases |s|
  {
    if s == [] then [] else var m := Min(k, |s|); [s[..m]] + Paging(s[m..], k)
  }

  /** The slides laid end to end. */
  function Flatten(groups: seq<seq<Product>>): seq<Product>
  {
    if groups == [] then [] else groups[0] + Flatten(groups[1..])
  }

  /** `Math.ceil(n / k)` for a positive `k`: the least `r` with `n <= r * k`. */
  function CeilDiv(n: nat, k: int): (r: nat)
    requires k > 0
    ensures (r - 1) * k < n <= r * k
  {
    var r := (n + k - 1) / k;
    var rem := (n + k - 1) % k;
    assert n + k - 1 == r * k + rem && 0 <= rem < k;
    assert (r - 1) * k == r * k - k;
    r
  }

  lemma MulMonotone(a: int, b: int, k: int)
    requires a <= b && k > 0
    ensures a * k <= b * k
  {
    assert b * k - a * k == (b - a) * k;
  }

  lemma MulStep(j: int, k: int)
    ensures (j - 1) * k + k == j * k
  {
  }

  /** The ceiling is the only count whose slides cover `n` without a spare one. */
  lemma CeilDivUnique(n: nat, k: int, g: int)
    requires k > 0 && g >= 0
    requires (g - 1) * k < n <= g * k
    ensures g == CeilDiv(n, k)
  {
    var r := CeilDiv(n, k);
    if g < r {
      MulMonotone(g, r - 1, k);
    } else if g > r {
      MulMonotone(r, g - 1, k);
    }
  }

  /** The slide with index `i` in index arithmetic: items `i * k` up to `i * k + k`, clipped to the list. */
  function SlideOf(s: seq<Product>, k: int, i: int): seq<Product>
    requires k > 0
  {
    if 0 <= i && i * k < |s| then s[i * k..Min(i * k + k, |s|)] else []
  }

  /** The slides put end to end give back the list. */
  lemma {:induction false} PagingFlatten(s: seq<Product>, k: int)
    requires k > 0
    ensures Flatten(Paging(s, k)) == s
    decreases |s|
  {
    if s != [] {
      var m := Min(k, |s|);
      PagingFlatten(s[m..], k);
      var g := Paging(s, k);
      assert g[1..] == Paging(s[m..], k);
      assert s[..m] + s[m..] == s;
    }
  }

  /** Each slide holds 1 to `k` products, every one but the last exactly `k`. */
  lemma {:induction false} PagingSizes(s: seq<Product>, k: int)
    requires k > 0
    ensures forall j :: 0 <= j < |Paging(s, k)| ==> 0 < |Paging(s, k)[j]| <= k
    ensures forall j :: 0 <= j < |Paging(s, k)| - 1 ==> |Paging(s, k)[j]| == k
    decreases |s|
  {
    if s != [] {
      var m := Min(k, |s|);
      PagingSizes(s[m..], k);
      var g, rest := Paging(s, k), Paging(s[m..], k);
      assert g == [s[..m]] + rest;
      forall j | 0 <= j < |g| ensures 0 < |g[j]| <= k {
        if j > 0 { assert g[j] == rest[j - 1]; }
      }
      if m < k {
        assert s[m..] == [];
        assert |g| == 1;
      }
      forall j | 0 <= j < |g| - 1 ensures |g[j]| == k {
        if j > 0 {
          assert g[j] == rest[j - 1];
        }
      }
    }
  }

  /** There are `ceil(n / k)` slides, none for an empty list. */
  lemma {:induction false} PagingCount(s: seq<Product>, k: int)
    requires k > 0
    ensures |Paging(s, k)| == CeilDiv(|s|, k)
    decreases |s|
  {
    if s == [] {
      CeilDivUnique(0, k, 0);
    } else {
      var m := Min(k, |s|);
      PagingCount(s[m..], k);
      var c := CeilDiv(|s| - m, k);
      assert |Paging(s, k)| == c + 1;
      MulStep(c, k);
      MulStep(c + 1, k);
      if m < k {
        assert c == 0 by { CeilDivUnique(0, k, 0); }
      }
      CeilDivUnique(|s|, k, c + 1);
    }
  }

  /**
   * The slides put end to end give back the list; each holds 1 to `k` products, every
   * one but the last exactly `k`; there are `ceil(n / k)` of them, none for an empty list.
   */
  lemma PagingShape(s: seq<Product>, k: int)
    requires k > 0
    ensures var g := Paging(s, k);
      && Flatten(g) == s
      && (forall j :: 0 <= j < |g| ==> 0 < |g[j]| <= k)
      && (forall j :: 0 <= j < |g| - 1 ==> |g[j]| == k)
      && |g| == CeilDiv(|s|, k)
  {
    PagingFlatten(s, k);
    PagingSizes(s, k);
    PagingCount(s, k);
  }

  /** Slide indices that exist are exactly those whose first item `j * k` lies inside the list. */
  lemma PagingIndices(s: seq<Product>, k: int, j: int)
    requires k > 0
    ensures 0 <= j < |Paging(s, k)| <==> 0 <= j && j * k < |s|
  {
    PagingShape(s, k);
    var g := Paging(s, k);
    if 0 <= j < |g| {
      MulMonotone(j, |g| - 1, k);
    } else if j >= |g| {
      MulMonotone(|g|, j, k);
    }
  }

  /** Slide `j` of the paging is the index-arithmetic slide `j`. */
  lemma {:induction false} PagingSlide(s: seq<Product>, k: int, j: int)
    requires k > 0
    requires 0 <= j < |Paging(s, k)|
    ensures Paging(s, k)[j] == SlideOf(s, k, j)
    decreases |s|
  {
    var n := |s|;
    var m := Min(k, n);
    assert Paging(s, k) == [s[..m]] + Paging(s[m..], k);
    if j == 0 {
      assert j * k == 0;
    } else {
      var q := (j - 1) * k;
      MulStep(j, k);
      MulMonotone(1, j, k);
      PagingIndices(s, k, j);
      assert m == k;
      PagingSlide(s[k..], k, j - 1);
      PagingIndices(s[k..], k, j - 1);
      SliceOfSuffix(s, k, q, Min(q + k, n - k));
      assert Min(q + k, n - k) + k == Min(q + k + k, n);
    }
  }

  lemma SliceOfSuffix(s: seq<Product>, k: nat, lo: nat, hi: nat)
    requires k <= |s| && lo <= hi <= |s| - k
    ensures s[k..][lo..hi] == s[k + lo..k + hi]
  {
  }

  /** A product id as JavaScript passes it: a number, or the string an HTML attribute holds. */
  datatype IdValue = Num(n: int) | Str(s: string)

  /** The string starts with `0x` or `0X`, which `parseInt` without a radix reads as hexadecimal. */
  predicate HasHexPrefix(s: string)
  {
    |s| >= 2 && s[0] == '0' && (s[1] == 'x' || s[1] == 'X')
  }

  /**
   * `parseInt(id)`: a number is itself; a string with a `0x` prefix gives the value of
   * the hexadecimal digits after it, any other string that of its leading decimal
   * digits; no digits there gives `NaN` (here `None`).
   */
  function ParseInt(v: IdValue): (r: Option<int>)
    ensures v.Num? ==> r == Some(v.n)
    ensures v.Str? && !HasHexPrefix(v.s) ==> (r.Some? <==> |v.s| > 0 && IsDigit(v.s[0]))
    ensures v.Str? && HasHexPrefix(v.s) ==> (r.Some? <==> |v.s| > 2 && IsHexDigit(v.s[2]))
    ensures v.Str? && r.Some? ==> r.value >= 0
  {
    match v
    case Num(n) => Some(n)
    case Str(s) =>
      if HasHexPrefix(s) then
        var h := LeadingHexDigits(s[2..]); if h == [] then None else Some(HexValue(h))
      else
        var d := LeadingDigits(s); if d == [] then None else Some(DecimalValue(d))
  }

  /**
   * `parseInt` without a radix reads `0x` or `0X` followed by hexadecimal digits as the
   * number those digits denote, stopping at the first character that is not one.
   */
  lemma ParseIntOfHex(x: char, h: string, rest: string)
    requires x == 'x' || x == 'X'
    requires |h| >= 1 && AllHexDigits(h)
    requires rest == [] || !IsHexDigit(rest[0])
    ensures ParseInt(Str(['0', x] + h + rest)) == Some(HexValue(h))
  {
    var s := ['0', x] + h + rest;
    HexPrefixed(x, h + rest);
    assert s == ['0', x] + (h + rest);
    LeadingHexDigitsOf(h, rest);
  }

  lemma HexPrefixed(x: char, t: string)
    requires x == 'x' || x == 'X'
    ensures HasHexPrefix(['0', x] + t) && (['0', x] + t)[2..] == t
  {
  }

  /** `parseInt("0x10")` is 16 and `parseInt("0x")` is `NaN`. */
  lemma ParseIntHexExamples()
    ensures ParseInt(Str("0x10")) == Some(16)
    ensures ParseInt(Str("0x")) == None
  {
    assert HasHexPrefix("0x10") && "0x10"[2..] == "10";
    assert LeadingHexDigits("10") == "10" by {
      assert LeadingHexDigits("10"[1..]) == "0" by {
        assert "10"[1..][1..] == [];
      }
    }
    assert "10"[..1] == "1" && "1"[..0] == [];
    assert "0x"[2..] == [];
  }

  /** An id written out in decimal, as an HTML attribute holds it, parses back to the id. */
  lemma ParseIntOfDecimal(n: nat)
    ensures ParseInt(Str(DecimalString(n))) == Some(n)
  {
    var s := DecimalString(n);
    LeadingDigitsOfDigits(s);
    DecimalRoundTrip(n);
    if |s| >= 2 {
      assert IsDigit(s[1]);
    }
  }

  /** `item.id === productId` as the source writes it: a numeric id never equals a string. */
  function StrictlyEqualsId(v: IdValue): CartItem -> bool
  {
    (item: CartItem) => v == Num(item.id)
  }

  /**
   * `addToCart` as written: the product is found through `parseInt(productId)` but the
   * cart line through `item.id === productId`, so a string id never finds its line.
   */
  function AddToCartAsWritten(products: seq<Product>, cart: seq<CartItem>, productId: IdValue, quantity: int): (r: (bool, seq<CartItem>))
    ensures r.0 <==> ParseInt(productId).Some? && FindById(products, ParseInt(productId).value).Some?
    ensures !r.0 ==> r.1 == cart
    ensures productId.Str? && r.0 ==> |r.1| == |cart| + 1 && r.1[..|cart|] == cart
  {
    var parsed := ParseInt(productId);
    var found := if parsed.Some? then FindById(products, parsed.value) else None;
    if found.None? then (false, cart)
    else match FirstIndex(cart, StrictlyEqualsId(productId))
      case Some(i) => (true, cart[i := cart[i].(quantity := cart[i].quantity + quantity)])
      case None => (true, cart + [Snapshot(found.value, quantity)])
  }

  /** Adding product 5 by the string id "5" to a cart that holds it gives a second line for id 5. */
  lemma AsWrittenDuplicatesLine()
    ensures var p := Product(5, "Oil filter", None, 450, None, None, None, 3, true, None, None);
      var result := AddToCartAsWritten([p], [Snapshot(p, 1)], Str("5"), 1);
      && result.0
      && result.1 == [Snapshot(p, 1), Snapshot(p, 1)]
      && UniqueIds([Snapshot(p, 1)])
      && !UniqueIds(result.1)
  {
    var p := Product(5, "Oil filter", None, 450, None, None, None, 3, true, None, None);
    var line := Snapshot(p, 1);
    assert LeadingDigits("5") == "5" by {
      assert LeadingDigits("5"[1..]) == [];
    }
    assert DecimalValue("5") == 5 by {
      assert "5"[..0] == [];
    }
    assert ParseInt(Str("5")) == Some(5);
    assert FindById([p], 5) == Some(p);
    assert FirstIndex([line], StrictlyEqualsId(Str("5"))) == None by {
      assert !StrictlyEqualsId(Str("5"))(line);
    }
    var found := if ParseInt(Str("5")).Some? then FindById([p], ParseInt(Str("5")).value) else None;
    assert found == Some(p);
    assert AddToCartAsWritten([p], [line], Str("5"), 1) == (true, [line] + [Snapshot(found.value, 1)]);
    assert [line] + [line] == [line, line];
    var twice := [line, line];
    assert twice[0].id == twice[1].id;
  }

  /**
   * The loop of `groupProductsForCarousel`: from index 0 in steps of `k`, push the
   * slice from there to `k` further on (clipped to the end, as `slice` does).
   */
  method CutIntoSlides(a: array<Product>, k: int) returns (groups: seq<seq<Product>>)
    requires k > 0 || a.Length == 0
    ensures groups == Paging(a[..], k)
  {
    var n := a.Length;
    groups := [];
    var i := 0;
    while i < n
      invariant 0 <= i
      invariant groups + Paging(a[Min(i, n)..], k) == Paging(a[..], k)
      decreases n - i
    {
      var m := Min(k, n - i);
      assert a[i..][..m] == a[i..Min(i + k, n)];
      assert a[i..][m..] == a[Min(i + k, n)..];
      groups := groups + [a[i..Min(i + k, n)]];
      i := i + k;
    }
  }

  class CarouselProductService {
    var products: seq<Product>
    var cart: seq<CartItem>
    /** The number shown in the `.cart-count` badge. */
    var cartCount: int
    const storage: LocalStorage

    /** A fresh service: no products yet, the cart saved under 'autoparts_cart'. */
    constructor (storage: LocalStorage)
      ensures this.storage == storage && products == [] && cartCount == 0
      ensures cart == LoadSlot(storage.slots, CarouselCartKey)
    {
      this.storage := storage;
      products := [];
      cart := LoadSlot(storage.slots, CarouselCartKey);
      cartCount := 0;
    }

    /** The successful path of `loadProducts`: the parsed list replaces the products. */
    method LoadProducts(data: seq<Product>)
      modifies this`products
      ensures products == data
    {
      products := data;
    }

    /** `getCarouselProducts`: exactly the carousel-flagged products, in their original order. */
    function CarouselProducts(): (r: seq<Product>)
      reads this`products
      ensures IsSubsequence(r, products)
      ensures forall p :: p in r <==> p in products && p.carousel
      ensures |r| == CountWhere(products, IsCarousel())
    {
      FilterIsSubsequence(products, IsCarousel());
      FilterMembers(products, IsCarousel());
      FilterLength(products, IsCarousel());
      Filter(products, IsCarousel())
    }

    /** `getTotalSlides`: the ceiling of the number of carousel products over `productsPerSlide`. */
    function TotalSlides(productsPerSlide: int): (r: nat)
      requires productsPerSlide > 0
      reads this`products
      ensures (r - 1) * productsPerSlide < |CarouselProducts()| <= r * productsPerSlide
    {
      CeilDiv(|CarouselProducts()|, productsPerSlide)
    }

    /**
     * `groupProductsForCarousel`: the carousel products, stably sorted by `carouselIndex`
     * in a fresh array, then cut into slides of `productsPerSlide`.
     */
    method GroupProductsForCarousel(productsPerSlide: int) returns (groups: seq<seq<Product>>)
      requires productsPerSlide > 0 || CarouselProducts() == []
      ensures groups == Paging(StableSortByKey(CarouselProducts()), productsPerSlide)
      ensures Flatten(groups) == StableSortByKey(CarouselProducts())
      ensures forall j :: 0 <= j < |groups| ==> 0 < |groups[j]| <= productsPerSlide
      ensures forall j :: 0 <= j < |groups| - 1 ==> |groups[j]| == productsPerSlide
      ensures productsPerSlide > 0 ==> |groups| == TotalSlides(productsPerSlide)
      ensures CarouselProducts() == [] ==> groups == []
    {
      var carouselProducts := CarouselProducts();
      var a := new Product[|carouselProducts|](i requires 0 <= i < |carouselProducts| => carouselProducts[i]);
      assert a[..] == carouselProducts;
      SortByCarouselIndex(a);
      groups := CutIntoSlides(a, productsPerSlide);
      if productsPerSlide > 0 {
        PagingShape(a[..], productsPerSlide);
      }
    }

    /** `getProductsForSlide`: slide `slideIndex` of the grouping, or an empty list when there is no such slide. */
    method ProductsForSlide(slideIndex: int, productsPerSlide: int) returns (slide: seq<Product>)
      requires productsPerSlide > 0 || CarouselProducts() == []
      ensures productsPerSlide > 0 ==> slide == SlideOf(StableSortByKey(CarouselProducts()), productsPerSlide, slideIndex)
      ensures productsPerSlide > 0 ==> (slide != [] <==> 0 <= slideIndex < TotalSlides(productsPerSlide))
      ensures productsPerSlide <= 0 ==> slide == []
    {
      var groups := GroupProductsForCarousel(productsPerSlide);
      if 0 <= slideIndex < |groups| {
        slide := groups[slideIndex];
      } else {
        slide := [];
      }
      if productsPerSlide > 0 {
        var sorted := StableSortByKey(CarouselProducts());
        PagingIndices(sorted, productsPerSlide, slideIndex);
        if 0 <= slideIndex < |groups| {
          PagingSlide(sorted, productsPerSlide, slideIndex);
        }
      }
    }

    /** `getProductById`: the first product whose id is the parsed argument. */
    function ProductById(id: IdValue): (r: Option<Product>)
      reads this`products
      ensures r.Some? <==> ParseInt(id).Some? && exists p :: p in products && p.id == ParseInt(id).value
      ensures r.Some? ==> r.value in products && r.value.id == ParseInt(id).value
    {
      match ParseInt(id)
      case None => None
      case Some(n) => FindById(products, n)
    }

    /** `loadCart`: the cart saved under 'autoparts_cart', or an empty one when the key is absent. */
    function LoadCart(): (r: seq<CartItem>)
      reads storage`slots
      ensures CarouselCartKey !in storage.slots ==> r == []
    {
      LoadSlot(storage.slots, CarouselCartKey)
    }

    /** `saveCart`: the cart is written under 'autoparts_cart', so that `LoadCart` gives it back. */
    method SaveCart()
      modifies storage
      ensures storage.slots == old(storage.slots)[CarouselCartKey := cart]
      ensures LoadCart() == cart
    {
      storage.slots := storage.slots[CarouselCartKey := cart];
    }

    /**
     * `addToCart` with the argument parsed once and used both to find the product and to
     * find its line: an id that finds no product answers false and changes nothing;
     * otherwise `quantity` is added to the product's line or a snapshot line is appended,
     * the cart is saved, the badge shows the new total, and the answer is true.
     */
    method AddToCart(productId: IdValue, quantity: int) returns (added: bool)
      modifies this`cart, this`cartCount, storage
      ensures added <==> ProductById(productId).Some?
      ensures !added ==> cart == old(cart) && cartCount == old(cartCount) && storage.slots == old(storage.slots)
      ensures added ==>
        && cart == AddLine(old(cart), ProductById(productId).value, quantity)
        && storage.slots == old(storage.slots)[CarouselCartKey := cart]
        && cartCount == TotalQuantity(cart)
        && TotalQuantity(cart) == TotalQuantity(old(cart)) + quantity
        && (UniqueIds(old(cart)) ==> UniqueIds(cart))
    {
      var product := ProductById(productId);
      if product.None? {
        return false;
      }
      cart := MergeLine(cart, product.value, quantity);
      SaveCart();
      UpdateCartCounter();
      return true;
    }

    /** `updateCartCounter`: the badge shows the sum of the line quantities. */
    method UpdateCartCounter()
      modifies this`cartCount
      ensures cartCount == TotalQuantity(cart)
    {
      cartCount := TotalQuantity(cart);
    }
  }
}
