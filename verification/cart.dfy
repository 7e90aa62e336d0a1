/**
 * The shopping cart both pages keep: a list of lines, one per product id, each a
 * snapshot of the product taken when it was first added, plus the browser's
 * `localStorage`, where each page saves its cart under its own key.
 */
module Cart {
  import opened Wrappers
  import opened Seqs
  import opened Products

  /** One cart line: id, name, price and image copied from the product, and a quantity. */
  datatype CartItem = CartItem(id: int, name: string, price: nat, image: Option<string>, quantity: int)

  /** The line pushed for a product that is not in the cart yet. */
  function Snapshot(p: Product, quantity: int): CartItem
  {
    CartItem(p.id, p.name, p.price, p.image, quantity)
  }

  function LineWithId(id: int): CartItem -> bool
  {
    (item: CartItem) => item.id == id
  }

  /**
   * Adding `quantity` of product `p`: the first line with `p`'s id has its quantity
   * raised, or, when there is none, a snapshot line is appended.
   */
  function AddLine(cart: seq<CartItem>, p: Product, quantity: int): seq<CartItem>
  {
    match FirstIndex(cart, LineWithId(p.id))
    case Some(i) => cart[i := cart[i].(quantity := cart[i].quantity + quantity)]
    case None => cart + [Snapshot(p, quantity)]
  }

  /**
   * The merge-or-append step of both `addToCart`s as one statement, with what it
   * does to the total and to the one-line-per-id invariant.
   */
  method MergeLine(cart: seq<CartItem>, p: Product, quantity: int) returns (r: seq<CartItem>)
    ensures r == AddLine(cart, p, quantity)
    ensures TotalQuantity(r) == TotalQuantity(cart) + quantity
    ensures UniqueIds(cart) ==> UniqueIds(r)
  {
    AddLineTotal(cart, p, quantity);
    if UniqueIds(cart) {
      AddLineKeepsIdsUnique(cart, p, quantity);
    }
    r := AddLine(cart, p, quantity);
  }

  /** `cart.reduce((sum, item) => sum + item.quantity, 0)`: the badge count. */
  function TotalQuantity(cart: seq<CartItem>): int
  {
    if cart == [] then 0 else cart[0].quantity + TotalQuantity(cart[1..])
  }

  /** How many units of product `id` the cart holds, over all its lines. */
  function QuantityOf(cart: seq<CartItem>, id: int): int
  {
    TotalQuantity(Filter(cart, LineWithId(id)))
  }

  function Ids(cart: seq<CartItem>): set<int>
  {
    set item | item in cart :: item.id
  }

  /** At most one line per product id. */
  predicate UniqueIds(cart: seq<CartItem>)
  {
    forall i, j :: 0 <= i < j < |cart| ==> cart[i].id != cart[j].id
  }

  lemma {:induction false} TotalQuantityConcat(a: seq<CartItem>, b: seq<CartItem>)
    ensures TotalQuantity(a + b) == TotalQuantity(a) + TotalQuantity(b)
  {
    if a == [] {
      assert a + b == b;
    } else {
      assert (a + b)[1..] == a[1..] + b;
      TotalQuantityConcat(a[1..], b);
    }
  }

  /** Changing one line's quantity changes the total by the difference. */
  lemma {:induction false} TotalQuantitySet(cart: seq<CartItem>, i: nat, q: int)
    requires i < |cart|
    ensures TotalQuantity(cart[i := cart[i].(quantity := q)]) == TotalQuantity(cart) - cart[i].quantity + q
  {
    if i > 0 {
      TotalQuantitySet(cart[1..], i - 1, q);
      assert cart[i := cart[i].(quantity := q)][1..] == cart[1..][i - 1 := cart[i].(quantity := q)];
    }
  }

  /** The total rises by exactly the quantity added. */
  lemma AddLineTotal(cart: seq<CartItem>, p: Product, quantity: int)
    ensures TotalQuantity(AddLine(cart, p, quantity)) == TotalQuantity(cart) + quantity
  {
    match FirstIndex(cart, LineWithId(p.id))
    case Some(i) =>
      TotalQuantitySet(cart, i, cart[i].quantity + quantity);
    case None =>
      TotalQuantityConcat(cart, [Snapshot(p, quantity)]);
  }

  /** Quantity of one product after changing the quantity of one line. */
  lemma {:induction false} QuantityOfSet(cart: seq<CartItem>, i: nat, q: int, id: int)
    requires i < |cart|
    ensures QuantityOf(cart[i := cart[i].(quantity := q)], id)
         == QuantityOf(cart, id) + (if cart[i].id == id then q - cart[i].quantity else 0)
  {
    var c' := cart[i := cart[i].(quantity := q)];
    if i == 0 {
      assert c'[1..] == cart[1..];
    } else {
      QuantityOfSet(cart[1..], i - 1, q, id);
      assert c'[1..] == cart[1..][i - 1 := cart[i].(quantity := q)];
      var head := if LineWithId(id)(cart[0]) then [cart[0]] else [];
      assert Filter(c', LineWithId(id)) == head + Filter(c'[1..], LineWithId(id));
      assert Filter(cart, LineWithId(id)) == head + Filter(cart[1..], LineWithId(id));
      TotalQuantityConcat(head, Filter(c'[1..], LineWithId(id)));
      TotalQuantityConcat(head, Filter(cart[1..], LineWithId(id)));
    }
  }

  /** Per product: adding `quantity` of `p` raises `p`'s count by it and no other. */
  lemma AddLineQuantityOf(cart: seq<CartItem>, p: Product, quantity: int, id: int)
    ensures QuantityOf(AddLine(cart, p, quantity), id)
         == QuantityOf(cart, id) + (if id == p.id then quantity else 0)
  {
    match FirstIndex(cart, LineWithId(p.id))
    case Some(i) =>
      assert cart[i].id == p.id;
      QuantityOfSet(cart, i, cart[i].quantity + quantity, id);
    case None =>
      var line := Snapshot(p, quantity);
      var tail := Filter([line], LineWithId(id));
      assert [line][1..] == [] && line.id == p.id;
      assert LineWithId(id)(line) == (id == p.id);
      assert tail == (if id == p.id then [line] else []) + Filter([], LineWithId(id));
      assert TotalQuantity(tail) == if id == p.id then quantity else 0;
      FilterConcat(cart, [line], LineWithId(id));
      TotalQuantityConcat(Filter(cart, LineWithId(id)), tail);
  }

  /**
   * When `p` already has a line, adding raises the quantity of its first line and
   * changes nothing else: name, price and image stay those of the original snapshot.
   */
  lemma AddLineMerges(cart: seq<CartItem>, p: Product, quantity: int)
    requires p.id in Ids(cart)
    ensures exists i :: (
      && 0 <= i < |cart| && cart[i].id == p.id
      && (forall j :: 0 <= j < i ==> cart[j].id != p.id)
      && AddLine(cart, p, quantity) == cart[i := cart[i].(quantity := cart[i].quantity + quantity)])
  {
    var k :| 0 <= k < |cart| && cart[k].id == p.id;
    var first := FirstIndex(cart, LineWithId(p.id));
    assert LineWithId(p.id)(cart[k]);
    var i := first.value;
    var r := AddLine(cart, p, quantity);
    assert r == cart[i := cart[i].(quantity := cart[i].quantity + quantity)];
    assert cart[i].id == p.id;
    assert forall j :: 0 <= j < i ==> cart[j].id != p.id by {
      forall j | 0 <= j < i ensures cart[j].id != p.id {
        assert !LineWithId(p.id)(cart[j]);
      }
    }
  }

  /**
   * Adding touches only the line of `p`: every other line stays where it was, the
   * cart grows by one line exactly when `p` had none, and that new line is `p`'s snapshot;
   * otherwise the first line of `p` keeps its snapshot and only its quantity rises.
   */
  lemma AddLineFrame(cart: seq<CartItem>, p: Product, quantity: int)
    ensures var r := AddLine(cart, p, quantity);
      && |cart| <= |r| <= |cart| + 1
      && (forall k :: 0 <= k < |cart| && cart[k].id != p.id ==> r[k] == cart[k])
      && (forall k :: 0 <= k < |cart| ==> r[k].id == cart[k].id)
      && (|r| == |cart| + 1 <==> p.id !in Ids(cart))
      && (|r| == |cart| + 1 ==> r[|cart|] == Snapshot(p, quantity))
      && (p.id in Ids(cart) ==> exists i :: (
            && 0 <= i < |cart| && cart[i].id == p.id
            && (forall j :: 0 <= j < i ==> cart[j].id != p.id)
            && r == cart[i := cart[i].(quantity := cart[i].quantity + quantity)]))
  {
    var r := AddLine(cart, p, quantity);
    match FirstIndex(cart, LineWithId(p.id))
    case Some(i) =>
      assert cart[i] in cart;
      assert p.id in Ids(cart);
      assert |r| == |cart|;
      AddLineMerges(cart, p, quantity);
    case None =>
      assert p.id !in Ids(cart) by {
        forall item | item in cart ensures item.id != p.id {
          var k :| 0 <= k < |cart| && cart[k] == item;
          assert !LineWithId(p.id)(cart[k]);
        }
      }
  }

  /** The ids in the cart after adding are the old ones plus `p`'s. */
  lemma AddLineIds(cart: seq<CartItem>, p: Product, quantity: int)
    ensures Ids(AddLine(cart, p, quantity)) == Ids(cart) + {p.id}
  {
    var r := AddLine(cart, p, quantity);
    AddLineFrame(cart, p, quantity);
    match FirstIndex(cart, LineWithId(p.id))
    case Some(i) =>
      assert cart[i] in cart;
      forall x | x in Ids(r) ensures x in Ids(cart) {
        var k :| 0 <= k < |r| && r[k].id == x;
        assert cart[k] in cart;
      }
      forall x | x in Ids(cart) ensures x in Ids(r) {
        var k :| 0 <= k < |cart| && cart[k].id == x;
        assert r[k] in r;
      }
    case None =>
      assert r[|cart|] in r;
      forall x | x in Ids(r) ensures x in Ids(cart) + {p.id} {
        var k :| 0 <= k < |r| && r[k].id == x;
        if k < |cart| { assert cart[k] in cart; }
      }
      forall x | x in Ids(cart) ensures x in Ids(r) {
        var k :| 0 <= k < |cart| && cart[k].id == x;
        assert r[k] in r;
      }
  }

  /** Adding never creates a second line for an id: one line per product stays true. */
  lemma AddLineKeepsIdsUnique(cart: seq<CartItem>, p: Product, quantity: int)
    requires UniqueIds(cart)
    ensures UniqueIds(AddLine(cart, p, quantity))
  {
    AddLineFrame(cart, p, quantity);
    var r := AddLine(cart, p, quantity);
    if |r| == |cart| + 1 {
      forall k | 0 <= k < |cart| ensures r[k].id != p.id {
        assert cart[k] in cart;
      }
    }
  }

  /** The browser's `localStorage`, each key holding an already-parsed cart. */
  class LocalStorage {
    var slots: map<string, seq<CartItem>>

    constructor (initial: map<string, seq<CartItem>>)
      ensures slots == initial
    {
      slots := initial;
    }
  }

  /** The `localStorage` key of the catalog page's cart. */
  const CartKey: string := "cart"

  /** The `localStorage` key of the carousel's cart. */
  const CarouselCartKey: string := "autoparts_cart"

  /** `JSON.parse(localStorage.getItem(key) || '[]')`: the saved cart, or none. */
  function LoadSlot(slots: map<string, seq<CartItem>>, key: string): seq<CartItem>
  {
    if key in slots then slots[key] else []
  }

  /**
   * `localStorage.setItem(k, JSON.stringify(c))` followed by a read of `k'`: the same key
   * gives back what was written, any other key what it held before.
   */
  lemma LoadAfterSave(slots: map<string, seq<CartItem>>, k: string, k': string, c: seq<CartItem>)
    ensures LoadSlot(slots[k := c], k') == if k == k' then c else LoadSlot(slots, k')
  {
  }

  /** The two pages' carts never disturb each other: saving one leaves the other as it was. */
  lemma CartKeysIndependent(slots: map<string, seq<CartItem>>, c: seq<CartItem>)
    ensures LoadSlot(slots[CartKey := c], CarouselCartKey) == LoadSlot(slots, CarouselCartKey)
    ensures LoadSlot(slots[CarouselCartKey := c], CartKey) == LoadSlot(slots, CartKey)
  {
    assert CartKey != CarouselCartKey by {
      assert |CartKey| != |CarouselCartKey|;
    }
    LoadAfterSave(slots, CartKey, CarouselCartKey, c);
    LoadAfterSave(slots, CarouselCartKey, CartKey, c);
  }
}
