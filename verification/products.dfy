/** The catalog entry both pages read from `data/products.json`, and lookup by id. */
module Products {
  import opened Wrappers
  import opened Seqs

  /**
   * A product record. Optional JSON fields are `Option`s; `price` is a whole number
   * of roubles. Ids are integers (the pages compare them with `==` or after `parseInt`).
   */
  datatype Product = Product(
    id: int,
    name: string,
    description: Option<string>,
    price: nat,
    oldPrice: Option<nat>,
    category: Option<string>,
    image: Option<string>,
    stock: int,
    carousel: bool,
    carouselIndex: Option<int>,
    badge: Option<string>)

  function HasId(id: int): Product -> bool
  {
    (p: Product) => p.id == id
  }

  /** `products.find(p => p.id == id)`: the first product carrying the id, if any. */
  function FindById(products: seq<Product>, id: int): (r: Option<Product>)
    ensures r.None? <==> forall p :: p in products ==> p.id != id
    ensures r.Some? ==> r.value in products && r.value.id == id
    ensures r.Some? ==> exists i :: 0 <= i < |products| && products[i] == r.value &&
                                    forall j :: 0 <= j < i ==> products[j].id != id
  {
    Find(products, HasId(id))
  }
}
