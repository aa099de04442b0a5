/**
  The shopping-cart line items of the marketplace app and the three list
  transforms behind `addToCart`, `increment` and `decrement`.

  Every operation builds a fresh list from the old one (with `find`, `map`,
  `filter` and spread) and hands it to the cart's state slot, which replaces
  its value wholesale; so each operation is a function from the old list to
  the new one.
 */
module Cart {

  datatype Option<T> = None | Some(value: T)

  /** A cart line item. The price is carried along but never computed with. */
  datatype Product = Product(id: string, title: string, imageUrl: string, price: real, quantity: int)

  /** What `addToCart` receives: a product without its quantity. */
  datatype Item = Item(id: string, title: string, imageUrl: string, price: real)

  /** The entry `addToCart` appends for an item not yet in the cart. */
  function NewEntry(item: Item): Product {
    Product(item.id, item.title, item.imageUrl, item.price, 1)
  }

  /** Some entry of the cart has this id. */
  predicate Contains(products: seq<Product>, id: string) {
    exists i :: 0 <= i < |products| && products[i].id == id
  }

  /** No two entries share an id. */
  predicate IdsDistinct(products: seq<Product>) {
    forall i, j :: 0 <= i < j < |products| ==> products[i].id != products[j].id
  }

  /** Every entry that is in the cart has a quantity of at least one. */
  predicate QuantitiesPositive(products: seq<Product>) {
    forall i :: 0 <= i < |products| ==> products[i].quantity >= 1
  }

  /** The cart invariant: ids are pairwise distinct and quantities are positive. */
  predicate Valid(products: seq<Product>) {
    IdsDistinct(products) && QuantitiesPositive(products)
  }

  /** Entry `k` is the first entry whose id is `id`. */
  predicate IsFirstMatch(products: seq<Product>, id: string, k: int) {
    && 0 <= k < |products|
    && products[k].id == id
    && forall i :: 0 <= i < k ==> products[i].id != id
  }

  /** `products.find(p => p.id === id)`: the first entry with this id, if any. */
  function Find(products: seq<Product>, id: string): (r: Option<Product>)
    ensures r.None? <==> !Contains(products, id)
    ensures forall k :: IsFirstMatch(products, id, k) ==> r == Some(products[k])
  {
    if |products| == 0 then None
    else if products[0].id == id then Some(products[0])
    else
      var r := Find(products[1..], id);
      assert forall k :: IsFirstMatch(products, id, k) ==> IsFirstMatch(products[1..], id, k - 1);
      assert Contains(products[1..], id) ==> Contains(products, id) by {
        if Contains(products[1..], id) {
          var i :| 0 <= i < |products[1..]| && products[1..][i].id == id;
          assert products[i + 1].id == id;
        }
      }
      assert Contains(products, id) ==> Contains(products[1..], id) by {
        if Contains(products, id) {
          var i :| 0 <= i < |products| && products[i].id == id;
          assert products[1..][i - 1].id == id;
        }
      }
      r
  }

  /** One step of the `map` in `increment`, `decrement` and `addToCart`. */
  function Adjust(p: Product, id: string, delta: int): Product {
    if p.id == id then p.(quantity := p.quantity + delta) else p
  }

  /**
    `products.map(p => p.id === id ? { ...p, quantity: p.quantity + delta } : p)`:
    every entry with this id has its quantity moved by `delta` and keeps its
    other fields; every other entry, the length and the order stay as they were.
   */
  function AdjustQuantity(products: seq<Product>, id: string, delta: int): (r: seq<Product>)
    ensures |r| == |products|
    ensures forall i :: 0 <= i < |products| && products[i].id != id ==> r[i] == products[i]
    ensures forall i :: 0 <= i < |products| && products[i].id == id ==>
              r[i] == products[i].(quantity := products[i].quantity + delta)
  {
    if |products| == 0 then []
    else [Adjust(products[0], id, delta)] + AdjustQuantity(products[1..], id, delta)
  }

  /**
    `products.filter(p => p.id !== id)`: no entry with this id remains, and
    when there was none nothing is removed.
   */
  function RemoveId(products: seq<Product>, id: string): (r: seq<Product>)
    ensures |r| <= |products|
    ensures !Contains(r, id)
    ensures !Contains(products, id) ==> r == products
  {
    if |products| == 0 then []
    else
      var rest := RemoveId(products[1..], id);
      assert !Contains(products, id) ==> !Contains(products[1..], id) by {
        if Contains(products[1..], id) {
          var i :| 0 <= i < |products[1..]| && products[1..][i].id == id;
          assert products[i + 1].id == id;
        }
      }
      assert products == [products[0]] + products[1..];
      if products[0].id == id then rest else [products[0]] + rest
  }

  /**
    `addToCart(product)`: raises the quantity of the entry with the item's id
    when there is one, and otherwise appends a new entry with quantity one.
   */
  function AddToCart(products: seq<Product>, item: Item): (r: seq<Product>)
    ensures |products| <= |r| <= |products| + 1
  {
    if Find(products, item.id).Some? then AdjustQuantity(products, item.id, 1)
    else products + [NewEntry(item)]
  }

  /** `increment(id)`: raises the quantity of the entry with this id by one. */
  function Increment(products: seq<Product>, id: string): (r: seq<Product>)
    ensures |r| == |products|
  {
    AdjustQuantity(products, id, 1)
  }

  /**
    `decrement(id)`: when the first entry with this id has a quantity above
    one, lowers it by one; otherwise filters the id out of the cart (which
    removes nothing when no entry has the id).
   */
  function Decrement(products: seq<Product>, id: string): (r: seq<Product>)
    ensures |r| <= |products|
  {
    var found := Find(products, id);
    if found.Some? && found.value.quantity > 1 then AdjustQuantity(products, id, -1)
    else RemoveId(products, id)
  }
}
