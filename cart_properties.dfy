/**
  What the three cart operations do to a cart that keeps its invariant
  (distinct ids, positive quantities): the exact effect of each call, the
  invariant they preserve, and how they combine.
 */
module CartProperties {
  import opened Cart

  /** `products` with the quantity of entry `k` replaced, everything else kept. */
  function WithQuantity(products: seq<Product>, k: nat, quantity: int): (r: seq<Product>)
    requires k < |products|
  {
    products[k := products[k].(quantity := quantity)]
  }

  /** On a cart with distinct ids, the entry with a given id is the first match. */
  lemma FindAt(products: seq<Product>, id: string, k: nat)
    requires IdsDistinct(products) && k < |products| && products[k].id == id
    ensures Find(products, id) == Some(products[k])
  {
    assert IsFirstMatch(products, id, k);
  }

  /** With distinct ids, moving the quantity of the entry at `k` touches only that entry. */
  lemma AdjustQuantityAt(products: seq<Product>, id: string, delta: int, k: nat)
    requires IdsDistinct(products) && k < |products| && products[k].id == id
    ensures AdjustQuantity(products, id, delta) == WithQuantity(products, k, products[k].quantity + delta)
  {
    var r := AdjustQuantity(products, id, delta);
    forall i | 0 <= i < |products| && i != k
      ensures r[i] == products[i]
    {
      assert products[i].id != id;
    }
  }

  /** With no entry of this id, the `map` leaves the cart as it was. */
  lemma AdjustQuantityMissing(products: seq<Product>, id: string, delta: int)
    requires !Contains(products, id)
    ensures AdjustQuantity(products, id, delta) == products
  {
    var r := AdjustQuantity(products, id, delta);
    forall i | 0 <= i < |products|
      ensures r[i] == products[i]
    {
      assert products[i].id != id;
    }
  }

  /** With distinct ids, filtering out the id of the first entry leaves the rest. */
  lemma RemoveIdHead(products: seq<Product>, id: string)
    requires IdsDistinct(products) && 0 < |products| && products[0].id == id
    ensures RemoveId(products, id) == products[1..]
  {
  }

  /**
    With distinct ids, filtering out the id of entry `k` removes exactly that
    entry and keeps the others in their order.
   */
  lemma RemoveIdAt(products: seq<Product>, id: string, k: nat)
    requires IdsDistinct(products) && k < |products| && products[k].id == id
    ensures RemoveId(products, id) == products[..k] + products[k + 1..]
  {
    var before, after := products[..k], products[k + 1..];
    assert products == before + ([products[k]] + after);
    assert !Contains(before, id);
    assert !Contains(after, id);
    RemoveIdAppend(before, [products[k]] + after, id);
    RemoveIdAppend([products[k]], after, id);
    RemoveIdOne(products[k], id);
  }

  /**
    `filter` keeps exactly the entries whose id differs, whether or not the
    ids are distinct.
   */
  lemma {:induction false} RemoveIdMembers(products: seq<Product>, id: string)
    ensures forall p :: p in RemoveId(products, id) <==> p in products && p.id != id
  {
    if |products| > 0 {
      RemoveIdMembers(products[1..], id);
      assert products == [products[0]] + products[1..];
    }
  }

  /**
    `filter` keeps the order of what it keeps, whether or not the ids are
    distinct: filtering a concatenation filters each part and concatenates the
    results. With `RemoveIdOne` this fixes the result entry by entry.
   */
  lemma {:induction false} RemoveIdAppend(a: seq<Product>, b: seq<Product>, id: string)
    ensures RemoveId(a + b, id) == RemoveId(a, id) + RemoveId(b, id)
    decreases |a|
  {
    if |a| > 0 {
      var head := if a[0].id == id then [] else [a[0]];
      var ab := a + b;
      assert ab[0] == a[0] && ab[1..] == a[1..] + b;
      RemoveIdCons(ab, id);
      RemoveIdCons(a, id);
      RemoveIdAppend(a[1..], b, id);
      AppendAssoc(head, RemoveId(a[1..], id), RemoveId(b, id));
    } else {
      assert a + b == b;
    }
  }

  /** One step of `filter`: the first entry, kept or dropped, before the filtered rest. */
  lemma RemoveIdCons(products: seq<Product>, id: string)
    requires |products| > 0
    ensures RemoveId(products, id) ==
              (if products[0].id == id then [] else [products[0]]) + RemoveId(products[1..], id)
  {
  }

  /** `filter` on a single entry keeps it exactly when its id differs. */
  lemma RemoveIdOne(p: Product, id: string)
    ensures RemoveId([p], id) == if p.id == id then [] else [p]
  {
    assert [p][1..] == [];
  }

  /**
    After `addToCart` the item's id is in the cart, and the cart grew by one
    entry exactly when the id was not there before.
   */
  lemma AddToCartContains(products: seq<Product>, item: Item)
    ensures Contains(AddToCart(products, item), item.id)
    ensures |AddToCart(products, item)| == if Contains(products, item.id) then |products| else |products| + 1
  {
    var r := AddToCart(products, item);
    if Contains(products, item.id) {
      var i :| 0 <= i < |products| && products[i].id == item.id;
      assert r[i].id == item.id;
    } else {
      assert r[|products|].id == item.id;
    }
  }

  /**
    After `decrement(id)` the id is still in the cart exactly when its first
    entry had a quantity above one.
   */
  lemma DecrementContains(products: seq<Product>, id: string)
    ensures Contains(Decrement(products, id), id) <==> Find(products, id).Some? && Find(products, id).value.quantity > 1
  {
    var r := Decrement(products, id);
    var found := Find(products, id);
    if found.Some? && found.value.quantity > 1 {
      var i :| 0 <= i < |products| && products[i].id == id;
      assert r[i].id == id;
    } else {
      RemoveIdMembers(products, id);
    }
  }

  /**
    `addToCart` with an id already in the cart raises that entry's quantity by
    exactly one; the length, the order, the entry's other fields and every
    other entry are unchanged.
   */
  lemma AddToCartExisting(products: seq<Product>, item: Item, k: nat)
    requires IdsDistinct(products) && k < |products| && products[k].id == item.id
    ensures AddToCart(products, item) == WithQuantity(products, k, products[k].quantity + 1)
  {
    FindAt(products, item.id, k);
    AdjustQuantityAt(products, item.id, 1, k);
  }

  /**
    `addToCart` with an id not in the cart appends one entry (`NewEntry`: the
    item's id, title, image and price, with quantity one); the old cart is its
    prefix.
   */
  lemma AddToCartNew(products: seq<Product>, item: Item)
    requires !Contains(products, item.id)
    ensures AddToCart(products, item) == products + [NewEntry(item)]
  {
  }

  /** `increment` raises the matching entry's quantity by one and changes nothing else. */
  lemma IncrementAt(products: seq<Product>, id: string, k: nat)
    requires IdsDistinct(products) && k < |products| && products[k].id == id
    ensures Increment(products, id) == WithQuantity(products, k, products[k].quantity + 1)
  {
    AdjustQuantityAt(products, id, 1, k);
  }

  /** `increment` of an id not in the cart returns the cart unchanged. */
  lemma IncrementMissing(products: seq<Product>, id: string)
    requires !Contains(products, id)
    ensures Increment(products, id) == products
  {
    AdjustQuantityMissing(products, id, 1);
  }

  /** `decrement` of an entry above one lowers its quantity by one and keeps it in place. */
  lemma DecrementAbove(products: seq<Product>, id: string, k: nat)
    requires IdsDistinct(products) && k < |products| && products[k].id == id
    requires products[k].quantity > 1
    ensures Decrement(products, id) == WithQuantity(products, k, products[k].quantity - 1)
  {
    FindAt(products, id, k);
    AdjustQuantityAt(products, id, -1, k);
  }

  /**
    `decrement` of an entry at one (or below) removes it; the other entries
    keep their order and the cart is one shorter.
   */
  lemma DecrementRemoves(products: seq<Product>, id: string, k: nat)
    requires IdsDistinct(products) && k < |products| && products[k].id == id
    requires products[k].quantity <= 1
    ensures Decrement(products, id) == products[..k] + products[k + 1..]
    ensures |Decrement(products, id)| == |products| - 1
  {
    FindAt(products, id, k);
    RemoveIdAt(products, id, k);
  }

  /** `decrement` of an id not in the cart removes nothing. */
  lemma DecrementMissing(products: seq<Product>, id: string)
    requires !Contains(products, id)
    ensures Decrement(products, id) == products
  {
  }

  /** Changing one quantity keeps the ids distinct. */
  lemma WithQuantityDistinct(products: seq<Product>, k: nat, quantity: int)
    requires IdsDistinct(products) && k < |products|
    ensures IdsDistinct(WithQuantity(products, k, quantity))
  {
  }

  /** Changing one quantity to a positive value keeps the invariant. */
  lemma WithQuantityValid(products: seq<Product>, k: nat, quantity: int)
    requires Valid(products) && k < |products| && quantity >= 1
    ensures Valid(WithQuantity(products, k, quantity))
  {
  }

  /** Dropping one entry keeps the invariant. */
  lemma DropValid(products: seq<Product>, k: nat)
    requires Valid(products) && k < |products|
    ensures Valid(products[..k] + products[k + 1..])
  {
    var r := products[..k] + products[k + 1..];
    forall i | 0 <= i < |r|
      ensures r[i] == products[if i < k then i else i + 1]
    {
    }
  }

  /** `addToCart` keeps ids distinct and quantities positive. */
  lemma AddToCartValid(products: seq<Product>, item: Item)
    requires Valid(products)
    ensures Valid(AddToCart(products, item))
  {
    if Contains(products, item.id) {
      var k :| 0 <= k < |products| && products[k].id == item.id;
      AddToCartExisting(products, item, k);
      WithQuantityValid(products, k, products[k].quantity + 1);
    } else {
      AddToCartNew(products, item);
      var r := products + [NewEntry(item)];
      forall i, j | 0 <= i < j < |r|
        ensures r[i].id != r[j].id
      {
        if j == |products| {
          assert r[i] == products[i];
        }
      }
    }
  }

  /** `increment` keeps ids distinct and quantities positive. */
  lemma IncrementValid(products: seq<Product>, id: string)
    requires Valid(products)
    ensures Valid(Increment(products, id))
  {
    if Contains(products, id) {
      var k :| 0 <= k < |products| && products[k].id == id;
      IncrementAt(products, id, k);
      WithQuantityValid(products, k, products[k].quantity + 1);
    } else {
      IncrementMissing(products, id);
    }
  }

  /** `decrement` keeps ids distinct and quantities positive. */
  lemma DecrementValid(products: seq<Product>, id: string)
    requires Valid(products)
    ensures Valid(Decrement(products, id))
  {
    if Contains(products, id) {
      var k :| 0 <= k < |products| && products[k].id == id;
      if products[k].quantity > 1 {
        DecrementAbove(products, id, k);
        WithQuantityValid(products, k, products[k].quantity - 1);
      } else {
        DecrementRemoves(products, id, k);
        DropValid(products, k);
      }
    } else {
      DecrementMissing(products, id);
    }
  }

  /**
    On a cart with distinct ids, `increment` then `decrement` of an entry whose
    quantity is at least one restores the cart.
   */
  lemma IncrementThenDecrement(products: seq<Product>, id: string, k: nat)
    requires IdsDistinct(products) && k < |products| && products[k].id == id
    requires products[k].quantity >= 1
    ensures Decrement(Increment(products, id), id) == products
  {
    var q := products[k].quantity;
    IncrementAt(products, id, k);
    DecrementWithQuantity(products, id, k, q + 1);
    assert WithQuantity(products, k, q) == products;
  }

  /** `n` successive calls of `decrement(id)`. */
  function DecrementTimes(products: seq<Product>, id: string, n: nat): (r: seq<Product>)
    ensures |r| <= |products|
  {
    if n == 0 then products else Decrement(DecrementTimes(products, id, n - 1), id)
  }

  /** `decrement` of an entry whose quantity was set above one lowers it by one. */
  lemma DecrementWithQuantity(products: seq<Product>, id: string, k: nat, quantity: int)
    requires IdsDistinct(products) && k < |products| && products[k].id == id
    requires quantity > 1
    ensures Decrement(WithQuantity(products, k, quantity), id) == WithQuantity(products, k, quantity - 1)
  {
    var changed := WithQuantity(products, k, quantity);
    WithQuantityDistinct(products, k, quantity);
    DecrementAbove(changed, id, k);
    assert WithQuantity(changed, k, quantity - 1) == WithQuantity(products, k, quantity - 1);
  }

  /** `decrement` of an entry whose quantity was set to one drops it. */
  lemma DecrementWithQuantityOne(products: seq<Product>, id: string, k: nat)
    requires IdsDistinct(products) && k < |products| && products[k].id == id
    ensures Decrement(WithQuantity(products, k, 1), id) == products[..k] + products[k + 1..]
  {
    var changed := WithQuantity(products, k, 1);
    WithQuantityDistinct(products, k, 1);
    DecrementRemoves(changed, id, k);
    assert changed[..k] == products[..k];
    assert changed[k + 1..] == products[k + 1..];
  }

  /** Before the `q`-th call, an entry of quantity `q` is still in place, at quantity `q - m`. */
  lemma {:induction false} DecrementTimesBefore(products: seq<Product>, id: string, k: nat, m: nat)
    requires IdsDistinct(products) && k < |products| && products[k].id == id
    requires m < products[k].quantity
    ensures DecrementTimes(products, id, m) == WithQuantity(products, k, products[k].quantity - m)
  {
    var q := products[k].quantity;
    if m == 0 {
      assert WithQuantity(products, k, q) == products;
    } else {
      DecrementTimesBefore(products, id, k, m - 1);
      DecrementWithQuantity(products, id, k, q - (m - 1));
    }
  }

  /**
    One more call of `decrement`: the unfolding of `DecrementTimes`, stated
    on its own so that `DecrementTimesRemoves` does not unfold it together
    with `Decrement`, which makes that proof much more expensive.
   */
  lemma DecrementTimesSucc(products: seq<Product>, id: string, n: nat, before: seq<Product>)
    requires n > 0 && DecrementTimes(products, id, n - 1) == before
    ensures DecrementTimes(products, id, n) == Decrement(before, id)
  {
  }

  /** One call short of its quantity, an entry is down to quantity one. */
  lemma DecrementTimesToOne(products: seq<Product>, id: string, k: nat)
    requires IdsDistinct(products) && k < |products| && products[k].id == id
    requires products[k].quantity >= 1
    ensures DecrementTimes(products, id, products[k].quantity - 1) == WithQuantity(products, k, 1)
  {
    var m := products[k].quantity - 1;
    DecrementTimesBefore(products, id, k, m);
    assert products[k].quantity - m == 1;
  }

  /**
    On a cart with distinct ids, an entry of quantity `n >= 1` is gone after
    exactly `n` calls of `decrement`, with the other entries in their order.
   */
  lemma DecrementTimesRemoves(products: seq<Product>, id: string, k: nat)
    requires IdsDistinct(products) && k < |products| && products[k].id == id
    requires products[k].quantity >= 1
    ensures DecrementTimes(products, id, products[k].quantity) == products[..k] + products[k + 1..]
  {
    var atOne := WithQuantity(products, k, 1);
    DecrementTimesToOne(products, id, k);
    DecrementTimesSucc(products, id, products[k].quantity, atOne);
    DecrementWithQuantityOne(products, id, k);
  }

  /** ... and it is still in the cart after any smaller number of calls. */
  lemma DecrementTimesKeeps(products: seq<Product>, id: string, k: nat, m: nat)
    requires IdsDistinct(products) && k < |products| && products[k].id == id
    requires m < products[k].quantity
    ensures Contains(DecrementTimes(products, id, m), id)
  {
    DecrementTimesBefore(products, id, k, m);
    assert DecrementTimes(products, id, m)[k].id == id;
  }

  /** The ids of a cart with one entry appended. */
  lemma ContainsAppend(products: seq<Product>, entry: Product, id: string)
    ensures Contains(products + [entry], id) <==> Contains(products, id) || entry.id == id
  {
    var r := products + [entry];
    if Contains(r, id) {
      var i :| 0 <= i < |r| && r[i].id == id;
      if i < |products| {
        assert products[i].id == id;
      }
    }
    if Contains(products, id) {
      var i :| 0 <= i < |products| && products[i].id == id;
      assert r[i].id == id;
    }
    assert r[|products|] == entry;
  }

  /** After appending the first of a run of distinct new items, the others are still distinct and new. */
  lemma NoneOfTheRestContained(products: seq<Product>, items: seq<Item>)
    requires |items| > 0
    requires forall i, j :: 0 <= i < j < |items| ==> items[i].id != items[j].id
    requires forall i :: 0 <= i < |items| ==> !Contains(products, items[i].id)
    ensures forall i, j :: 0 <= i < j < |items[1..]| ==> items[1..][i].id != items[1..][j].id
    ensures forall i :: 0 <= i < |items[1..]| ==> !Contains(products + [NewEntry(items[0])], items[1..][i].id)
  {
    forall i | 0 <= i < |items| - 1
      ensures !Contains(products + [NewEntry(items[0])], items[1..][i].id)
    {
      assert items[1..][i] == items[i + 1];
      ContainsAppend(products, NewEntry(items[0]), items[i + 1].id);
    }
  }

  /** Successive `addToCart` calls, one per item, starting from `products`. */
  function AddAll(products: seq<Product>, items: seq<Item>): (r: seq<Product>)
    ensures |products| <= |r| <= |products| + |items|
    decreases |items|
  {
    if |items| == 0 then products else AddAll(AddToCart(products, items[0]), items[1..])
  }

  /** The entries `addToCart` appends for items that are all new. */
  function NewEntries(items: seq<Item>): (r: seq<Product>)
    ensures |r| == |items|
    ensures forall i :: 0 <= i < |items| ==> r[i] == NewEntry(items[i])
  {
    if |items| == 0 then [] else [NewEntry(items[0])] + NewEntries(items[1..])
  }

  /**
    Adding items whose ids are pairwise distinct and not yet in the cart
    appends one entry per item, in order, each with quantity one.
   */
  lemma {:induction false} AddAllNew(products: seq<Product>, items: seq<Item>)
    requires forall i, j :: 0 <= i < j < |items| ==> items[i].id != items[j].id
    requires forall i :: 0 <= i < |items| ==> !Contains(products, items[i].id)
    ensures AddAll(products, items) == products + NewEntries(items)
    decreases |items|
  {
    if |items| == 0 {
      assert products + [] == products;
    } else {
      var e := NewEntry(items[0]);
      NoneOfTheRestContained(products, items);
      AddAllNew(products + [e], items[1..]);
      AddAllCons(products, items);
      NewEntriesCons(items);
      AppendAssoc(products, [e], NewEntries(items[1..]));
    }
  }

  /*
    The three lemmas below state one rewriting step each for `AddAllNew`.
    Each is trivial; given separately they keep the inductive step from
    unfolding `AddAll`, `AddToCart` and `NewEntries` all at once, which runs
    the solver out of resources.
   */

  /** Concatenation is associative. */
  lemma AppendAssoc(a: seq<Product>, b: seq<Product>, c: seq<Product>)
    ensures a + b + c == a + (b + c)
  {
  }

  /** The unfolding of `NewEntries` for a non-empty run of items. */
  lemma NewEntriesCons(items: seq<Item>)
    requires |items| > 0
    ensures NewEntries(items) == [NewEntry(items[0])] + NewEntries(items[1..])
  {
  }

  /** The first of the items is new, so `addToCart` appends it. */
  lemma AddAllCons(products: seq<Product>, items: seq<Item>)
    requires |items| > 0 && !Contains(products, items[0].id)
    ensures AddAll(products, items) == AddAll(products + [NewEntry(items[0])], items[1..])
  {
    AddToCartNew(products, items[0]);
  }

  /**
    The walk-through of a single line item: add it, add it again, increment,
    then decrement three times, which empties the cart again.
   */
  lemma Scenario(item: Item)
    ensures AddToCart([], item) == [NewEntry(item)]
    ensures AddToCart([NewEntry(item)], item) == [NewEntry(item).(quantity := 2)]
    ensures Increment([NewEntry(item).(quantity := 2)], item.id) == [NewEntry(item).(quantity := 3)]
    ensures Decrement([NewEntry(item).(quantity := 3)], item.id) == [NewEntry(item).(quantity := 2)]
    ensures DecrementTimes([NewEntry(item).(quantity := 2)], item.id, 2) == []
  {
    var e := NewEntry(item);
    AddToCartExisting([e], item, 0);
    IncrementAt([e.(quantity := 2)], item.id, 0);
    DecrementAbove([e.(quantity := 3)], item.id, 0);
    DecrementTimesRemoves([e.(quantity := 2)], item.id, 0);
  }
}
