/**
  The cart's mirror in device storage. After each operation the provider
  writes a list under the key `@GoMarketplace:products`, and on start-up a
  list found under that key replaces the empty cart.

  The storage library and the JSON text in between are not modelled: the
  storage is a map from keys to the list values written, and a write is the
  list handed to it. As written, every operation writes the list it started
  from, not the one it produced (`StepAsWritten`); `Step` is the corrected
  write of the new list.
 */
module CartStorage {
  import opened Cart
  import CartProperties

  /** The one storage key the cart uses. */
  const STORAGE_KEY := "@GoMarketplace:products"

  /** A call of one of the three cart operations: `addToCart`, `increment` or `decrement`. */
  datatype Operation = Add(item: Item) | Inc(id: string) | Dec(id: string)

  /** The list an operation computes from the current one. */
  function Apply(products: seq<Product>, op: Operation): seq<Product> {
    match op
    case Add(item) => AddToCart(products, item)
    case Inc(id) => Increment(products, id)
    case Dec(id) => Decrement(products, id)
  }

  /** The provider: the cart in memory and the device's key-value storage. */
  datatype Store = Store(products: seq<Product>, storage: map<string, seq<Product>>)

  /**
    `loadProducts`: the cart a fresh provider ends up with. A list stored
    under the key replaces the initial empty cart; with nothing stored the
    cart stays empty.
   */
  function Reload(storage: map<string, seq<Product>>): seq<Product> {
    if STORAGE_KEY in storage then storage[STORAGE_KEY] else []
  }

  /** An operation as the provider performs it: the new list, then a write of the OLD list. */
  function StepAsWritten(s: Store, op: Operation): Store {
    Store(Apply(s.products, op), s.storage[STORAGE_KEY := s.products])
  }

  /** An operation with the write corrected to store the list it produced. */
  function Step(s: Store, op: Operation): Store {
    var next := Apply(s.products, op);
    Store(next, s.storage[STORAGE_KEY := next])
  }

  /** A run of operations, one after the other, as written. */
  function RunAsWritten(s: Store, ops: seq<Operation>): Store {
    if |ops| == 0 then s else StepAsWritten(RunAsWritten(s, ops[..|ops| - 1]), ops[|ops| - 1])
  }

  /** A run of operations with the corrected write. */
  function Run(s: Store, ops: seq<Operation>): Store {
    if |ops| == 0 then s else Step(Run(s, ops[..|ops| - 1]), ops[|ops| - 1])
  }

  /**
    As written, after any non-empty run of operations, a restart reloads the
    cart as it was one operation earlier.
   */
  lemma RunAsWrittenLags(s: Store, ops: seq<Operation>)
    requires |ops| > 0
    ensures Reload(RunAsWritten(s, ops).storage) == RunAsWritten(s, ops[..|ops| - 1]).products
  {
  }

  /**
    The input that shows it: from an empty cart with nothing stored, adding
    one item leaves that item in memory while a restart brings back an empty
    cart.
   */
  lemma AsWrittenLosesFirstAdd(item: Item)
    ensures StepAsWritten(Store([], map[]), Add(item)).products == [NewEntry(item)]
    ensures Reload(StepAsWritten(Store([], map[]), Add(item)).storage) == []
  {
    CartProperties.AddToCartNew([], item);
  }

  /** The write does not change which cart the operations produce. */
  lemma {:induction false} SameCart(s: Store, ops: seq<Operation>)
    ensures RunAsWritten(s, ops).products == Run(s, ops).products
  {
    if |ops| > 0 {
      SameCart(s, ops[..|ops| - 1]);
    }
  }

  /**
    With the corrected write, after any non-empty run of operations, a
    restart reloads exactly the cart in memory.
   */
  lemma RunMirrors(s: Store, ops: seq<Operation>)
    requires |ops| > 0
    ensures Reload(Run(s, ops).storage) == Run(s, ops).products
  {
  }

  /** No run writes under any key but the cart's own. */
  lemma {:induction false} RunKeepsOtherKeys(s: Store, ops: seq<Operation>)
    ensures forall key :: key != STORAGE_KEY ==>
              (key in Run(s, ops).storage <==> key in s.storage)
    ensures forall key :: key != STORAGE_KEY && key in s.storage ==>
              Run(s, ops).storage[key] == s.storage[key]
  {
    if |ops| > 0 {
      RunKeepsOtherKeys(s, ops[..|ops| - 1]);
    }
  }

  /** Every operation keeps the cart invariant. */
  lemma ApplyValid(products: seq<Product>, op: Operation)
    requires Valid(products)
    ensures Valid(Apply(products, op))
  {
    match op
    case Add(item) => CartProperties.AddToCartValid(products, item);
    case Inc(id) => CartProperties.IncrementValid(products, id);
    case Dec(id) => CartProperties.DecrementValid(products, id);
  }

  /** A run of operations from a valid cart (the empty one, say) keeps the invariant. */
  lemma {:induction false} RunValid(s: Store, ops: seq<Operation>)
    requires Valid(s.products)
    ensures Valid(Run(s, ops).products)
  {
    if |ops| > 0 {
      RunValid(s, ops[..|ops| - 1]);
      ApplyValid(Run(s, ops[..|ops| - 1]).products, ops[|ops| - 1]);
    }
  }
}
