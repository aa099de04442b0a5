# Shopping cart of the marketplace app, modelled in Dafny

The app keeps its shopping cart in a React provider (`src/hooks/cart.tsx`).
The cart is an ordered list of line items. Each item has an id, a title, an
image URL, a price and a quantity. Three operations change the list:

- `addToCart(product)` raises the quantity of the entry with the product's id.
  When there is no such entry it appends the product with quantity 1.
- `increment(id)` raises the quantity of every entry with that id by 1.
- `decrement(id)` looks up the first entry with that id. When its quantity is
  above 1, it lowers the quantity of every entry with that id by 1. Otherwise
  it filters the id out of the list; with no entry of that id nothing is removed.

Each operation builds a new list with `find`, `map`, `filter` and spread. The
provider's state slot then takes that list in place of the old one. So each
operation is modelled as a pure function from the old list to the new one:

- `cart.dfy` (module `Cart`) holds the `Product` and `Item` records, the cart
  invariant `Valid` (ids pairwise distinct, every quantity at least 1), and the
  operations. `Find`, `AdjustQuantity` and `RemoveId` model `find`, the
  quantity-changing `map` and `filter`.
- `cart_properties.dfy` (module `CartProperties`) proves the exact effect of
  each call on a cart with distinct ids. It also proves that every operation
  keeps `Valid`, that `increment` followed by `decrement` restores the cart,
  and that an entry of quantity n is removed by exactly n `decrement` calls.
- `cart_storage.dfy` (module `CartStorage`) models what each operation writes
  to device storage under the key `@GoMarketplace:products`, and what a restart
  loads back (see "Findings").

Three points where the code does something other than a plain account of a
cart would say; the model follows the code:

- `decrement` removes an entry whose quantity is not above 1, not only an
  entry of quantity exactly 1.
- `map` and `filter` act on every entry with the id, not on one entry. This
  only matters for a list with repeated ids, which `Valid` rules out.
- Each operation writes to storage the list it started from, not the updated
  list (see "Findings").

## Model

| member | source | states |
|---|---|---|
| `Cart.NewEntry` | src/hooks/cart.tsx:66-69 | a definition without a contract: the entry appended for a new item, its id, title, image URL and price with quantity 1 |
| `Cart.Find` | src/hooks/cart.tsx:50 | the result is empty exactly when no entry has the id; otherwise it is the first entry with that id |
| `Cart.AdjustQuantity` | src/hooks/cart.tsx:54-61 | same length; every entry with the id has only its quantity moved by delta; every other entry is unchanged, in place |
| `Cart.RemoveId` | src/hooks/cart.tsx:121 | no entry with the id remains; the result is no longer than the input, and equals it when no entry has the id |
| `Cart.AddToCart` | src/hooks/cart.tsx:50-70 | the cart grows by at most one entry |
| `Cart.Increment` | src/hooks/cart.tsx:84-93 | the length is unchanged |
| `Cart.Decrement` | src/hooks/cart.tsx:107-121 | the cart never grows |
| `CartProperties.FindAt` | src/hooks/cart.tsx:107 | with distinct ids, `find` returns the entry carrying the id |
| `CartProperties.AdjustQuantityAt` | src/hooks/cart.tsx:85-92 | with distinct ids, the `map` changes the quantity of exactly one entry by delta and nothing else |
| `CartProperties.AdjustQuantityMissing` | src/hooks/cart.tsx:85-92 | with no entry of the id, the `map` returns the list unchanged |
| `CartProperties.RemoveIdHead` | src/hooks/cart.tsx:121 | with distinct ids, filtering out the first entry's id leaves the rest of the list |
| `CartProperties.RemoveIdAt` | src/hooks/cart.tsx:121 | with distinct ids, filtering out the id of entry k gives the list without entry k, the others in their order |
| `CartProperties.RemoveIdMembers` | src/hooks/cart.tsx:121 | an entry is in the filtered list if and only if it was in the list and has another id |
| `CartProperties.RemoveIdAppend` | src/hooks/cart.tsx:121 | for any list, repeated ids included, filtering a concatenation is the concatenation of the filtered parts, so the kept entries stay in their order |
| `CartProperties.RemoveIdOne` | src/hooks/cart.tsx:121 | a single entry is kept exactly when its id differs |
| `CartProperties.AddToCartExisting` | src/hooks/cart.tsx:50-62 | id already present: that entry's quantity rises by exactly 1; length, order, its other fields and all other entries unchanged |
| `CartProperties.AddToCartNew` | src/hooks/cart.tsx:63-70 | id absent: the result is the old list followed by one entry with the item's id, title, image URL, price and quantity 1 |
| `CartProperties.AddToCartContains` | src/hooks/cart.tsx:50-70 | afterwards the id is in the cart; the length grows by one exactly when it was absent |
| `CartProperties.IncrementAt` | src/hooks/cart.tsx:84-93 | the matching entry's quantity rises by 1; every other entry, the length and the order are unchanged |
| `CartProperties.IncrementMissing` | src/hooks/cart.tsx:84-93 | with no matching id the cart is unchanged |
| `CartProperties.DecrementAbove` | src/hooks/cart.tsx:107-119 | quantity above 1: it drops by 1, the entry stays in place, nothing else changes |
| `CartProperties.DecrementRemoves` | src/hooks/cart.tsx:109-121 | quantity at most 1: the entry is removed, the others keep their order, the length drops by 1 |
| `CartProperties.DecrementMissing` | src/hooks/cart.tsx:107-121 | with no matching id the filter removes nothing |
| `CartProperties.DecrementContains` | src/hooks/cart.tsx:107-121 | afterwards the id is in the cart if and only if its first entry had a quantity above 1 |
| `CartProperties.WithQuantityDistinct` | src/hooks/cart.tsx:54-61 | changing one entry's quantity keeps the ids distinct |
| `CartProperties.WithQuantityValid` | src/hooks/cart.tsx:54-61 | changing one entry's quantity to at least 1 keeps the invariant |
| `CartProperties.DropValid` | src/hooks/cart.tsx:121 | removing one entry keeps the invariant |
| `CartProperties.AddToCartValid` | src/hooks/cart.tsx:50-70 | `addToCart` keeps ids distinct and quantities at least 1 |
| `CartProperties.IncrementValid` | src/hooks/cart.tsx:84-93 | `increment` keeps ids distinct and quantities at least 1 |
| `CartProperties.DecrementValid` | src/hooks/cart.tsx:107-121 | `decrement` keeps ids distinct and quantities at least 1 |
| `CartProperties.IncrementThenDecrement` | src/hooks/cart.tsx:84-121 | with distinct ids, `increment` then `decrement` of an entry of quantity at least 1 gives back the original cart |
| `CartProperties.DecrementTimes` | src/hooks/cart.tsx:103-130 | repeated `decrement` calls never grow the cart |
| `CartProperties.DecrementWithQuantity` | src/hooks/cart.tsx:107-119 | `decrement` of an entry set to a quantity above 1 lowers it by 1 |
| `CartProperties.DecrementWithQuantityOne` | src/hooks/cart.tsx:120-121 | `decrement` of an entry set to quantity 1 drops it |
| `CartProperties.DecrementTimesBefore` | src/hooks/cart.tsx:107-119 | after m calls with m below quantity q, the entry is in place with quantity q - m and nothing else has changed |
| `CartProperties.DecrementTimesToOne` | src/hooks/cart.tsx:107-119 | after q - 1 calls, an entry of quantity q is down to quantity 1 |
| `CartProperties.DecrementTimesRemoves` | src/hooks/cart.tsx:107-121 | after exactly q calls the entry is gone and the others keep their order |
| `CartProperties.DecrementTimesKeeps` | src/hooks/cart.tsx:107-119 | after fewer than q calls the entry is still in the cart |
| `CartProperties.AddAll` | src/hooks/cart.tsx:46-79 | successive `addToCart` calls grow the cart by at most one entry each |
| `CartProperties.NewEntries` | src/hooks/cart.tsx:66-69 | one entry with quantity 1 per item, in order |
| `CartProperties.AddAllNew` | src/hooks/cart.tsx:63-70 | adding items with distinct ids that are not in the cart appends one quantity-1 entry per item, in order |
| `CartProperties.Scenario` | src/hooks/cart.tsx:46-130 | add, add again, increment, decrement: quantities 1, 2, 3, 2; two more decrements empty the cart |
| `CartStorage.Apply` | src/hooks/cart.tsx:46-130 | a definition without a contract: the list `addToCart`, `increment` or `decrement` computes from the current one, chosen by the operation |
| `CartStorage.Reload` | src/hooks/cart.tsx:32-41 | a definition without a contract: the cart after `loadProducts`, the list stored under the cart's key when there is one, otherwise the initial empty cart |
| `CartStorage.StepAsWritten` | src/hooks/cart.tsx:73-76 | a definition without a contract: one callback as written, the new list in memory and the list from before the update written under the cart's key (also lines 95-98 and 124-127) |
| `CartStorage.Step` | src/hooks/cart.tsx:73-76 | a definition without a contract: one callback with the write corrected, the new list both in memory and under the cart's key |
| `CartStorage.RunAsWrittenLags` | src/hooks/cart.tsx:73-76 | as written, after any run of operations a restart loads the cart as it was one operation earlier |
| `CartStorage.AsWrittenLosesFirstAdd` | src/hooks/cart.tsx:64-76 | as written, adding one item to an empty cart keeps it in memory while a restart loads an empty cart |
| `CartStorage.SameCart` | src/hooks/cart.tsx:46-130 | the storage write has no effect on the cart the operations produce |
| `CartStorage.RunMirrors` | src/hooks/cart.tsx:32-41 | with the write corrected, a restart after any run of operations loads exactly the cart in memory |
| `CartStorage.RunKeepsOtherKeys` | src/hooks/cart.tsx:73-76 | no operation changes storage under any key but the cart's own |
| `CartStorage.ApplyValid` | src/hooks/cart.tsx:46-130 | every operation keeps the cart invariant |
| `CartStorage.RunValid` | src/hooks/cart.tsx:28-29 | any run of operations from a valid cart, such as the initial empty one, keeps the invariant |

## Findings

| source | as written | input that shows it | evidently intended | confidence | as-written member | corrected member |
|---|---|---|---|---|---|---|
| src/hooks/cart.tsx:73-76 | `addToCart`, `increment` and `decrement` (also lines 95-98 and 124-127) write `JSON.stringify(products)`. `products` is the list the callback closed over, from before the update. | Empty cart, nothing stored, `addToCart(item)`: memory holds `[item with quantity 1]`, storage holds `[]`, and a restart loads an empty cart | write the list just computed, so storage mirrors the cart | high, not executed | `CartStorage.RunAsWrittenLags`, `CartStorage.AsWrittenLosesFirstAdd` (over `CartStorage.StepAsWritten`) | `CartStorage.RunMirrors` (over `CartStorage.Step`; `CartStorage.RunValid` uses it) |

## Left out

- The storage library calls are asynchronous, can fail silently and are awaited after the state update; none of this is modelled. Storage is a map from keys to the list values written.
- JSON encoding and decoding of the stored list is not modelled. `Reload` takes the decoded value as stored, so the round trip through text is assumed to be the identity.
- The React plumbing is not modelled: context creation, `useState`, `useEffect`, `useCallback`, `useMemo`, the provider component, and the error `useCart` throws outside a provider. It is framework wiring, not cart logic.
- Stale closures and interleaving are not modelled. Callbacks use the list from their last render, and the start-up load can finish after user operations. Every model run applies operations one after another to the current list.
- Prices are JavaScript floating-point numbers. They are kept as `real` values that no operation reads.
- Quantities are JavaScript numbers. They are modelled as unbounded integers, which agree with the source for every quantity below 2^53.
- `AddToCart`'s `Item` has exactly four fields. In the source, any extra fields of the argument would be copied into the new entry by the object spread.
- Cart.AddToCart: its own contract states only a length bound; its exact effect is stated by `AddToCartExisting`, `AddToCartNew` and `AddToCartContains`.
- Cart.Increment: its own contract states only the length; its exact effect is stated by `IncrementAt` and `IncrementMissing`.
- Cart.RemoveId: its own contract states that the id is gone, the length bound and the no-match identity, but not which entries are kept or in what order; `RemoveIdMembers` states membership for any list, `RemoveIdAppend` with `RemoveIdOne` the order for any list (repeated ids included), and `RemoveIdAt` the exact result for distinct ids.
- Cart.Decrement: its own contract states only a length bound; its exact effect is stated by `DecrementAbove`, `DecrementRemoves`, `DecrementMissing` and `DecrementContains`.
