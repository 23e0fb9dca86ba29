# Wings Cafe inventory store, modelled in Dafny

The Wings Cafe Inventory System is a single-page application. All of its logic
is an in-memory list of product records `{id, name, category, price, quantity}`,
seeded with Coffee (id 1) and Sandwich (id 2). Four operations change the list:

- `addProduct` appends a record and gives it a fresh id. The id is the largest existing id plus one, or 1 for an empty list.
- `updateProduct` shallow-merges a patch into every record with the given id.
- `deleteProduct` filters out every record with the given id.
- The sell handler takes the quantity its caller passes. Above one, it updates the record to that quantity minus one. Otherwise it deletes the record.

Each operation replaces the whole list through the state setter.

The project has two files:

- `inventory.dfy` (module `Inventory`) holds the data model and the four transforms as pure functions over `seq<Product>`.
  - `Product` is a datatype. A patch is `Patch`, with an `Option` per field.
  - The transforms are `Add`, `Update`, `Delete` and `Sell`.
  - Helpers are `MaxId`, `NextId`, `Merge` and `Seed`.
  - Lemmas cover id freshness, distinct ids, "only the matching record changes", no-op on a missing id, order and length, the decrement-or-remove boundary, and the end-to-end Juice scenario.
  - `Update` and `Delete` are defined recursively, like `map` and `filter`. Their pointwise and membership properties are proved by induction.
- `store.dfy` (module `InventoryStore`) holds class `Store`. Its `products` field is the state. Each method assigns the field the value of the matching `Inventory` function, as the state setter does. Each method also states the invariants it keeps.

Where the code departs from what the store evidently intends, the model follows the code:

- One record per id is the evident intent. The code acts on every matching record: `updateProduct` merges into EVERY record whose id matches, and `deleteProduct` removes every such record. The two readings agree when ids are distinct (`DeleteUnique`).
- A patch that carries an `id` overwrites the record's id, because the patch is spread last. So `Patch` has an `id` field too. The id-preservation results require `patch.id == None`, which holds for the patch a sale builds.
- Nothing stops `addProduct` or `updateProduct` from storing a zero or negative quantity. A delete and a sale keep every record in stock (`DeletePreservesInStock`, `SellPreservesInvariants`). The model does not claim the "quantity is never negative" invariant for add and update.
- Ids are integers with no lower bound. The next id is still above every id held, so it is fresh even when ids are negative.

## Model

| member | source | states |
|---|---|---|
| Inventory.Seed | src/App.js:15-19 | the initial list is Coffee (id 1) then Sandwich (id 2); its ids are distinct and both are in stock |
| Inventory.MaxId | src/App.js:38 | `Math.max` over the ids of a non-empty list is an id of the list and at least every id |
| Inventory.NextId | src/App.js:38 | the new id is above every id (so no record has it); for a non-empty list it minus one is an existing id; for an empty list it is 1 |
| Inventory.Add | src/App.js:33-41 | the list grows by exactly one; the old records stay unchanged and in order in front; the new last record carries the supplied name, category, price and quantity and an id no old record has |
| Inventory.AddToEmpty | src/App.js:38 | adding to the empty list yields the single record with id 1 |
| Inventory.AddIdIsMaxPlusOne | src/App.js:38 | on a non-empty list the new record's id is the largest id plus one |
| Inventory.AddIgnoresInputId | src/App.js:36-39 | the id in the supplied product is overridden: any two choices of it give the same list |
| Inventory.AddPreservesDistinct | src/App.js:33-41 | if ids are pairwise distinct before an add, they are after |
| Inventory.QuantityPatch | src/App.js:91 | the patch a sale builds sets only the quantity |
| Inventory.Merge | src/App.js:45 | the shallow merge takes each field from the patch where the patch has it and from the record otherwise |
| Inventory.MergeEmpty | src/App.js:45 | merging an empty patch leaves the record as it was |
| Inventory.MergeCombine | src/App.js:45 | merging two patches in turn equals merging their combination, the later winning |
| Inventory.MergeIdempotent | src/App.js:45 | merging the same patch twice equals merging it once |
| Inventory.Update | src/App.js:43-47 | an update preserves the length of the list |
| Inventory.UpdateAt | src/App.js:45 | at every position the record is merged with the patch exactly when its id matches, and is untouched otherwise |
| Inventory.UpdateEverywhere | src/App.js:45 | the pointwise statement of UpdateAt for all positions at once |
| Inventory.UpdateMissing | src/App.js:45 | updating an id no record has returns the identical list |
| Inventory.UpdateKeepsIds | src/App.js:45 | a patch without an id leaves every record's id in place, so distinct ids stay distinct |
| Inventory.UpdateIdempotent | src/App.js:45 | applying the same update twice equals applying it once, for any patch (a patch that moves a record to another id makes it miss on the second pass) |
| Inventory.UpdateOnlyTouchesMatching | src/App.js:45 | with an id-free patch, the records whose id differs are the same, in the same order, before and after the update |
| Inventory.Delete | src/App.js:49-51 | a delete never lengthens the list |
| Inventory.DeleteMembers | src/App.js:50 | a record is kept exactly when it is in the list and its id differs |
| Inventory.DeleteRemovesId | src/App.js:50 | after a delete no record has the deleted id |
| Inventory.DeleteConcat | src/App.js:50 | deleting from a concatenation is concatenating the deletes, so kept records keep their original order |
| Inventory.DeleteMissing | src/App.js:50 | deleting an absent id returns the identical list |
| Inventory.DeleteUnique | src/App.js:50 | with distinct ids, deleting the id at position k removes exactly that record, keeps the rest in order, and shrinks the list by one |
| Inventory.DeletePreservesDistinct | src/App.js:50 | distinct ids stay distinct after a delete |
| Inventory.DeletePreservesInStock | src/App.js:50 | a delete only removes records, so if every record was in stock, every record still is |
| Inventory.DeleteIdempotent | src/App.js:50 | deleting twice equals deleting once |
| Inventory.Sell | src/App.js:87-95 | above quantity one a sale keeps the length; at one or below no record with the id is left |
| Inventory.SellBoundary | src/App.js:89-94 | after a sale every record with the sold id has exactly the passed quantity minus one, which is at least 1, and only when that quantity is above one; then the id is present after exactly when it was before |
| Inventory.SellOnlyTouchesMatching | src/App.js:87-95 | a sale leaves every record with another id unchanged and in order |
| Inventory.SellMissing | src/App.js:87-95 | selling an absent id returns the identical list |
| Inventory.SellPreservesInvariants | src/App.js:87-95 | a sale keeps ids distinct and keeps every record in stock when all were |
| Inventory.SellStaleTwice | src/App.js:87-95 | two sales passed the same quantity (the second stale) have the effect of one |
| Inventory.SellDownRemoves | src/App.js:87-95 | selling a product repeatedly, each time passing its current quantity, ends with exactly that product deleted, on any list, duplicate ids included |
| Inventory.JuiceScenario | src/App.js:15-51 | from the seed, adding Juice gives it id 3; selling at 8 leaves 7; selling down to the last unit restores the seed list |
| InventoryStore.Store.constructor | src/App.js:15-19 | a new store holds the seed list |
| InventoryStore.Store.AddProduct | src/App.js:33-41 | the new list is `Add` of the old one; it grows by one with the old records in front; distinct ids stay distinct |
| InventoryStore.Store.UpdateProduct | src/App.js:43-47 | the new list is `Update` of the old one; an absent id changes nothing; an id-free patch changes only matching records and keeps ids distinct |
| InventoryStore.Store.DeleteProduct | src/App.js:49-51 | the new list is `Delete` of the old one; no record has the id; an absent id changes nothing; distinct ids stay distinct and all-in-stock is kept |
| InventoryStore.Store.SellProduct | src/App.js:87-95 | when the passed quantity is above one the record is updated to the passed quantity minus one, otherwise it is deleted; other records are unchanged; distinct ids and all-in-stock are kept |

## Left out

- Rendering, the sidebar and the section navigation state (`activeSection`, src/App.js:21, 53-128) are presentation and hold no store logic. The components `Sidebar`, `Dashboard`, `ProductForm`, `ProductList`, `Customer`, `Report`, `AboutUs` and `ContactUs` are not part of this model.
- The development-only fetch of an initial list (src/App.js:24-31) is network I/O. At most it replaces the list wholesale, with whatever the endpoint returns.
- React's asynchronous state batching is not modelled. Each operation is one synchronous step.
- The stale `products` closure in the sell handler is not modelled either; its `find` result at src/App.js:90 is unused. What the model does keep is that the sale quantity comes from the caller (`SellStaleTwice`).
- `Number()` coercion of arbitrary values, NaN, and floating-point prices and quantities are left out. Quantities, prices and ids are unbounded integers, so precision loss above 2^53 is not modelled.
- Merge: a patch key set to `undefined` overwrites the record's field with `undefined`, and keys other than the five fields are copied onto the record (src/App.js:45). The model's `None` means only an absent key, and `Product` has exactly five fields.
- Add: keys of the supplied product other than the five fields are copied onto the new record (src/App.js:37); `Product` cannot hold them.
- A product passed to `addProduct` without some field would get that field undefined. This cannot be expressed here: the input is a full `Product`, whose id is then overridden.
- `Math.max(...ids)` throws on very large lists, because the spread exceeds the engine's argument limit. The model computes the maximum for lists of any length.
