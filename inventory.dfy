/**
  The in-memory product inventory of the Wings Cafe inventory system.

  The store is a list of product records. Each operation replaces the whole
  list by a new one computed from the old one: `Add` appends a record with a
  fresh id, `Update` shallow-merges a patch into the records with a given id,
  `Delete` filters those records out, and `Sell` takes the quantity its
  caller passes and, when that is above one, sets the record's quantity to it
  minus one, and otherwise deletes the record.
 */
module Inventory {

  datatype Option<T> = None | Some(value: T) {
    /** The carried value, or `default` when there is none. */
    function GetOr(default: T): T {
      match this
      case Some(v) => v
      case None => default
    }
  }

  /** One inventory record. Prices and quantities are whole numbers here. */
  datatype Product = Product(id: int, name: string, category: string, price: int, quantity: int)

  /**
    The partial record handed to an update: a field that is `Some` overrides
    the record's field, a field that is `None` is absent from the patch.
   */
  datatype Patch = Patch(
    id: Option<int>,
    name: Option<string>,
    category: Option<string>,
    price: Option<int>,
    quantity: Option<int>)

  /** The patch with no fields, `{}`. */
  const EMPTY_PATCH := Patch(None, None, None, None, None)

  /** The patch `{quantity: q}` that a sale hands to an update. */
  function QuantityPatch(q: int): (patch: Patch)
    ensures patch.quantity == Some(q)
    ensures patch.id.None? && patch.name.None? && patch.category.None? && patch.price.None?
  {
    EMPTY_PATCH.(quantity := Some(q))
  }

  // ---------------------------------------------------------------------------
  // Ids

  /** Some record of `ps` has id `id`. */
  predicate HasId(ps: seq<Product>, id: int) {
    exists i | 0 <= i < |ps| :: ps[i].id == id
  }

  /** No two records of `ps` share an id. */
  predicate DistinctIds(ps: seq<Product>) {
    forall i, j | 0 <= i < j < |ps| :: ps[i].id != ps[j].id
  }

  /** Every record of `ps` has at least one unit in stock. */
  predicate InStock(ps: seq<Product>) {
    forall i | 0 <= i < |ps| :: ps[i].quantity >= 1
  }

  /** The largest id of a non-empty list, `Math.max(...products.map(p => p.id))`. */
  function MaxId(ps: seq<Product>): (m: int)
    requires |ps| > 0
    ensures HasId(ps, m)
    ensures forall i | 0 <= i < |ps| :: ps[i].id <= m
  {
    if |ps| == 1 then
      ps[0].id
    else
      var rest := MaxId(ps[1..]);
      assert HasId(ps, rest) by {
        var i :| 0 <= i < |ps| - 1 && ps[1..][i].id == rest;
        assert ps[i + 1].id == rest;
      }
      if ps[0].id >= rest then ps[0].id else rest
  }

  /**
    The id given to the next added record: one more than the largest id, or 1
    for an empty list. It is above every existing id, so it is fresh, and for a
    non-empty list it is the least integer with that property.
   */
  function NextId(ps: seq<Product>): (n: int)
    ensures forall i | 0 <= i < |ps| :: ps[i].id < n
    ensures !HasId(ps, n)
    ensures |ps| > 0 ==> HasId(ps, n - 1)
    ensures |ps| == 0 ==> n == 1
  {
    if |ps| > 0 then MaxId(ps) + 1 else 1
  }

  /** The list every store starts from: Coffee (id 1) and Sandwich (id 2). */
  function Seed(): (r: seq<Product>)
    ensures |r| == 2 && DistinctIds(r) && InStock(r)
    ensures r[0].id == 1 && r[1].id == 2
  {
    [ Product(1, "Coffee", "Beverage", 20, 10),
      Product(2, "Sandwich", "Food", 35, 5) ]
  }

  // ---------------------------------------------------------------------------
  // Add

  /**
    The list after `addProduct(product)`: `product` appended with its id
    replaced by `NextId(ps)` (the id is written after the spread, so any id the
    caller supplied is overridden).
   */
  function Add(ps: seq<Product>, product: Product): (r: seq<Product>)
    ensures |r| == |ps| + 1
    ensures r[..|ps|] == ps
    ensures !HasId(ps, r[|ps|].id)
    ensures r[|ps|].name == product.name && r[|ps|].category == product.category
    ensures r[|ps|].price == product.price && r[|ps|].quantity == product.quantity
  {
    ps + [product.(id := NextId(ps))]
  }

  /** Adding to an empty list gives the single record with id 1. */
  lemma AddToEmpty(product: Product)
    ensures Add([], product) == [product.(id := 1)]
  {
  }

  /** Adding to a non-empty list gives the new record the largest id plus one. */
  lemma AddIdIsMaxPlusOne(ps: seq<Product>, product: Product)
    requires |ps| > 0
    ensures Add(ps, product)[|ps|].id == MaxId(ps) + 1
  {
  }

  /** The id the caller supplied plays no part in the result. */
  lemma AddIgnoresInputId(ps: seq<Product>, product: Product, otherId: int)
    ensures Add(ps, product) == Add(ps, product.(id := otherId))
  {
  }

  /** Adding keeps every id distinct when they were distinct. */
  lemma AddPreservesDistinct(ps: seq<Product>, product: Product)
    requires DistinctIds(ps)
    ensures DistinctIds(Add(ps, product))
  {
  }

  // ---------------------------------------------------------------------------
  // Merge and Update

  /** The shallow merge `{...p, ...patch}`, for a patch of defined values among the five fields. */
  function Merge(p: Product, patch: Patch): (r: Product)
    ensures r.id == if patch.id.Some? then patch.id.value else p.id
    ensures r.name == if patch.name.Some? then patch.name.value else p.name
    ensures r.category == if patch.category.Some? then patch.category.value else p.category
    ensures r.price == if patch.price.Some? then patch.price.value else p.price
    ensures r.quantity == if patch.quantity.Some? then patch.quantity.value else p.quantity
  {
    Product(
      patch.id.GetOr(p.id),
      patch.name.GetOr(p.name),
      patch.category.GetOr(p.category),
      patch.price.GetOr(p.price),
      patch.quantity.GetOr(p.quantity))
  }

  /** The patch `{...first, ...second}`: the fields of either, `second` winning. */
  function Combine(first: Patch, second: Patch): (patch: Patch)
  {
    Patch(
      if second.id.Some? then second.id else first.id,
      if second.name.Some? then second.name else first.name,
      if second.category.Some? then second.category else first.category,
      if second.price.Some? then second.price else first.price,
      if second.quantity.Some? then second.quantity else first.quantity)
  }

  /** Merging the empty patch changes nothing. */
  lemma MergeEmpty(p: Product)
    ensures Merge(p, EMPTY_PATCH) == p
  {
  }

  /** Merging two patches in turn is merging their combination once. */
  lemma MergeCombine(p: Product, first: Patch, second: Patch)
    ensures Merge(Merge(p, first), second) == Merge(p, Combine(first, second))
  {
  }

  /** Merging the same patch twice is merging it once. */
  lemma MergeIdempotent(p: Product, patch: Patch)
    ensures Merge(Merge(p, patch), patch) == Merge(p, patch)
  {
  }

  /**
    The list after `updateProduct(id, patch)`:
    `products.map(p => p.id === id ? {...p, ...patch} : p)`.
   */
  function Update(ps: seq<Product>, id: int, patch: Patch): (r: seq<Product>)
    ensures |r| == |ps|
  {
    if ps == [] then
      []
    else
      [if ps[0].id == id then Merge(ps[0], patch) else ps[0]] + Update(ps[1..], id, patch)
  }

  /** Position by position, a record is merged exactly when its id matches. */
  lemma {:induction false} UpdateAt(ps: seq<Product>, id: int, patch: Patch, k: int)
    requires 0 <= k < |ps|
    ensures Update(ps, id, patch)[k] == if ps[k].id == id then Merge(ps[k], patch) else ps[k]
  {
    if k > 0 {
      UpdateAt(ps[1..], id, patch, k - 1);
    }
  }

  /** Every position of an updated list, at once. */
  lemma {:induction false} UpdateEverywhere(ps: seq<Product>, id: int, patch: Patch)
    ensures forall k | 0 <= k < |ps| ::
      Update(ps, id, patch)[k] == if ps[k].id == id then Merge(ps[k], patch) else ps[k]
  {
    forall k | 0 <= k < |ps|
      ensures Update(ps, id, patch)[k] == if ps[k].id == id then Merge(ps[k], patch) else ps[k]
    {
      UpdateAt(ps, id, patch, k);
    }
  }

  /** Updating an id no record has returns the identical list. */
  lemma {:induction false} UpdateMissing(ps: seq<Product>, id: int, patch: Patch)
    requires !HasId(ps, id)
    ensures Update(ps, id, patch) == ps
  {
    if ps != [] {
      assert ps[0].id != id;
      forall i | 0 <= i < |ps[1..]| ensures ps[1..][i].id != id {
        assert ps[1..][i] == ps[i + 1];
      }
      UpdateMissing(ps[1..], id, patch);
    }
  }

  /** A patch without an id leaves every id where it was. */
  lemma {:induction false} UpdateKeepsIds(ps: seq<Product>, id: int, patch: Patch)
    requires patch.id.None?
    ensures forall k | 0 <= k < |ps| :: Update(ps, id, patch)[k].id == ps[k].id
    ensures DistinctIds(ps) ==> DistinctIds(Update(ps, id, patch))
  {
    UpdateEverywhere(ps, id, patch);
  }

  /** Merging the same patch twice in a row is merging it once. */
  lemma {:induction false} UpdateIdempotent(ps: seq<Product>, id: int, patch: Patch)
    ensures Update(Update(ps, id, patch), id, patch) == Update(ps, id, patch)
  {
    var once := Update(ps, id, patch);
    UpdateEverywhere(ps, id, patch);
    UpdateEverywhere(once, id, patch);
    forall k | 0 <= k < |ps| ensures Update(once, id, patch)[k] == once[k] {
      if ps[k].id == id {
        MergeIdempotent(ps[k], patch);
      }
    }
  }

  // ---------------------------------------------------------------------------
  // Delete

  /** The list after `deleteProduct(id)`: `products.filter(p => p.id !== id)`. */
  function Delete(ps: seq<Product>, id: int): (r: seq<Product>)
    ensures |r| <= |ps|
  {
    if ps == [] then
      []
    else
      (if ps[0].id == id then [] else [ps[0]]) + Delete(ps[1..], id)
  }

  /** The records kept are exactly those of `ps` whose id differs. */
  lemma {:induction false} DeleteMembers(ps: seq<Product>, id: int)
    ensures forall q :: q in Delete(ps, id) <==> q in ps && q.id != id
  {
    if ps != [] {
      DeleteMembers(ps[1..], id);
      assert ps == [ps[0]] + ps[1..];
    }
  }

  /** No record with the deleted id is left. */
  lemma {:induction false} DeleteRemovesId(ps: seq<Product>, id: int)
    ensures !HasId(Delete(ps, id), id)
  {
    var r := Delete(ps, id);
    DeleteMembers(ps, id);
    forall i | 0 <= i < |r| ensures r[i].id != id {
      assert r[i] in r;
    }
  }

  /** Deleting distributes over concatenation, so the kept records keep their order. */
  lemma {:induction false} DeleteConcat(a: seq<Product>, b: seq<Product>, id: int)
    ensures Delete(a + b, id) == Delete(a, id) + Delete(b, id)
  {
    if a == [] {
      assert a + b == b;
    } else {
      assert (a + b)[0] == a[0];
      assert (a + b)[1..] == a[1..] + b;
      DeleteConcat(a[1..], b, id);
    }
  }

  /** Deleting an id no record has returns the identical list. */
  lemma {:induction false} DeleteMissing(ps: seq<Product>, id: int)
    requires !HasId(ps, id)
    ensures Delete(ps, id) == ps
  {
    if ps != [] {
      assert ps[0].id != id;
      forall i | 0 <= i < |ps[1..]| ensures ps[1..][i].id != id {
        assert ps[1..][i] == ps[i + 1];
      }
      DeleteMissing(ps[1..], id);
      assert ps == [ps[0]] + ps[1..];
    }
  }

  /**
    With distinct ids, deleting the id of the record at `k` removes exactly that
    record and keeps the others in order; the list shrinks by one.
   */
  lemma {:induction false} DeleteUnique(ps: seq<Product>, id: int, k: int)
    requires DistinctIds(ps)
    requires 0 <= k < |ps| && ps[k].id == id
    ensures Delete(ps, id) == ps[..k] + ps[k + 1..]
    ensures |Delete(ps, id)| == |ps| - 1
  {
    var tail := ps[1..];
    if k == 0 {
      forall i | 0 <= i < |tail| ensures tail[i].id != id {
        assert tail[i] == ps[i + 1];
      }
      DeleteMissing(tail, id);
      assert ps[..0] + ps[1..] == tail;
    } else {
      forall i, j | 0 <= i < j < |tail| ensures tail[i].id != tail[j].id {
        assert tail[i] == ps[i + 1] && tail[j] == ps[j + 1];
      }
      DeleteUnique(tail, id, k - 1);
      assert ps[0].id != id;
      assert tail[..k - 1] + tail[k..] == ps[1..k] + ps[k + 1..];
      assert ps[..k] + ps[k + 1..] == [ps[0]] + (ps[1..k] + ps[k + 1..]);
    }
  }

  /** Deleting keeps every id distinct when they were distinct. */
  lemma {:induction false} DeletePreservesDistinct(ps: seq<Product>, id: int)
    requires DistinctIds(ps)
    ensures DistinctIds(Delete(ps, id))
  {
    if ps != [] {
      var rest := Delete(ps[1..], id);
      DeletePreservesDistinct(ps[1..], id);
      if ps[0].id != id {
        var r := Delete(ps, id);
        assert r == [ps[0]] + rest;
        forall i, j | 0 <= i < j < |r| ensures r[i].id != r[j].id {
          if i > 0 {
            assert r[i] == rest[i - 1] && r[j] == rest[j - 1];
          } else {
            DeleteMembers(ps[1..], id);
            assert r[j] in rest;
            assert r[j] in ps[1..];
            var m :| 0 <= m < |ps| - 1 && ps[1..][m] == r[j];
            assert ps[m + 1] == r[j];
          }
        }
      }
    }
  }

  /** Deleting keeps every record in stock when all were: it only removes records. */
  lemma {:induction false} DeletePreservesInStock(ps: seq<Product>, id: int)
    requires InStock(ps)
    ensures InStock(Delete(ps, id))
  {
    DeleteMembers(ps, id);
    var r := Delete(ps, id);
    forall i | 0 <= i < |r| ensures r[i].quantity >= 1 {
      assert r[i] in r;
    }
  }

  /** Deleting twice is deleting once. */
  lemma {:induction false} DeleteIdempotent(ps: seq<Product>, id: int)
    ensures Delete(Delete(ps, id), id) == Delete(ps, id)
  {
    DeleteRemovesId(ps, id);
    DeleteMissing(Delete(ps, id), id);
  }

  /**
    An update touches only the matching records: once they are deleted, the
    list before and after the update agree.
   */
  lemma {:induction false} UpdateOnlyTouchesMatching(ps: seq<Product>, id: int, patch: Patch)
    requires patch.id.None?
    ensures Delete(Update(ps, id, patch), id) == Delete(ps, id)
  {
    if ps != [] {
      UpdateOnlyTouchesMatching(ps[1..], id, patch);
      var head := if ps[0].id == id then Merge(ps[0], patch) else ps[0];
      assert Update(ps, id, patch) == [head] + Update(ps[1..], id, patch);
      assert Update(ps, id, patch)[1..] == Update(ps[1..], id, patch);
    }
  }

  // ---------------------------------------------------------------------------
  // Sell

  /**
    The list after the sell handler runs with the quantity the caller passed:
    above one the record is updated to that quantity minus one, otherwise it is
    deleted.
   */
  function Sell(ps: seq<Product>, id: int, qty: int): (r: seq<Product>)
    ensures qty > 1 ==> |r| == |ps|
    ensures qty <= 1 ==> !HasId(r, id)
  {
    if qty > 1 then
      Update(ps, id, QuantityPatch(qty - 1))
    else
      DeleteRemovesId(ps, id);
      Delete(ps, id)
  }

  /**
    The decrement-or-remove boundary: after a sale every record with the sold
    id has exactly `qty - 1` units, which is at least one, or none is left.
   */
  lemma SellBoundary(ps: seq<Product>, id: int, qty: int)
    ensures forall k | 0 <= k < |Sell(ps, id, qty)| && Sell(ps, id, qty)[k].id == id ::
      qty > 1 && Sell(ps, id, qty)[k].quantity == qty - 1 >= 1
    ensures qty > 1 ==> (HasId(Sell(ps, id, qty), id) <==> HasId(ps, id))
  {
    if qty > 1 {
      UpdateEverywhere(ps, id, QuantityPatch(qty - 1));
    }
  }

  /** A sale changes nothing but the records with the sold id. */
  lemma SellOnlyTouchesMatching(ps: seq<Product>, id: int, qty: int)
    ensures Delete(Sell(ps, id, qty), id) == Delete(ps, id)
  {
    if qty > 1 {
      UpdateOnlyTouchesMatching(ps, id, QuantityPatch(qty - 1));
    } else {
      DeleteIdempotent(ps, id);
    }
  }

  /** Selling an id no record has returns the identical list. */
  lemma SellMissing(ps: seq<Product>, id: int, qty: int)
    requires !HasId(ps, id)
    ensures Sell(ps, id, qty) == ps
  {
    if qty > 1 {
      UpdateMissing(ps, id, QuantityPatch(qty - 1));
    } else {
      DeleteMissing(ps, id);
    }
  }

  /** Selling keeps ids distinct and, when every record was in stock, keeps every record in stock. */
  lemma SellPreservesInvariants(ps: seq<Product>, id: int, qty: int)
    ensures DistinctIds(ps) ==> DistinctIds(Sell(ps, id, qty))
    ensures InStock(ps) ==> InStock(Sell(ps, id, qty))
  {
    if qty > 1 {
      UpdateKeepsIds(ps, id, QuantityPatch(qty - 1));
      UpdateEverywhere(ps, id, QuantityPatch(qty - 1));
    } else {
      if InStock(ps) {
        DeletePreservesInStock(ps, id);
      }
      if DistinctIds(ps) {
        DeletePreservesDistinct(ps, id);
      }
    }
  }

  /**
    Two sales dispatched with the same caller-supplied quantity (a stale one for
    the second) have the effect of a single sale: one unit is lost from the
    count of units sold.
   */
  lemma SellStaleTwice(ps: seq<Product>, id: int, qty: int)
    ensures Sell(Sell(ps, id, qty), id, qty) == Sell(ps, id, qty)
  {
    if qty > 1 {
      UpdateIdempotent(ps, id, QuantityPatch(qty - 1));
    } else {
      DeleteIdempotent(ps, id);
    }
  }

  /**
    Selling `n` times, each time passing the record's current quantity
    (`n`, `n - 1`, ..., `1`).
   */
  function SellDown(ps: seq<Product>, id: int, n: int): (r: seq<Product>)
    decreases n
  {
    if n <= 1 then Sell(ps, id, n) else SellDown(Sell(ps, id, n), id, n - 1)
  }

  /**
    Selling a product down from its current quantity, always passing the
    current quantity, ends with the product removed and the rest untouched.
   */
  lemma {:induction false} SellDownRemoves(ps: seq<Product>, id: int, n: int)
    requires forall k | 0 <= k < |ps| && ps[k].id == id :: ps[k].quantity == n
    ensures SellDown(ps, id, n) == Delete(ps, id)
    decreases n
  {
    if n > 1 {
      var next := Sell(ps, id, n);
      SellBoundary(ps, id, n);
      SellDownRemoves(next, id, n - 1);
      SellOnlyTouchesMatching(ps, id, n);
    }
  }

  /**
    From the seed list, adding Juice (8 units) gives it id 3; one sale at
    quantity 8 leaves 7 units; selling it down to its last unit removes it and
    leaves the seed list as it was.
   */
  lemma JuiceScenario()
    ensures Add(Seed(), Product(0, "Juice", "Beverage", 15, 8))
      == Seed() + [Product(3, "Juice", "Beverage", 15, 8)]
    ensures Sell(Seed() + [Product(3, "Juice", "Beverage", 15, 8)], 3, 8)
      == Seed() + [Product(3, "Juice", "Beverage", 15, 7)]
    ensures SellDown(Seed() + [Product(3, "Juice", "Beverage", 15, 8)], 3, 8) == Seed()
  {
    var juice := Product(3, "Juice", "Beverage", 15, 8);
    var added := Seed() + [juice];
    assert MaxId(Seed()) == 2;
    assert DistinctIds(added);
    UpdateAt(added, 3, QuantityPatch(7), 0);
    UpdateAt(added, 3, QuantityPatch(7), 1);
    UpdateAt(added, 3, QuantityPatch(7), 2);
    SellDownRemoves(added, 3, 8);
    DeleteUnique(added, 3, 2);
    assert added[..2] == Seed();
  }
}
