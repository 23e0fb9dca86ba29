/**
  The inventory store as the application holds it: one mutable product list.
  Every operation computes the new list with the matching function of
  `Inventory` and replaces the list with it in one step.
 */
module InventoryStore {
  import opened Inventory

  class Store {
    /** The current product list. */
    var products: seq<Product>

    /** A store holding the seed list. */
    constructor ()
      ensures products == Seed()
      ensures DistinctIds(products) && InStock(products)
    {
      products := Seed();
    }

    /** Appends `product` with a fresh id; distinct ids stay distinct. */
    method AddProduct(product: Product)
      modifies this
      ensures products == Add(old(products), product)
      ensures |products| == |old(products)| + 1 && products[..|old(products)|] == old(products)
      ensures DistinctIds(old(products)) ==> DistinctIds(products)
    {
      if DistinctIds(products) {
        AddPreservesDistinct(products, product);
      }
      products := Add(products, product);
    }

    /** Merges `patch` into every record with id `id`; nothing else changes. */
    method UpdateProduct(id: int, patch: Patch)
      modifies this
      ensures products == Update(old(products), id, patch)
      ensures !HasId(old(products), id) ==> products == old(products)
      ensures patch.id.None? ==> Delete(products, id) == Delete(old(products), id)
      ensures patch.id.None? && DistinctIds(old(products)) ==> DistinctIds(products)
    {
      if !HasId(products, id) {
        UpdateMissing(products, id, patch);
      }
      if patch.id.None? {
        UpdateOnlyTouchesMatching(products, id, patch);
        UpdateKeepsIds(products, id, patch);
      }
      products := Update(products, id, patch);
    }

    /** Removes every record with id `id`; the others keep their order. */
    method DeleteProduct(id: int)
      modifies this
      ensures products == Delete(old(products), id)
      ensures !HasId(products, id)
      ensures !HasId(old(products), id) ==> products == old(products)
      ensures DistinctIds(old(products)) ==> DistinctIds(products)
      ensures InStock(old(products)) ==> InStock(products)
    {
      DeleteRemovesId(products, id);
      if InStock(products) {
        DeletePreservesInStock(products, id);
      }
      if !HasId(products, id) {
        DeleteMissing(products, id);
      }
      if DistinctIds(products) {
        DeletePreservesDistinct(products, id);
      }
      products := Delete(products, id);
    }

    /**
      The sell handler: when the quantity the caller passed is above one,
      updates the record's quantity to the passed quantity minus one, and
      deletes the record otherwise.
     */
    method SellProduct(id: int, currentQty: int)
      modifies this
      ensures products == Sell(old(products), id, currentQty)
      ensures currentQty > 1 ==> products == Update(old(products), id, QuantityPatch(currentQty - 1))
      ensures currentQty <= 1 ==> products == Delete(old(products), id)
      ensures Delete(products, id) == Delete(old(products), id)
      ensures DistinctIds(old(products)) ==> DistinctIds(products)
      ensures InStock(old(products)) ==> InStock(products)
    {
      SellOnlyTouchesMatching(products, id, currentQty);
      SellPreservesInvariants(products, id, currentQty);
      var qty := currentQty;
      if qty > 1 {
        UpdateProduct(id, QuantityPatch(qty - 1));
      } else {
        DeleteProduct(id);
      }
    }
  }
}
