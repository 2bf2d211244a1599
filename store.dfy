/**
 * The module-level `products` array of the product controller and its six
 * handlers, as an object: each mutating handler changes the array field in place
 * (`push`, slot assignment, `Object.assign`, `splice`).
 */
module ProductStore {
  import opened Wrappers
  import opened JsParse
  import opened JsText
  import opened Products
  import opened Sorting
  import opened Listing
  import opened Handlers

  class Store {
    /** The shared array every handler reads and mutates, in insertion order. */
    var products: seq<Product>

    /** No two records share an integer id. */
    ghost predicate Valid()
      reads this
    {
      UniqueIds(products)
    }

    /** The store starts from the records the data module exports. */
    constructor (initial: seq<Product>)
      ensures products == initial
      ensures Valid() <==> UniqueIds(initial)
    {
      products := initial;
    }

    /** `getAllProducts`: filters a copy of the array by id, then category, then
        price, and sorts it when `sortBy` is given. The store is only read. */
    method GetAll(q: Query) returns (r: Response)
      ensures IdRejected(q) ==> r == Err(400, InvalidIdMsg)
      ensures !IdRejected(q) && SortFieldRejected(q) ==> r == Err(400, InvalidSortFieldMsg)
      ensures !IdRejected(q) && !SortFieldRejected(q) && SortOrderRejected(q) ==> r == Err(400, InvalidSortOrderMsg)
      ensures r.Ok? <==> !IdRejected(q) && !SortFieldRejected(q) && !SortOrderRejected(q)
      ensures r.Ok? ==> r.status == 200 && r.payload.Many?
      ensures r.Ok? ==> forall x :: multiset(r.payload.items)[x] == if Selected(q, x) then multiset(products)[x] else 0
      ensures r.Ok? && !Truthy(q.sortBy) ==> SubsequenceOf(r.payload.items, products)
      ensures r.Ok? && Truthy(q.sortBy) ==>
        SortedBy(r.payload.items, SortOrder(q.sortOrder).value, ParseField(q.sortBy.value).value)
    {
      var filtered := products;
      SubsequenceReflexive(products);
      ghost var all := (p: Product) => true;
      ghost var byId := (p: Product) => IdSelected(q, p);
      ghost var byCategory := (p: Product) => IdSelected(q, p) && CategorySelected(q, p);
      ghost var byAll := (p: Product) => Selected(q, p);
      assert Narrowed(filtered, products, all);
      if Truthy(q.id) {
        var id := ParseInt(q.id.value);
        if id.None? {
          return Err(400, InvalidIdMsg);
        }
        var n := id.value;
        var keep := (p: Product) => p.id == Finite(n);
        FilterNarrows(products, filtered, keep, all, byId);
        var next := Filter(filtered, keep);
        SubsequenceTransitive(next, filtered, products);
        filtered := next;
      } else {
        NarrowedSkip(products, filtered, all, byId);
      }
      if Truthy(q.category) {
        var needle := ToLower(q.category.value);
        var keep := (p: Product) => Includes(ToLower(p.category), needle);
        FilterNarrows(products, filtered, keep, byId, byCategory);
        var next := Filter(filtered, keep);
        SubsequenceTransitive(next, filtered, products);
        filtered := next;
      } else {
        NarrowedSkip(products, filtered, byId, byCategory);
      }
      if q.price.MaxPrice? {
        var limit := q.price.limit;
        var keep := (p: Product) => p.price <= limit;
        FilterNarrows(products, filtered, keep, byCategory, byAll);
        var next := Filter(filtered, keep);
        SubsequenceTransitive(next, filtered, products);
        filtered := next;
      } else {
        NarrowedSkip(products, filtered, byCategory, byAll);
      }
      if Truthy(q.sortBy) {
        var field := ParseField(q.sortBy.value);
        if field.None? {
          return Err(400, InvalidSortFieldMsg);
        }
        var order := SortOrder(q.sortOrder);
        if order.None? {
          return Err(400, InvalidSortOrderMsg);
        }
        var sorted := Sort(filtered, order.value, field.value);
        NarrowedPermuted(products, filtered, sorted, byAll);
        filtered := sorted;
      }
      assert Narrowed(filtered, products, byAll);
      r := Ok(200, Many(filtered));
    }

    /** `getProductById`: a lookup that leaves the store as it is. */
    method GetById(raw: string) returns (r: Response)
      ensures r == Handlers.GetById(products, raw)
    {
      var id := ParseInt(raw);
      if id.None? {
        return Err(400, InvalidIdMsg);
      }
      var k := FindIndex(products, Finite(id.value));
      if k.None? {
        return Err(404, NotFoundMsg);
      }
      r := Ok(200, One(products[k.value]));
    }

    /** `createProduct`: validates the body, then pushes the new record. */
    method Create(body: Draft) returns (r: Response)
      modifies this
      ensures r == Handlers.Create(old(products), body).response
      ensures products == Handlers.Create(old(products), body).after
      ensures old(Valid()) ==> Valid()
    {
      if !Truthy(body.name) || !Truthy(body.category) || body.price.None? {
        return Err(400, RequiredMsg);
      }
      var price := body.price.value;
      if !price.Number? || price.x < 0.0 {
        return Err(400, PriceMsg);
      }
      // `req.body.inStock || true` is `true` for either boolean.
      var product := Product(NextId(products), body.name.value, body.category.value, price.x, true);
      if Valid() {
        CreateKeepsIdsUnique(products, body);
      }
      products := products + [product];
      r := Ok(201, One(product));
    }

    /** `updateProduct`: replaces the record at the found position by the old
        record overlaid with the body. */
    method Update(raw: string, body: Changes) returns (r: Response)
      modifies this
      ensures r == Handlers.Update(old(products), raw, body).response
      ensures products == Handlers.Update(old(products), raw, body).after
      ensures old(Valid()) ==> Valid()
    {
      var id := ParseInt(raw);
      if id.None? {
        return Err(400, InvalidIdMsg);
      }
      var k := FindIndex(products, Finite(id.value));
      if k.None? {
        return Err(404, NotFoundMsg);
      }
      if !ChangesComplete(body) {
        return Err(400, RequiredMsg);
      }
      if Valid() {
        UpdateAndPatchKeepIdsUnique(products, raw, body);
      }
      products := products[k.value := Overlay(products[k.value], body)];
      r := Ok(200, One(products[k.value]));
    }

    /** `patchProduct`: `Object.assign` of the body onto the found record. */
    method Patch(raw: string, body: Changes) returns (r: Response)
      modifies this
      ensures r == Handlers.Patch(old(products), raw, body).response
      ensures products == Handlers.Patch(old(products), raw, body).after
      ensures old(Valid()) ==> Valid()
    {
      var id := ParseInt(raw);
      if id.None? {
        return Err(400, InvalidIdMsg);
      }
      var k := FindIndex(products, Finite(id.value));
      if k.None? {
        return Err(404, NotFoundMsg);
      }
      if Valid() {
        UpdateAndPatchKeepIdsUnique(products, raw, body);
      }
      products := products[k.value := Overlay(products[k.value], body)];
      r := Ok(200, One(products[k.value]));
    }

    /** `deleteProduct`: splices the found record out and answers with it. */
    method Delete(raw: string) returns (r: Response)
      modifies this
      ensures r == Handlers.Delete(old(products), raw).response
      ensures products == Handlers.Delete(old(products), raw).after
      ensures old(Valid()) ==> Valid()
    {
      var id := ParseInt(raw);
      if id.None? {
        return Err(400, InvalidIdMsg);
      }
      var k := FindIndex(products, Finite(id.value));
      if k.None? {
        return Err(404, NotFoundMsg);
      }
      if Valid() {
        DeleteKeepsIdsUnique(products, raw);
      }
      var deleted := products[k.value];
      products := products[..k.value] + products[k.value + 1..];
      r := Ok(200, Removed(DeletedMsg, deleted));
    }
  }
}
