/**
 * The handlers `getProductById`, `createProduct`, `updateProduct`, `patchProduct`
 * and `deleteProduct` as functions from the store array (and the request) to the
 * response and the store array afterwards. `ProductStore.Store` runs them on its
 * own array; the lemmas here relate one request to the next.
 */
module Handlers {
  import opened Wrappers
  import opened JsParse
  import opened JsText
  import opened Products

  const InvalidIdMsg := "Invalid product ID"
  const NotFoundMsg := "Product not found"
  const InvalidSortFieldMsg := "Invalid sort field"
  const InvalidSortOrderMsg := "Invalid sort order"
  const RequiredMsg := "Name, category, and price are required"
  const PriceMsg := "Price must be a positive number"
  const DeletedMsg := "Product deleted"

  /** The JSON bodies of the responses: a list, one record, or the deletion notice. */
  datatype Payload = Many(items: seq<Product>) | One(product: Product) | Removed(message: string, product: Product)

  /** `res.status(status).json(payload)`, or `res.status(status).json({ error: message })`. */
  datatype Response = Ok(status: int, payload: Payload) | Err(status: int, message: string)

  /** A JSON value of a request body, as far as `typeof` tells them apart. */
  datatype JsonValue = Null | Boolean(b: bool) | Number(x: real) | Text(s: string) | Compound

  /** The body of `POST /products`; an absent field is `None`. */
  datatype Draft = Draft(name: Option<string>, category: Option<string>, price: Option<JsonValue>, inStock: Option<bool>)

  /** The body of `PUT` and `PATCH /products/:id`; an absent field is `None`. */
  datatype Changes = Changes(name: Option<string>, category: Option<string>, price: Option<real>, inStock: Option<bool>)

  const NoChanges := Changes(None, None, None, None)

  /** What a handler answers, and the store array once it has run. */
  datatype Step = Step(response: Response, after: seq<Product>)

  /** `!name || !category || price === undefined` is false. */
  predicate DraftComplete(b: Draft) {
    Truthy(b.name) && Truthy(b.category) && b.price.Some?
  }

  /** `typeof price !== 'number' || price < 0` is false. */
  predicate PriceAccepted(v: JsonValue) {
    v.Number? && v.x >= 0.0
  }

  predicate ChangesComplete(c: Changes) {
    Truthy(c.name) && Truthy(c.category) && c.price.Some?
  }

  /** `parseInt` of the path id gives `NaN`. */
  predicate Unparsable(raw: string) {
    ParseInt(raw).None?
  }

  /** The path id parses, but no record holds it. */
  predicate Missing(s: seq<Product>, raw: string) {
    ParseInt(raw).Some? && !HasId(s, Finite(ParseInt(raw).value))
  }

  /** The path id parses and `k` is the first position holding it. */
  ghost predicate Located(s: seq<Product>, raw: string, k: int) {
    ParseInt(raw).Some? && FirstWithId(s, k, Finite(ParseInt(raw).value))
  }

  /** Every path id is unparsable, missing, or located at the position `findIndex` gives. */
  lemma LocatedWhenPresent(s: seq<Product>, raw: string)
    requires !Unparsable(raw) && !Missing(s, raw)
    ensures FindIndex(s, Finite(ParseInt(raw).value)).Some?
    ensures Located(s, raw, FindIndex(s, Finite(ParseInt(raw).value)).value)
  {
  }

  /** `{ ...p, ...c }` and `Object.assign(p, c)`: the fields the body carries
      replace those of `p`; the others, and the id, stay. */
  function Overlay(p: Product, c: Changes): (r: Product)
    ensures r.id == p.id
    ensures c.name.Some? ==> r.name == c.name.value
    ensures c.name.None? ==> r.name == p.name
    ensures c.category.Some? ==> r.category == c.category.value
    ensures c.category.None? ==> r.category == p.category
    ensures c.price.Some? ==> r.price == c.price.value
    ensures c.price.None? ==> r.price == p.price
    ensures c.inStock.Some? ==> r.inStock == c.inStock.value
    ensures c.inStock.None? ==> r.inStock == p.inStock
  {
    Product(p.id, c.name.GetOr(p.name), c.category.GetOr(p.category), c.price.GetOr(p.price), c.inStock.GetOr(p.inStock))
  }

  /** `t` is `s` with position `k` replaced by `p`. */
  ghost predicate ReplacedAt(s: seq<Product>, t: seq<Product>, k: int, p: Product) {
    0 <= k < |s| && |t| == |s| && t[k] == p && forall j :: 0 <= j < |s| && j != k ==> t[j] == s[j]
  }

  /** `t` is `s` with position `k` cut out, the rest keeping their order. */
  ghost predicate RemovedAt(s: seq<Product>, t: seq<Product>, k: int) {
    0 <= k < |s| && |t| == |s| - 1 &&
    (forall j :: 0 <= j < k ==> t[j] == s[j]) &&
    (forall j :: k <= j < |t| ==> t[j] == s[j + 1])
  }

  /** `splice(k, 1)` cuts out exactly position `k`. */
  lemma SpliceRemoves(s: seq<Product>, k: nat)
    requires k < |s|
    ensures RemovedAt(s, s[..k] + s[k + 1..], k)
  {
  }

  /** `getProductById`. */
  function GetById(s: seq<Product>, raw: string): (r: Response)
    ensures Unparsable(raw) ==> r == Err(400, InvalidIdMsg)
    ensures Missing(s, raw) ==> r == Err(404, NotFoundMsg)
    ensures forall k :: Located(s, raw, k) ==> r == Ok(200, One(s[k]))
    ensures r.Ok? ==> r.payload.One? && r.payload.product in s && r.payload.product.id == Finite(ParseInt(raw).value)
  {
    match ParseInt(raw)
    case None => Err(400, InvalidIdMsg)
    case Some(n) =>
      match FindIndex(s, Finite(n))
      case None => Err(404, NotFoundMsg)
      case Some(k) =>
        FindIndexUnique(s, k, Finite(n));
        Ok(200, One(s[k]))
  }

  /** No other position than the one `FindIndex` gives is the first holding an id. */
  lemma FindIndexUnique(s: seq<Product>, k: nat, id: ProductId)
    requires FindIndex(s, id) == Some(k)
    ensures forall k' :: FirstWithId(s, k', id) ==> k' == k
  {
    forall k' | FirstWithId(s, k', id) ensures k' == k {
      FindIndexFinds(s, k', id);
    }
  }

  /** `createProduct`. The new record gets the next id and is appended; `inStock`
      is `req.body.inStock || true`, which is `true` whatever the body says. */
  function Create(s: seq<Product>, body: Draft): (o: Step)
    ensures !DraftComplete(body) ==> o == Step(Err(400, RequiredMsg), s)
    ensures DraftComplete(body) && !PriceAccepted(body.price.value) ==> o == Step(Err(400, PriceMsg), s)
    ensures o.response.Ok? <==> DraftComplete(body) && PriceAccepted(body.price.value)
    ensures o.response.Ok? ==>
      |o.after| == |s| + 1 && o.after[..|s|] == s && o.response == Ok(201, One(o.after[|s|]))
    ensures o.response.Ok? ==>
      var p := o.after[|s|];
      p.name == body.name.value && p.category == body.category.value &&
      p.price == body.price.value.x && p.inStock &&
      (forall i :: 0 <= i < |s| ==> s[i].id == NegInfinity || IdLess(s[i].id, p.id)) &&
      (p.id.Finite? <==> exists i :: 0 <= i < |s| && s[i].id.Finite?) &&
      (p.id.Finite? ==> exists i :: 0 <= i < |s| && s[i].id == Finite(p.id.n - 1))
  {
    if !DraftComplete(body) then Step(Err(400, RequiredMsg), s)
    else if !PriceAccepted(body.price.value) then Step(Err(400, PriceMsg), s)
    else
      NextIdAbove(s);
      var p := Product(NextId(s), body.name.value, body.category.value, body.price.value.x, true);
      assert (s + [p])[..|s|] == s;
      Step(Ok(201, One(p)), s + [p])
  }

  /** `updateProduct`: a missing record is reported before a body that lacks a
      required field. */
  function Update(s: seq<Product>, raw: string, body: Changes): (o: Step)
    ensures Unparsable(raw) ==> o == Step(Err(400, InvalidIdMsg), s)
    ensures Missing(s, raw) ==> o == Step(Err(404, NotFoundMsg), s)
    ensures forall k :: Located(s, raw, k) && !ChangesComplete(body) ==> o == Step(Err(400, RequiredMsg), s)
    ensures forall k :: Located(s, raw, k) && ChangesComplete(body) ==>
      ReplacedAt(s, o.after, k, Overlay(s[k], body)) && o.response == Ok(200, One(o.after[k]))
  {
    match ParseInt(raw)
    case None => Step(Err(400, InvalidIdMsg), s)
    case Some(n) =>
      match FindIndex(s, Finite(n))
      case None => Step(Err(404, NotFoundMsg), s)
      case Some(k) =>
        FindIndexUnique(s, k, Finite(n));
        if !ChangesComplete(body) then Step(Err(400, RequiredMsg), s)
        else
          var t := s[k := Overlay(s[k], body)];
          Step(Ok(200, One(t[k])), t)
  }

  /** `patchProduct`: like `updateProduct` but with no required field. */
  function Patch(s: seq<Product>, raw: string, body: Changes): (o: Step)
    ensures Unparsable(raw) ==> o == Step(Err(400, InvalidIdMsg), s)
    ensures Missing(s, raw) ==> o == Step(Err(404, NotFoundMsg), s)
    ensures forall k :: Located(s, raw, k) ==>
      ReplacedAt(s, o.after, k, Overlay(s[k], body)) && o.response == Ok(200, One(o.after[k]))
  {
    match ParseInt(raw)
    case None => Step(Err(400, InvalidIdMsg), s)
    case Some(n) =>
      match FindIndex(s, Finite(n))
      case None => Step(Err(404, NotFoundMsg), s)
      case Some(k) =>
        FindIndexUnique(s, k, Finite(n));
        var t := s[k := Overlay(s[k], body)];
        Step(Ok(200, One(t[k])), t)
  }

  /** `deleteProduct`: `splice(k, 1)` and the removed record in the answer. */
  function Delete(s: seq<Product>, raw: string): (o: Step)
    ensures Unparsable(raw) ==> o == Step(Err(400, InvalidIdMsg), s)
    ensures Missing(s, raw) ==> o == Step(Err(404, NotFoundMsg), s)
    ensures forall k :: Located(s, raw, k) ==>
      RemovedAt(s, o.after, k) && o.response == Ok(200, Removed(DeletedMsg, s[k]))
  {
    match ParseInt(raw)
    case None => Step(Err(400, InvalidIdMsg), s)
    case Some(n) =>
      match FindIndex(s, Finite(n))
      case None => Step(Err(404, NotFoundMsg), s)
      case Some(k) =>
        FindIndexUnique(s, k, Finite(n));
        SpliceRemoves(s, k);
        Step(Ok(200, Removed(DeletedMsg, s[k])), s[..k] + s[k + 1..])
  }

  /** `GET /products/:id` right after a successful `POST` finds the new record,
      whenever the store held an integer id to count from. */
  lemma CreateThenGet(s: seq<Product>, body: Draft)
    requires Create(s, body).response.Ok?
    requires exists i :: 0 <= i < |s| && s[i].id.Finite?
    ensures var o := Create(s, body);
      o.after[|s|].id.Finite? &&
      GetById(o.after, IntToString(o.after[|s|].id.n)) == Ok(200, One(o.after[|s|]))
  {
    var o := Create(s, body);
    var p := o.after[|s|];
    var raw := IntToString(p.id.n);
    ParseIntRoundTrip(p.id.n);
    forall j | 0 <= j < |s| ensures o.after[j].id != p.id {
      assert o.after[j] == o.after[..|s|][j] == s[j];
    }
    assert Located(o.after, raw, |s|);
  }

  /** On an empty store (or one whose only ids are `-Infinity`) the created record
      gets the id `-Infinity`, which no path id can ever reach. */
  lemma CreateWithoutIntegerIds(s: seq<Product>, body: Draft, raw: string)
    requires Create(s, body).response.Ok?
    requires forall i :: 0 <= i < |s| ==> s[i].id == NegInfinity
    ensures Create(s, body).after[|s|].id == NegInfinity
    ensures GetById(Create(s, body).after, raw) != Ok(200, One(Create(s, body).after[|s|]))
  {
    var o := Create(s, body);
    assert !(exists i :: 0 <= i < |s| && s[i].id.Finite?);
  }

  /** `inStock: false` in the body is not honoured: the answer and the store are
      the same as without it. */
  lemma CreateIgnoresInStock(s: seq<Product>, body: Draft, v: Option<bool>)
    ensures Create(s, body.(inStock := v)) == Create(s, body)
  {
  }

  /** With unique ids, `GET` after a successful `DELETE` of the same id is a 404. */
  lemma DeleteThenGetNotFound(s: seq<Product>, raw: string)
    requires UniqueIds(s)
    requires Delete(s, raw).response.Ok?
    ensures GetById(Delete(s, raw).after, raw) == Err(404, NotFoundMsg)
  {
    LocatedWhenPresent(s, raw);
    var k := FindIndex(s, Finite(ParseInt(raw).value)).value;
    var t := Delete(s, raw).after;
    assert RemovedAt(s, t, k);
    forall j | 0 <= j < |t| ensures t[j].id != s[k].id {
      if j < k {
        assert t[j] == s[j];
      } else {
        assert t[j] == s[j + 1];
      }
    }
    assert Missing(t, raw);
  }

  /** `GET` after a successful `PATCH` sees the patched record: it keeps its id
      and its position, so it is still the first holding that id. */
  lemma PatchThenGet(s: seq<Product>, raw: string, body: Changes)
    requires Patch(s, raw, body).response.Ok?
    ensures var o := Patch(s, raw, body);
      GetById(o.after, raw) == o.response
  {
    LocatedWhenPresent(s, raw);
    var k := FindIndex(s, Finite(ParseInt(raw).value)).value;
    var t := Patch(s, raw, body).after;
    assert ReplacedAt(s, t, k, Overlay(s[k], body));
    forall j | 0 <= j < k ensures t[j].id != t[k].id {
      assert t[j] == s[j];
    }
    assert Located(t, raw, k);
  }

  /** `PATCH` with an empty body answers like `GET` and changes nothing. */
  lemma PatchWithoutChanges(s: seq<Product>, raw: string)
    ensures Patch(s, raw, NoChanges) == Step(GetById(s, raw), s)
  {
    if !Unparsable(raw) && !Missing(s, raw) {
      LocatedWhenPresent(s, raw);
      var k := FindIndex(s, Finite(ParseInt(raw).value)).value;
      assert Overlay(s[k], NoChanges) == s[k];
      assert s[k := s[k]] == s;
    }
  }

  /** Once the body carries every required field, `PUT` and `PATCH` agree. */
  lemma UpdateIsCompletePatch(s: seq<Product>, raw: string, body: Changes)
    requires ChangesComplete(body)
    ensures Update(s, raw, body) == Patch(s, raw, body)
  {
  }

  /** Unique ids stay unique across a create. */
  lemma CreateKeepsIdsUnique(s: seq<Product>, body: Draft)
    requires UniqueIds(s)
    ensures UniqueIds(Create(s, body).after)
  {
    var o := Create(s, body);
    if o.response.Ok? {
      var t := o.after;
      forall i, j | 0 <= i < |t| && 0 <= j < |t| && i != j && t[i].id.Finite?
        ensures t[i].id != t[j].id
      {
        if i < |s| && j < |s| {
          assert t[i] == t[..|s|][i] == s[i] && t[j] == t[..|s|][j] == s[j];
        } else if i < |s| {
          assert t[i] == t[..|s|][i] == s[i];
        } else {
          assert t[j] == t[..|s|][j] == s[j];
        }
      }
    }
  }

  /** Replacing a record by one with the same id keeps ids unique. */
  lemma ReplacedKeepsIdsUnique(s: seq<Product>, t: seq<Product>, k: int, p: Product)
    requires UniqueIds(s) && ReplacedAt(s, t, k, p) && p.id == s[k].id
    ensures UniqueIds(t)
  {
    forall i, j | 0 <= i < |t| && 0 <= j < |t| && i != j && t[i].id.Finite?
      ensures t[i].id != t[j].id
    {
      assert t[i].id == s[i].id && t[j].id == s[j].id;
    }
  }

  /** Neither `PUT` nor `PATCH` can make two records share an id: the body has no id. */
  lemma UpdateAndPatchKeepIdsUnique(s: seq<Product>, raw: string, body: Changes)
    requires UniqueIds(s)
    ensures UniqueIds(Update(s, raw, body).after)
    ensures UniqueIds(Patch(s, raw, body).after)
  {
    if !Unparsable(raw) && !Missing(s, raw) {
      LocatedWhenPresent(s, raw);
      var k := FindIndex(s, Finite(ParseInt(raw).value)).value;
      ReplacedKeepsIdsUnique(s, Patch(s, raw, body).after, k, Overlay(s[k], body));
      if ChangesComplete(body) {
        ReplacedKeepsIdsUnique(s, Update(s, raw, body).after, k, Overlay(s[k], body));
      }
    }
  }

  lemma DeleteKeepsIdsUnique(s: seq<Product>, raw: string)
    requires UniqueIds(s)
    ensures UniqueIds(Delete(s, raw).after)
  {
    if !Unparsable(raw) && !Missing(s, raw) {
      LocatedWhenPresent(s, raw);
      var k := FindIndex(s, Finite(ParseInt(raw).value)).value;
      var t := Delete(s, raw).after;
      assert RemovedAt(s, t, k);
      forall i, j | 0 <= i < |t| && 0 <= j < |t| && i != j && t[i].id.Finite?
        ensures t[i].id != t[j].id
      {
        var i' := if i < k then i else i + 1;
        var j' := if j < k then j else j + 1;
        assert t[i] == s[i'] && t[j] == s[j'];
      }
    }
  }

  /** A store holding record 1 ("A"); a `POST` of "B" appends record 2 and answers 201 with it. */
  lemma CreateExample()
    ensures var a := Product(Finite(1), "A", "Tools", 10.0, true);
      var b := Product(Finite(2), "B", "Tools", 5.0, true);
      Create([a], Draft(Some("B"), Some("Tools"), Some(Number(5.0)), None)) == Step(Ok(201, One(b)), [a, b])
  {
    var a := Product(Finite(1), "A", "Tools", 10.0, true);
    assert MaxId([a]) == Finite(1);
  }

  /** Deleting the record with the largest id and then creating one hands the
      deleted id out again: the next id is computed from the records left. */
  lemma DeleteThenCreateReusesId(raw: string)
    requires ParseInt(raw) == Some(2)
    ensures var a := Product(Finite(1), "A", "Tools", 10.0, true);
      var b := Product(Finite(2), "B", "Tools", 5.0, true);
      var c := Product(Finite(2), "C", "Tools", 1.0, true);
      var d := Delete([a, b], raw);
      d == Step(Ok(200, Removed(DeletedMsg, b)), [a]) &&
      Create(d.after, Draft(Some("C"), Some("Tools"), Some(Number(1.0)), None)) == Step(Ok(201, One(c)), [a, c])
  {
    var a := Product(Finite(1), "A", "Tools", 10.0, true);
    var b := Product(Finite(2), "B", "Tools", 5.0, true);
    assert Located([a, b], raw, 1);
    var d := Delete([a, b], raw);
    assert RemovedAt([a, b], d.after, 1);
    assert d.after == [a];
    assert MaxId([a]) == Finite(1);
  }

  /** A successful delete cuts out some position `k` and answers with its record. */
  lemma DeletedPosition(s: seq<Product>, raw: string) returns (k: int)
    requires Delete(s, raw).response.Ok?
    ensures RemovedAt(s, Delete(s, raw).after, k)
    ensures Delete(s, raw).response.payload.product == s[k]
  {
    LocatedWhenPresent(s, raw);
    k := FindIndex(s, Finite(ParseInt(raw).value)).value;
  }

  /** Cutting out the record with the largest id leaves only integer ids below
      it, and keeps every other id. */
  lemma RemovedLargest(s: seq<Product>, t: seq<Product>, k: int)
    requires UniqueIds(s) && RemovedAt(s, t, k) && s[k].id.Finite?
    requires forall i :: 0 <= i < |s| ==> !IdLess(s[k].id, s[i].id)
    ensures forall j :: 0 <= j < |t| && t[j].id.Finite? ==> t[j].id.n < s[k].id.n
    ensures HasId(s, Finite(s[k].id.n - 1)) <==> HasId(t, Finite(s[k].id.n - 1))
  {
    var m := s[k].id.n;
    forall j | 0 <= j < |t| && t[j].id.Finite? ensures t[j].id.n < m {
      var j' := if j < k then j else j + 1;
      assert t[j] == s[j'] && j' != k;
      assert !IdLess(s[k].id, s[j'].id);
    }
    if HasId(s, Finite(m - 1)) {
      var i :| 0 <= i < |s| && s[i].id == Finite(m - 1);
      var i' := if i < k then i else i - 1;
      assert t[i'] == s[i];
    }
    if HasId(t, Finite(m - 1)) {
      var j :| 0 <= j < |t| && t[j].id == Finite(m - 1);
      var j' := if j < k then j else j + 1;
      assert t[j] == s[j'];
    }
  }

  /** In a store whose integer ids are all below `m`, a create gets `m` exactly
      when `m - 1` is an id of the store. */
  lemma CreateBelow(t: seq<Product>, m: int, body: Draft)
    requires forall j :: 0 <= j < |t| && t[j].id.Finite? ==> t[j].id.n < m
    requires Create(t, body).response.Ok?
    ensures Create(t, body).after[|t|].id == Finite(m) <==> HasId(t, Finite(m - 1))
  {
    var q := Create(t, body).after[|t|];
    if HasId(t, Finite(m - 1)) {
      var i :| 0 <= i < |t| && t[i].id == Finite(m - 1);
      assert IdLess(t[i].id, q.id);
      var j :| 0 <= j < |t| && t[j].id == Finite(q.id.n - 1);
    }
  }

  /** Deleting the record with the largest id and then creating one hands that
      id out again exactly when the id one below it is still held: the next id
      is computed from the records left. */
  lemma DeleteLargestThenCreate(s: seq<Product>, raw: string, body: Draft)
    requires UniqueIds(s)
    requires Delete(s, raw).response.Ok?
    requires var p := Delete(s, raw).response.payload.product;
      p.id.Finite? && forall i :: 0 <= i < |s| ==> !IdLess(p.id, s[i].id)
    requires Create(Delete(s, raw).after, body).response.Ok?
    ensures var p, t := Delete(s, raw).response.payload.product, Delete(s, raw).after;
      Create(t, body).after[|t|].id == p.id <==> HasId(s, Finite(p.id.n - 1))
  {
    var k := DeletedPosition(s, raw);
    RemovedLargest(s, Delete(s, raw).after, k);
    CreateBelow(Delete(s, raw).after, s[k].id.n, body);
  }
}
