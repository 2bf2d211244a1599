/**
 * The query of `GET /products` and the pieces `getAllProducts` chains together:
 * the filters on `id`, `category` and `price`, and the checks on `sortBy` and
 * `sortOrder`.
 */
module Listing {
  import opened Wrappers
  import opened JsParse
  import opened JsText
  import opened Products

  /** The `price` query parameter once `parseFloat` has read it: absent or empty,
      not a number, or the maximum price to keep. */
  datatype PriceArg = NoPrice | NotANumber | MaxPrice(limit: real)

  /** The query parameters `getAllProducts` reads; an absent parameter is `None`. */
  datatype Query = Query(
    id: Option<string>,
    category: Option<string>,
    price: PriceArg,
    sortBy: Option<string>,
    sortOrder: Option<string>)

  /** `a` is `b` with some elements left out, the rest in their order. */
  ghost predicate SubsequenceOf(a: seq<Product>, b: seq<Product>) {
    a == [] ||
    (b != [] && ((a[0] == b[0] && SubsequenceOf(a[1..], b[1..])) || SubsequenceOf(a, b[1..])))
  }

  lemma {:induction false} SubsequenceTransitive(a: seq<Product>, b: seq<Product>, c: seq<Product>)
    requires SubsequenceOf(a, b) && SubsequenceOf(b, c)
    ensures SubsequenceOf(a, c)
    decreases |c|
  {
    if a != [] {
      if b[0] == c[0] && SubsequenceOf(b[1..], c[1..]) {
        if a[0] == b[0] && SubsequenceOf(a[1..], b[1..]) {
          SubsequenceTransitive(a[1..], b[1..], c[1..]);
        } else {
          SubsequenceTransitive(a, b[1..], c[1..]);
        }
      } else {
        SubsequenceTransitive(a, b, c[1..]);
      }
    }
  }

  lemma {:induction false} SubsequenceReflexive(a: seq<Product>)
    ensures SubsequenceOf(a, a)
  {
    if a != [] {
      SubsequenceReflexive(a[1..]);
    }
  }

  /** `s.filter(keep)`: the records that `keep` accepts, each as often as in `s`,
      in the order of `s`. */
  function Filter(s: seq<Product>, keep: Product -> bool): (r: seq<Product>)
    ensures SubsequenceOf(r, s)
    ensures forall x :: multiset(r)[x] == if keep(x) then multiset(s)[x] else 0
  {
    if s == [] then []
    else
      var rest := Filter(s[1..], keep);
      assert s == [s[0]] + s[1..];
      if keep(s[0]) then [s[0]] + rest else rest
  }

  /** Each record occurs in `s` as often as in `s0` when `sel` accepts it, and
      not at all otherwise. */
  ghost predicate Narrowed(s: seq<Product>, s0: seq<Product>, sel: Product -> bool) {
    forall x :: multiset(s)[x] == if sel(x) then multiset(s0)[x] else 0
  }

  /** Filtering a narrowed sequence narrows it by one more condition. */
  lemma FilterNarrows(s0: seq<Product>, s: seq<Product>, keep: Product -> bool,
                      before: Product -> bool, after: Product -> bool)
    requires Narrowed(s, s0, before)
    requires forall x :: after(x) <==> before(x) && keep(x)
    ensures Narrowed(Filter(s, keep), s0, after)
  {
  }

  /** A filter that is skipped narrows by a condition that holds anyway. */
  lemma NarrowedSkip(s0: seq<Product>, s: seq<Product>, before: Product -> bool, after: Product -> bool)
    requires Narrowed(s, s0, before)
    requires forall x :: after(x) <==> before(x)
    ensures Narrowed(s, s0, after)
  {
  }

  /** Reordering keeps the counts. */
  lemma NarrowedPermuted(s0: seq<Product>, s: seq<Product>, t: seq<Product>, sel: Product -> bool)
    requires Narrowed(s, s0, sel) && multiset(t) == multiset(s)
    ensures Narrowed(t, s0, sel)
  {
  }

  /** `validFields.includes(sortBy)`. */
  function ParseField(s: string): (r: Option<Field>)
    ensures r.Some? <==> s in {"name", "category", "price", "id"}
    ensures r == Some(Name) <==> s == "name"
    ensures r == Some(Category) <==> s == "category"
    ensures r == Some(Price) <==> s == "price"
    ensures r == Some(Id) <==> s == "id"
  {
    if s == "name" then Some(Name)
    else if s == "category" then Some(Category)
    else if s == "price" then Some(Price)
    else if s == "id" then Some(Id)
    else None
  }

  /** `sortOrder || 'asc'` checked against `['asc', 'desc']`. */
  function SortOrder(v: Option<string>): (r: Option<Order>)
    ensures !Truthy(v) ==> r == Some(Asc)
    ensures Truthy(v) ==> (r == Some(Asc) <==> v.value == "asc") && (r == Some(Desc) <==> v.value == "desc")
    ensures Truthy(v) && v.value != "asc" && v.value != "desc" ==> r == None
  {
    var order := if Truthy(v) then v.value else "asc";
    if order == "asc" then Some(Asc)
    else if order == "desc" then Some(Desc)
    else None
  }

  /** The 400 "Invalid product ID" case: an `id` is given but `parseInt` gives `NaN`. */
  predicate IdRejected(q: Query) {
    Truthy(q.id) && ParseInt(q.id.value).None?
  }

  /** The 400 "Invalid sort field" case. */
  predicate SortFieldRejected(q: Query) {
    Truthy(q.sortBy) && ParseField(q.sortBy.value).None?
  }

  /** The 400 "Invalid sort order" case (checked only once `sortBy` is given). */
  predicate SortOrderRejected(q: Query) {
    Truthy(q.sortBy) && SortOrder(q.sortOrder).None?
  }

  /** Does the record pass every filter of the query: the exact id, the category
      containing the query case-insensitively, the price at most the limit? */
  predicate Selected(q: Query, p: Product) {
    IdSelected(q, p) && CategorySelected(q, p) && PriceSelected(q, p)
  }

  predicate IdSelected(q: Query, p: Product) {
    Truthy(q.id) ==> p.id.Finite? && ParseInt(q.id.value) == Some(p.id.n)
  }

  predicate CategorySelected(q: Query, p: Product) {
    Truthy(q.category) ==> Includes(ToLower(p.category), ToLower(q.category.value))
  }

  predicate PriceSelected(q: Query, p: Product) {
    q.price.MaxPrice? ==> p.price <= q.price.limit
  }
}
