/**
 * The product record held by the store, its id, and the searches the handlers
 * run over the store array: `find`/`findIndex` by id and `Math.max` of the ids.
 */
module Products {
  import opened Wrappers
  import opened JsText

  /** A product id is a JavaScript number. Ids are integers, except that creating a
      product in an empty store gives `Math.max() + 1`, which is `-Infinity`. */
  datatype ProductId = NegInfinity | Finite(n: int)

  datatype Product = Product(id: ProductId, name: string, category: string, price: real, inStock: bool)

  /** `a < b` on ids: `-Infinity` is below every integer and not below itself. */
  predicate IdLess(a: ProductId, b: ProductId) {
    match (a, b)
    case (NegInfinity, Finite(_)) => true
    case (Finite(x), Finite(y)) => x < y
    case _ => false
  }

  /** No two records share an integer id. */
  ghost predicate UniqueIds(s: seq<Product>) {
    forall i, j :: 0 <= i < |s| && 0 <= j < |s| && i != j && s[i].id.Finite? ==> s[i].id != s[j].id
  }

  predicate HasId(s: seq<Product>, id: ProductId) {
    exists i | 0 <= i < |s| :: s[i].id == id
  }

  /** `k` is the first position of the store that holds `id`. */
  ghost predicate FirstWithId(s: seq<Product>, k: int, id: ProductId) {
    0 <= k < |s| && s[k].id == id && forall j :: 0 <= j < k ==> s[j].id != id
  }

  /** `s.findIndex(p => p.id === id)`, with `None` for -1; `s.find` returns the
      record at the same position. */
  function FindIndex(s: seq<Product>, id: ProductId): (r: Option<nat>)
    ensures r.Some? ==> FirstWithId(s, r.value, id)
    ensures r.None? <==> !HasId(s, id)
  {
    if s == [] then None
    else if s[0].id == id then Some(0)
    else match FindIndex(s[1..], id)
      case None => None
      case Some(k) => Some(k + 1)
  }

  /** The first position holding an id is unique, so it is what `FindIndex` finds. */
  lemma FindIndexFinds(s: seq<Product>, k: int, id: ProductId)
    requires FirstWithId(s, k, id)
    ensures FindIndex(s, id) == Some(k)
  {
    assert HasId(s, id);
  }

  /** `Math.max(...s.map(p => p.id))`: `-Infinity` for an empty store. */
  function MaxId(s: seq<Product>): (m: ProductId)
    ensures forall i :: 0 <= i < |s| ==> !IdLess(m, s[i].id)
    ensures m.Finite? ==> exists i :: 0 <= i < |s| && s[i].id == m
  {
    if s == [] then NegInfinity
    else
      var rest := MaxId(s[1..]);
      if IdLess(s[0].id, rest) then rest else s[0].id
  }

  /** The id `createProduct` assigns: the largest id plus 1, where `-Infinity + 1`
      is `-Infinity`. */
  function NextId(s: seq<Product>): ProductId {
    match MaxId(s)
    case NegInfinity => NegInfinity
    case Finite(n) => Finite(n + 1)
  }

  /** The new id is an integer exactly when the store holds an integer id. It is
      then strictly above every id in the store, and one below it is an id of the
      store: it is exactly the largest id plus 1. */
  lemma NextIdAbove(s: seq<Product>)
    ensures NextId(s).Finite? <==> exists i :: 0 <= i < |s| && s[i].id.Finite?
    ensures forall i :: 0 <= i < |s| ==> s[i].id == NegInfinity || IdLess(s[i].id, NextId(s))
    ensures NextId(s).Finite? ==> exists i :: 0 <= i < |s| && s[i].id == Finite(NextId(s).n - 1)
  {
    var m := MaxId(s);
    if m.NegInfinity? {
      forall i | 0 <= i < |s| ensures s[i].id.NegInfinity? {
        assert !IdLess(m, s[i].id);
      }
    } else {
      forall i | 0 <= i < |s| ensures s[i].id == NegInfinity || IdLess(s[i].id, NextId(s)) {
        assert !IdLess(m, s[i].id);
      }
    }
  }

  /** The fields `sortBy` may name, and the two orders of `sortOrder`. */
  datatype Field = Name | Category | Price | Id
  datatype Order = Asc | Desc

  /** `p[f] < q[f]` in JavaScript, on the field `f`. */
  predicate FieldLess(f: Field, p: Product, q: Product) {
    match f
    case Name => StrLess(p.name, q.name)
    case Category => StrLess(p.category, q.category)
    case Price => p.price < q.price
    case Id => IdLess(p.id, q.id)
  }

  lemma FieldLessAsymmetric(f: Field, p: Product, q: Product)
    requires FieldLess(f, p, q)
    ensures !FieldLess(f, q, p)
  {
    match f
    case Name => StrLessAsymmetric(p.name, q.name);
    case Category => StrLessAsymmetric(p.category, q.category);
    case Price =>
    case Id =>
  }

  /** If `p` is below `r` on a field, any `q` lies above `p` or below `r`. */
  lemma FieldLessSplits(f: Field, p: Product, q: Product, r: Product)
    requires FieldLess(f, p, r)
    ensures FieldLess(f, p, q) || FieldLess(f, q, r)
  {
    match f
    case Name => StrLessSplits(p.name, q.name, r.name);
    case Category => StrLessSplits(p.category, q.category, r.category);
    case Price =>
    case Id =>
  }

  lemma StrLessSplits(a: string, b: string, c: string)
    requires StrLess(a, c)
    ensures StrLess(a, b) || StrLess(b, c)
  {
    if a != b && b != c && !StrLess(a, b) {
      StrLessTotal(a, b);
      StrLessTransitive(b, a, c);
    }
  }
}
