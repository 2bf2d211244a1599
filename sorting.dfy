/**
 * `filteredProducts.sort(cmp)` in `getAllProducts`, where `cmp` is the comparator
 * built from `sortBy` and `sortOrder`. The comparator answers 1 or -1 and never 0,
 * so it is not a consistent comparator, and ECMAScript leaves the whole resulting
 * order to the engine. What the merge and TimSort engines deliver, and what this
 * model promises, is a permutation of the input that is ordered on the key, with
 * records of equal keys in an order the model does not fix. The sort below is one
 * such engine.
 */
module Sorting {
  import opened Products

  /** The comparator of `getAllProducts`: for `asc`, `a[f] > b[f] ? 1 : -1`; for
      `desc`, `a[f] < b[f] ? 1 : -1`. A positive answer puts `a` after `b`. */
  function Comparator(order: Order, f: Field, a: Product, b: Product): (c: int)
    ensures c == 1 || c == -1
  {
    match order
    case Asc => if FieldLess(f, b, a) then 1 else -1
    case Desc => if FieldLess(f, a, b) then 1 else -1
  }

  /** `a` may come before `b`: for `asc` its key is not above `b`'s, for `desc`
      not below. */
  predicate InOrder(order: Order, f: Field, a: Product, b: Product) {
    match order
    case Asc => !FieldLess(f, b, a)
    case Desc => !FieldLess(f, a, b)
  }

  /** Non-decreasing on the key for `asc`, non-increasing for `desc`. */
  ghost predicate SortedBy(s: seq<Product>, order: Order, f: Field) {
    forall i, j :: 0 <= i < j < |s| ==> InOrder(order, f, s[i], s[j])
  }

  /** The comparator puts `a` after `b` exactly when `a` may not come first. */
  lemma ComparatorAgrees(order: Order, f: Field, a: Product, b: Product)
    ensures Comparator(order, f, a, b) > 0 <==> !InOrder(order, f, a, b)
  {
  }

  /** Two records the comparator will not put in order are in order the other way. */
  lemma InOrderFlip(order: Order, f: Field, a: Product, b: Product)
    requires !InOrder(order, f, a, b)
    ensures InOrder(order, f, b, a)
  {
    match order
    case Asc => FieldLessAsymmetric(f, b, a);
    case Desc => FieldLessAsymmetric(f, a, b);
  }

  lemma InOrderTransitive(order: Order, f: Field, a: Product, b: Product, c: Product)
    requires InOrder(order, f, a, b) && InOrder(order, f, b, c)
    ensures InOrder(order, f, a, c)
  {
    match order
    case Asc =>
      if FieldLess(f, c, a) { FieldLessSplits(f, c, b, a); }
    case Desc =>
      if FieldLess(f, a, c) { FieldLessSplits(f, a, b, c); }
  }

  /** One insertion step: `x` moves left past every record the comparator puts
      after it. */
  function Insert(s: seq<Product>, x: Product, order: Order, f: Field): (r: seq<Product>)
    requires SortedBy(s, order, f)
    ensures SortedBy(r, order, f)
    ensures multiset(r) == multiset(s) + multiset{x}
  {
    if s == [] then [x]
    else
      var y := s[|s| - 1];
      var init := s[..|s| - 1];
      assert s == init + [y];
      if Comparator(order, f, y, x) > 0 then
        var r' := Insert(init, x, order, f);
        InOrderFlip(order, f, y, x);
        InsertedBefore(init, y, x, r', order, f);
        r' + [y]
      else
        AppendInOrder(init, y, x, order, f);
        s + [x]
  }

  /** Every record of `r'` (made of `init` and `x`) may come before `y`. */
  lemma InsertedBefore(init: seq<Product>, y: Product, x: Product, r': seq<Product>, order: Order, f: Field)
    requires SortedBy(init + [y], order, f) && SortedBy(r', order, f)
    requires InOrder(order, f, x, y)
    requires multiset(r') == multiset(init) + multiset{x}
    ensures SortedBy(r' + [y], order, f)
  {
    var s := init + [y];
    forall i | 0 <= i < |r'| ensures InOrder(order, f, r'[i], y) {
      assert r'[i] in multiset(r');
      if r'[i] != x {
        assert r'[i] in multiset(init);
        var k :| 0 <= k < |init| && init[k] == r'[i];
        assert s[k] == init[k] && s[|s| - 1] == y;
      }
    }
  }

  /** `x` may follow `y`, the last record of a sorted `init + [y]`, so it may follow all. */
  lemma AppendInOrder(init: seq<Product>, y: Product, x: Product, order: Order, f: Field)
    requires SortedBy(init + [y], order, f)
    requires !(Comparator(order, f, y, x) > 0)
    ensures SortedBy(init + [y] + [x], order, f)
  {
    var s := init + [y];
    forall i | 0 <= i < |s| ensures InOrder(order, f, s[i], x) {
      if i < |s| - 1 {
        assert InOrder(order, f, s[i], s[|s| - 1]);
        InOrderTransitive(order, f, s[i], y, x);
      }
    }
  }

  /** The sorted copy: a permutation of `s`, in order on the field. */
  function Sort(s: seq<Product>, order: Order, f: Field): (r: seq<Product>)
    ensures SortedBy(r, order, f)
    ensures multiset(r) == multiset(s)
  {
    if s == [] then []
    else
      assert s == s[..|s| - 1] + [s[|s| - 1]];
      Insert(Sort(s[..|s| - 1], order, f), s[|s| - 1], order, f)
  }

  /** `?sortBy=price&sortOrder=asc` on the records 1 (price 10) and 2 (price 5)
      lists 2 first. */
  lemma SortExample()
    ensures var a := Product(Finite(1), "A", "Tools", 10.0, true);
      var b := Product(Finite(2), "B", "Tools", 5.0, true);
      Sort([a, b], Asc, Price) == [b, a]
  {
    var a := Product(Finite(1), "A", "Tools", 10.0, true);
    var b := Product(Finite(2), "B", "Tools", 5.0, true);
    assert [a, b][..1] == [a];
    assert Sort([a], Asc, Price) == [a] by {
      assert [a][..0] == [];
    }
  }
}
