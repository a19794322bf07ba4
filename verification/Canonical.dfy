/**
  Duplicate-free sorted lists. Such a list is determined by its elements alone, which is what
  makes the compiled rule lists comparable with what a filter already holds.
*/
module Canonical {

  function Elements<T>(s: seq<T>): set<T> {
    set x | x in s
  }

  predicate Unique<T(==)>(s: seq<T>) {
    forall i, j | 0 <= i < j < |s| :: s[i] != s[j]
  }

  ghost predicate StrictTotal<T(!new)>(less: (T, T) -> bool) {
    && (forall x :: !less(x, x))
    && (forall x, y, z :: less(x, y) && less(y, z) ==> less(x, z))
    && (forall x, y :: x == y || less(x, y) || less(y, x))
  }

  ghost predicate Sorted<T>(less: (T, T) -> bool, s: seq<T>) {
    forall i, j | 0 <= i < j < |s| :: less(s[i], s[j])
  }

  function Insert<T>(less: (T, T) -> bool, s: seq<T>, x: T): seq<T> {
    if s == [] || less(x, s[0]) then [x] + s
    else [s[0]] + Insert(less, s[1..], x)
  }

  function Sort<T>(less: (T, T) -> bool, s: seq<T>): seq<T> {
    if s == [] then [] else Insert(less, Sort(less, s[1..]), s[0])
  }

  lemma {:induction false} InsertKeepsElements<T>(less: (T, T) -> bool, s: seq<T>, x: T, y: T)
    ensures y in Insert(less, s, x) <==> y == x || y in s
  {
    if s != [] && !less(x, s[0]) {
      InsertKeepsElements(less, s[1..], x, y);
      assert s == [s[0]] + s[1..];
    }
  }

  lemma {:induction false} InsertKeepsOrder<T(!new)>(less: (T, T) -> bool, s: seq<T>, x: T)
    requires StrictTotal(less) && Sorted(less, s) && x !in s
    ensures Sorted(less, Insert(less, s, x))
  {
    if s != [] && !less(x, s[0]) {
      InsertKeepsOrder(less, s[1..], x);
      var rest := Insert(less, s[1..], x);
      forall j | 0 <= j < |rest| ensures less(s[0], rest[j]) {
        InsertKeepsElements(less, s[1..], x, rest[j]);
      }
    }
  }

  /** Sorting keeps the elements and orders them strictly. */
  lemma {:induction false} SortSorts<T(!new)>(less: (T, T) -> bool, s: seq<T>)
    requires StrictTotal(less) && Unique(s)
    ensures Sorted(less, Sort(less, s)) && Elements(Sort(less, s)) == Elements(s)
  {
    if s != [] {
      SortSorts(less, s[1..]);
      var rest := Sort(less, s[1..]);
      assert s[0] !in rest by { assert s[0] !in Elements(s[1..]); }
      InsertKeepsOrder(less, rest, s[0]);
      forall y ensures y in Insert(less, rest, s[0]) <==> y in s {
        InsertKeepsElements(less, rest, s[0], y);
        assert y in rest <==> y in Elements(rest);
        assert s == [s[0]] + s[1..];
      }
    }
  }

  lemma ElementsOfNonempty<T>(s: seq<T>)
    ensures s == [] <==> Elements(s) == {}
  {
    if s != [] { assert s[0] in Elements(s); }
  }

  lemma FirstIsLeast<T(!new)>(less: (T, T) -> bool, a: seq<T>, b: seq<T>)
    requires StrictTotal(less) && Sorted(less, a) && Sorted(less, b) && Elements(a) == Elements(b) && a != []
    ensures b != [] && a[0] == b[0]
  {
    assert a[0] in Elements(a);
    assert b != [];
    assert b[0] in Elements(b);
    var i :| 0 <= i < |b| && b[i] == a[0];
    var j :| 0 <= j < |a| && a[j] == b[0];
  }

  /** A strictly sorted list is determined by its elements. */
  lemma {:induction false} SortedIsCanonical<T(!new)>(less: (T, T) -> bool, a: seq<T>, b: seq<T>)
    requires StrictTotal(less) && Sorted(less, a) && Sorted(less, b) && Elements(a) == Elements(b)
    ensures a == b
  {
    ElementsOfNonempty(a);
    ElementsOfNonempty(b);
    if a != [] {
      FirstIsLeast(less, a, b);
      forall y ensures y in a[1..] <==> y in b[1..] {
        assert y in a <==> y in Elements(a);
        assert y in b <==> y in Elements(b);
        assert a == [a[0]] + a[1..] && b == [b[0]] + b[1..];
      }
      SortedIsCanonical(less, a[1..], b[1..]);
    }
  }

  // ----- the order of text: character by character, a prefix first -----

  predicate TextLess(a: string, b: string) {
    if b == "" then false
    else if a == "" then true
    else if a[0] != b[0] then a[0] < b[0]
    else TextLess(a[1..], b[1..])
  }

  lemma {:induction false} TextIrreflexive(a: string)
    ensures !TextLess(a, a)
  {
    if a != "" { TextIrreflexive(a[1..]); }
  }

  lemma {:induction false} TextTransitive(a: string, b: string, c: string)
    requires TextLess(a, b) && TextLess(b, c)
    ensures TextLess(a, c)
  {
    if a != "" && a[0] == b[0] && b[0] == c[0] {
      TextTransitive(a[1..], b[1..], c[1..]);
    }
  }

  lemma {:induction false} TextConnected(a: string, b: string)
    ensures a == b || TextLess(a, b) || TextLess(b, a)
  {
    if a != "" && b != "" && a[0] == b[0] {
      TextConnected(a[1..], b[1..]);
      if a[1..] == b[1..] {
        assert a == [a[0]] + a[1..] == b;
      }
    }
  }

  lemma TextIsStrictTotal()
    ensures StrictTotal(TextLess)
  {
    forall a ensures !TextLess(a, a) { TextIrreflexive(a); }
    forall a, b, c | TextLess(a, b) && TextLess(b, c) ensures TextLess(a, c) { TextTransitive(a, b, c); }
    forall a, b ensures a == b || TextLess(a, b) || TextLess(b, a) { TextConnected(a, b); }
  }
}
