/** The byte-wise order of strings and what sort.Strings and sort.Slice promise: an ordered
    permutation. For a strict total order that permutation is unique. */
module Sorting {

  /** Go compares strings byte by byte, which on UTF-8 is the order of code points. */
  predicate StringLess(a: string, b: string) {
    if b == "" then false
    else if a == "" then true
    else if a[0] != b[0] then a[0] < b[0]
    else StringLess(a[1..], b[1..])
  }

  lemma {:induction false} StringLessTotal(a: string, b: string)
    ensures a == b ==> !StringLess(a, b)
    ensures a != b ==> (StringLess(a, b) <==> !StringLess(b, a))
  {
    if a == "" || b == "" || a[0] != b[0] {
    } else {
      assert a == [a[0]] + a[1..] && b == [b[0]] + b[1..];
      StringLessTotal(a[1..], b[1..]);
    }
  }

  lemma {:induction false} StringLessTransitive(a: string, b: string, c: string)
    requires StringLess(a, b) && StringLess(b, c)
    ensures StringLess(a, c)
  {
    if a == "" || a[0] != b[0] || b[0] != c[0] {
    } else {
      StringLessTransitive(a[1..], b[1..], c[1..]);
    }
  }

  predicate PrefixOrFirstDifference(a: string, b: string, i: nat) {
    a < b || (DiffersAt(a, b, i) && a[i] < b[i])
  }

  lemma {:induction false} OrderOfRest(c: char, a: string, b: string, i: nat)
    ensures PrefixOrFirstDifference([c] + a, [c] + b, i + 1) <==> PrefixOrFirstDifference(a, b, i)
    ensures PrefixOrFirstDifference([c] + a, [c] + b, 0) <==> a < b
  {
    assert ([c] + a)[1..] == a && ([c] + b)[1..] == b;
    if i < |a| && i < |b| {
      assert ([c] + a)[..i + 1] == [c] + a[..i] && ([c] + b)[..i + 1] == [c] + b[..i];
      assert a[..i] == ([c] + a)[..i + 1][1..] && b[..i] == ([c] + b)[..i + 1][1..];
    }
  }

  /** A proper prefix comes first; otherwise the first difference decides. */
  lemma {:induction false} StringOrderMeaning(a: string, b: string)
    ensures StringLess(a, b) <==> exists i: nat :: PrefixOrFirstDifference(a, b, i)
    decreases |a|
  {
    if a == "" || b == "" || a[0] != b[0] {
      assert PrefixOrFirstDifference(a, b, 0) ==> StringLess(a, b);
      assert StringLess(a, b) ==> PrefixOrFirstDifference(a, b, 0);
      assert forall i: nat | 0 < i < |a| && i < |b| :: a[..i][0] == a[0] && b[..i][0] == b[0];
    } else {
      var x, y := a[1..], b[1..];
      StringOrderMeaning(x, y);
      assert a == [a[0]] + x && b == [a[0]] + y;
      if i: nat :| PrefixOrFirstDifference(x, y, i) {
        OrderOfRest(a[0], x, y, i);
      }
      if i: nat :| PrefixOrFirstDifference(a, b, i) {
        OrderOfRest(a[0], x, y, if i == 0 then 0 else i - 1);
        assert PrefixOrFirstDifference(x, y, if i == 0 then 0 else i - 1);
      }
    }
  }

  predicate DiffersAt(a: string, b: string, i: nat) {
    i < |a| && i < |b| && a[..i] == b[..i] && a[i] != b[i]
  }

  ghost predicate StrictTotalOn<T(!new)>(less: (T, T) -> bool, s: set<T>) {
    && (forall a | a in s :: !less(a, a))
    && (forall a, b | a in s && b in s && a != b :: less(a, b) || less(b, a))
    && (forall a, b, c | a in s && b in s && c in s :: less(a, b) && less(b, c) ==> less(a, c))
  }

  /** No later element sorts before an earlier one: the promise of Go's sort functions. */
  ghost predicate Ordered<T>(less: (T, T) -> bool, xs: seq<T>) {
    forall i, j | 0 <= i < j < |xs| :: !less(xs[j], xs[i])
  }

  ghost predicate SortOf<T>(less: (T, T) -> bool, xs: seq<T>, result: seq<T>) {
    multiset(result) == multiset(xs) && Ordered(less, result)
  }

  lemma {:induction false} HeadsAgree<T(!new)>(less: (T, T) -> bool, x: seq<T>, y: seq<T>)
    requires multiset(x) == multiset(y) && x != []
    requires StrictTotalOn(less, set a | a in x)
    requires Ordered(less, x) && Ordered(less, y)
    ensures y != [] && x[0] == y[0]
  {
    assert |multiset(x)| == |x| && |multiset(y)| == |y|;
    assert y[0] in multiset(x) && x[0] in multiset(y);
    var i :| 0 <= i < |x| && x[i] == y[0];
    var j :| 0 <= j < |y| && y[j] == x[0];
    assert x[0] in x && x[i] in x;
    assert i > 0 ==> !less(x[i], x[0]);
    assert j > 0 ==> !less(y[j], y[0]);
  }

  lemma {:induction false} TailsAgree<T>(x: seq<T>, y: seq<T>)
    requires x != [] && y != [] && x[0] == y[0] && multiset(x) == multiset(y)
    ensures multiset(x[1..]) == multiset(y[1..])
  {
    assert x == [x[0]] + x[1..] && y == [y[0]] + y[1..];
    assert multiset(x[1..]) == multiset(x) - multiset{x[0]};
    assert multiset(y[1..]) == multiset(y) - multiset{y[0]};
  }

  /** Sorting by a strict total order has one possible result. */
  lemma {:induction false} SortIsUnique<T(!new)>(less: (T, T) -> bool, x: seq<T>, y: seq<T>)
    requires multiset(x) == multiset(y)
    requires StrictTotalOn(less, set a | a in x)
    requires Ordered(less, x) && Ordered(less, y)
    ensures x == y
    decreases |x|
  {
    assert |multiset(x)| == |x| && |multiset(y)| == |y|;
    if x == [] {
    } else {
      HeadsAgree(less, x, y);
      var xs, ys := x[1..], y[1..];
      TailsAgree(x, y);
      assert forall a | a in xs :: a in x;
      SortIsUnique(less, xs, ys);
      assert x == [x[0]] + xs && y == [y[0]] + ys;
    }
  }

  lemma {:induction false} StringsAreOrdered(s: set<string>)
    ensures StrictTotalOn(StringLess, s)
  {
    forall a | a in s ensures !StringLess(a, a) { StringLessTotal(a, a); }
    forall a, b | a in s && b in s && a != b ensures StringLess(a, b) || StringLess(b, a) { StringLessTotal(a, b); }
    forall a, b, c | a in s && b in s && c in s ensures StringLess(a, b) && StringLess(b, c) ==> StringLess(a, c) {
      if StringLess(a, b) && StringLess(b, c) { StringLessTransitive(a, b, c); }
    }
  }

  function Insert(x: string, xs: seq<string>): seq<string> {
    if xs != [] && StringLess(xs[0], x) then [xs[0]] + Insert(x, xs[1..]) else [x] + xs
  }

  lemma {:induction false} InsertKeepsElements(x: string, xs: seq<string>)
    ensures multiset(Insert(x, xs)) == multiset{x} + multiset(xs)
  {
    if xs != [] && StringLess(xs[0], x) {
      InsertKeepsElements(x, xs[1..]);
      assert xs == [xs[0]] + xs[1..];
    }
  }

  lemma {:induction false} OrderedCons(x: string, xs: seq<string>)
    requires Ordered(StringLess, xs) && forall y | y in xs :: !StringLess(y, x)
    ensures Ordered(StringLess, [x] + xs)
  {
  }

  lemma {:induction false} InsertKeepsOrder(x: string, xs: seq<string>)
    requires Ordered(StringLess, xs)
    ensures Ordered(StringLess, Insert(x, xs))
  {
    if xs != [] && StringLess(xs[0], x) {
      var rest := Insert(x, xs[1..]);
      InsertKeepsOrder(x, xs[1..]);
      InsertKeepsElements(x, xs[1..]);
      forall y | y in rest ensures !StringLess(y, xs[0]) {
        assert y in multiset(rest);
        StringLessTotal(xs[0], x);
      }
      OrderedCons(xs[0], rest);
    } else {
      forall y | y in xs ensures !StringLess(y, x) {
        var j :| 0 <= j < |xs| && xs[j] == y;
        if j > 0 { NotBelow(y, xs[0], x); }
      }
      OrderedCons(x, xs);
    }
  }

  /** "Not less" is transitive. */
  lemma {:induction false} NotBelow(a: string, b: string, c: string)
    requires !StringLess(a, b) && !StringLess(b, c)
    ensures !StringLess(a, c)
  {
    StringLessTotal(a, b);
    StringLessTotal(b, c);
    StringLessTotal(a, c);
    if a != b && b != c {
      StringLessTransitive(c, b, a);
    }
  }

  lemma {:induction false} InsertSorts(xs: seq<string>, x: string, sorted: seq<string>)
    requires SortOf(StringLess, xs, sorted)
    ensures SortOf(StringLess, xs + [x], Insert(x, sorted))
  {
    InsertKeepsOrder(x, sorted);
    InsertKeepsElements(x, sorted);
  }

  /** Stands for sort.Strings; callers rely on its contract only. */
  method SortStrings(xs: seq<string>) returns (sorted: seq<string>)
    ensures SortOf(StringLess, xs, sorted)
  {
    sorted := [];
    for i := 0 to |xs|
      invariant SortOf(StringLess, xs[..i], sorted)
    {
      InsertSorts(xs[..i], xs[i], sorted);
      sorted := Insert(xs[i], sorted);
      assert xs[..i + 1] == xs[..i] + [xs[i]];
    }
    assert xs[..|xs|] == xs;
  }
}
