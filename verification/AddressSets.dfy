/** Address sets and maps: Go maps keyed by the unique keys of their members. */
module AddressSets {
  import opened Addrs
  import opened Quoting
  import opened Printing

  /** Every member is stored under its own unique key. */
  ghost predicate Keyed(elems: map<UniqueKey, Address>, pr: Printable) {
    forall k | k in elems :: k == UniqueKeyOf(elems[k], pr) && CleanAddress(elems[k])
  }

  /** Storing under unique keys loses nothing: members and keys correspond one to one. */
  lemma {:induction false} MembersAreKeys(elems: map<UniqueKey, Address>, pr: Printable, a: Address)
    requires Keyed(elems, pr) && CleanAddress(a)
    ensures UniqueKeyOf(a, pr) in elems <==> a in elems.Values
  {
    if UniqueKeyOf(a, pr) in elems {
      UniqueKeysIdentify(a, elems[UniqueKeyOf(a, pr)], pr);
    }
  }

  lemma {:induction false} AsManyMembersAsKeys(elems: map<UniqueKey, Address>, pr: Printable)
    requires Keyed(elems, pr)
    ensures |elems.Values| == |elems|
    decreases |elems|
  {
    if elems == map[] {
    } else {
      var k :| k in elems;
      var rest := elems - {k};
      AsManyMembersAsKeys(rest, pr);
      assert elems.Values == rest.Values + {elems[k]} by {
        forall a ensures a in elems.Values <==> a in rest.Values + {elems[k]} {
          if a in elems.Values {
            var l :| l in elems && elems[l] == a;
            assert l == k || (l in rest && rest[l] == a);
          }
        }
      }
      assert elems[k] !in rest.Values;
      assert elems.Keys == rest.Keys + {k};
    }
  }

  class Set {
    const pr: Printable
    var elems: map<UniqueKey, Address>

    ghost predicate Valid() reads this { Keyed(elems, pr) }

    function Members(): set<Address> reads this { elems.Values }

    constructor (pr: Printable)
      ensures Valid() && Members() == {} && this.pr == pr
    {
      this.pr := pr;
      elems := map[];
    }

    method Has(a: Address) returns (found: bool)
      requires Valid() && CleanAddress(a)
      ensures found <==> a in Members()
    {
      MembersAreKeys(elems, pr, a);
      return UniqueKeyOf(a, pr) in elems;
    }

    method Add(a: Address)
      requires Valid() && CleanAddress(a)
      modifies this
      ensures Valid() && Members() == old(Members()) + {a}
    {
      ghost var before := elems;
      var k := UniqueKeyOf(a, pr);
      elems := elems[k := a];
      forall b ensures b in elems.Values <==> b in before.Values + {a} {
        if b in before.Values && b != a {
          var l :| l in before && before[l] == b;
          UniqueKeysIdentify(a, b, pr);
          assert l in elems && elems[l] == b;
        }
        if b == a { assert elems[k] == b; }
      }
    }

    method Remove(a: Address)
      requires Valid() && CleanAddress(a)
      modifies this
      ensures Valid() && Members() == old(Members()) - {a}
    {
      ghost var before := elems;
      var k := UniqueKeyOf(a, pr);
      elems := elems - {k};
      forall b ensures b in elems.Values <==> b in before.Values - {a} {
        if b in before.Values && b != a {
          var l :| l in before && before[l] == b;
          UniqueKeysIdentify(a, b, pr);
          assert l in elems && elems[l] == b;
        }
        if b in elems.Values {
          var l :| l in elems && elems[l] == b;
          assert before[l] == b;
        }
      }
    }

    method Union(other: Set) returns (ret: Set)
      requires Valid() && other.Valid() && other.pr == pr
      ensures fresh(ret) && ret.Valid() && ret.pr == pr
      ensures ret.Members() == Members() + other.Members()
      ensures ret.elems.Keys == elems.Keys + other.elems.Keys
    {
      var all: map<UniqueKey, Address> := map[];
      var todo := elems.Keys;
      while todo != {}
        invariant todo <= elems.Keys
        invariant all.Keys == elems.Keys - todo && forall k | k in all :: all[k] == elems[k]
        decreases todo
      {
        var k :| k in todo;
        all := all[k := elems[k]];
        todo := todo - {k};
      }
      assert all == elems;
      todo := other.elems.Keys;
      while todo != {}
        invariant todo <= other.elems.Keys
        invariant all.Keys == elems.Keys + (other.elems.Keys - todo)
        invariant forall k | k in all :: all[k] == if k in other.elems && k !in todo then other.elems[k] else elems[k]
        decreases todo
      {
        var k :| k in todo;
        all := all[k := other.elems[k]];
        todo := todo - {k};
      }
      assert all == elems + other.elems;
      UnionMembers(elems, other.elems, pr);
      ret := new Set(pr);
      ret.elems := all;
    }

    method Intersection(other: Set) returns (ret: Set)
      requires Valid() && other.Valid() && other.pr == pr
      ensures fresh(ret) && ret.Valid() && ret.pr == pr
      ensures ret.Members() == Members() * other.Members()
      ensures ret.elems.Keys == elems.Keys * other.elems.Keys
    {
      var shared: map<UniqueKey, Address> := map[];
      var todo := elems.Keys;
      while todo != {}
        invariant todo <= elems.Keys
        invariant shared == map k | k in elems.Keys - todo && k in other.elems :: elems[k]
        decreases todo
      {
        var k :| k in todo;
        if k in other.elems {
          shared := shared[k := elems[k]];
        }
        todo := todo - {k};
      }
      SharedElements(elems, other.elems, pr);
      todo := other.elems.Keys;
      while todo != {}
        invariant todo <= other.elems.Keys
        invariant shared == map k | k in elems.Keys && k in other.elems :: elems[k]
        decreases todo
      {
        var k :| k in todo;
        if k in elems {
          shared := shared[k := other.elems[k]];
        }
        todo := todo - {k};
      }
      IntersectionMembers(elems, other.elems, pr);
      ret := new Set(pr);
      ret.elems := shared;
    }
  }

  /** Two keyed maps agree wherever both have a key. */
  lemma {:induction false} SharedElements(a: map<UniqueKey, Address>, b: map<UniqueKey, Address>, pr: Printable)
    requires Keyed(a, pr) && Keyed(b, pr)
    ensures forall k | k in a && k in b :: a[k] == b[k]
  {
    forall k | k in a && k in b ensures a[k] == b[k] {
      UniqueKeysIdentify(a[k], b[k], pr);
    }
  }

  lemma {:induction false} UnionMembers(a: map<UniqueKey, Address>, b: map<UniqueKey, Address>, pr: Printable)
    requires Keyed(a, pr) && Keyed(b, pr)
    ensures Keyed(a + b, pr) && (a + b).Values == a.Values + b.Values
  {
    SharedElements(a, b, pr);
    forall x ensures x in (a + b).Values <==> x in a.Values + b.Values {
      if x in a.Values { var k :| k in a && a[k] == x; assert (a + b)[k] == x; }
      if x in b.Values { var k :| k in b && b[k] == x; assert (a + b)[k] == x; }
    }
  }

  lemma {:induction false} IntersectionMembers(a: map<UniqueKey, Address>, b: map<UniqueKey, Address>, pr: Printable)
    requires Keyed(a, pr) && Keyed(b, pr)
    ensures (map k | k in a.Keys && k in b :: a[k]).Values == a.Values * b.Values
  {
    var c := map k | k in a.Keys && k in b :: a[k];
    SharedElements(a, b, pr);
    forall x ensures x in c.Values <==> x in a.Values * b.Values {
      if x in a.Values && x in b.Values {
        MembersAreKeys(a, pr, x);
        MembersAreKeys(b, pr, x);
        var k := UniqueKeyOf(x, pr);
        var l :| l in a && a[l] == x;
        assert c[k] == x;
      }
      if x in c.Values {
        var k :| k in c && c[k] == x;
        assert a[k] == x && b[k] == x;
      }
    }
  }

  lemma {:induction false} CountSetUnion<T>(x: set<T>, y: set<T>)
    ensures |x + y| + |x * y| == |x| + |y|
  {
    assert x + y == x + (y - x) && x !! (y - x);
    assert y == (y - x) + (x * y) && (y - x) !! (x * y);
  }

  /** len(union) + len(intersection) == len(s) + len(other), for results with the members that Union
      and Intersection promise. */
  lemma {:induction false} SizesAddUp(s: Set, other: Set, union: Set, inter: Set)
    requires s.Valid() && other.Valid() && union.Valid() && inter.Valid()
    requires union.Members() == s.Members() + other.Members()
    requires inter.Members() == s.Members() * other.Members()
    ensures |union.elems| + |inter.elems| == |s.elems| + |other.elems|
  {
    AsManyMembersAsKeys(s.elems, s.pr);
    AsManyMembersAsKeys(other.elems, other.pr);
    AsManyMembersAsKeys(union.elems, union.pr);
    AsManyMembersAsKeys(inter.elems, inter.pr);
    CountSetUnion(s.Members(), other.Members());
  }

  datatype MapElem<V> = MapElem(key: Address, value: V)

  class Map<V> {
    const pr: Printable
    var elems: map<UniqueKey, MapElem<V>>

    /** The keys as a set in the making. */
    function KeyMap(): map<UniqueKey, Address> reads this { map k | k in elems :: elems[k].key }

    ghost predicate Valid() reads this { Keyed(KeyMap(), pr) }

    /** The mapping this object stands for. */
    function Lookup(a: Address): Option<V> reads this {
      var k := UniqueKeyOf(a, pr);
      if k in elems then Some(elems[k].value) else None
    }

    constructor (pr: Printable)
      ensures Valid() && elems == map[] && this.pr == pr
    {
      this.pr := pr;
      elems := map[];
    }

    method Put(a: Address, v: V)
      requires Valid() && CleanAddress(a)
      modifies this
      ensures Valid() && elems == old(elems)[UniqueKeyOf(a, pr) := MapElem(a, v)]
      ensures forall b | CleanAddress(b) :: Lookup(b) == if b == a then Some(v) else old(Lookup(b))
    {
      ghost var before := KeyMap();
      elems := elems[UniqueKeyOf(a, pr) := MapElem(a, v)];
      assert KeyMap() == before[UniqueKeyOf(a, pr) := a];
      forall b | CleanAddress(b) ensures Lookup(b) == if b == a then Some(v) else old(Lookup(b)) {
        UniqueKeysIdentify(a, b, pr);
      }
    }

    method Remove(a: Address)
      requires Valid() && CleanAddress(a)
      modifies this
      ensures Valid() && elems == old(elems) - {UniqueKeyOf(a, pr)}
      ensures forall b | CleanAddress(b) :: Lookup(b) == if b == a then None else old(Lookup(b))
    {
      ghost var before := KeyMap();
      elems := elems - {UniqueKeyOf(a, pr)};
      assert KeyMap() == before - {UniqueKeyOf(a, pr)};
      assert forall k | k in KeyMap() :: k in before && KeyMap()[k] == before[k];
      forall b | CleanAddress(b) ensures Lookup(b) == if b == a then None else old(Lookup(b)) {
        UniqueKeysIdentify(a, b, pr);
      }
    }

    method GetOk(a: Address) returns (v: Option<V>)
      ensures v == Lookup(a)
    {
      var realKey := UniqueKeyOf(a, pr);
      if realKey in elems {
        return Some(elems[realKey].value);
      }
      return None;
    }

    /** Keys skips UniqueKey and copies the stored keys; the result is a proper set all the same. */
    method Keys() returns (ret: Set)
      requires Valid()
      ensures fresh(ret) && ret.Valid() && ret.pr == pr
      ensures forall a | CleanAddress(a) :: a in ret.Members() <==> Lookup(a).Some?
    {
      var stored: map<UniqueKey, Address> := map[];
      var todo := elems.Keys;
      while todo != {}
        invariant todo <= elems.Keys
        invariant stored == map k | k in elems.Keys - todo :: elems[k].key
        decreases todo
      {
        var k :| k in todo;
        stored := stored[k := elems[k].key];
        todo := todo - {k};
      }
      assert stored == KeyMap();
      ret := new Set(pr);
      ret.elems := stored;
      forall a | CleanAddress(a) ensures a in ret.Members() <==> Lookup(a).Some? {
        MembersAreKeys(ret.elems, pr, a);
      }
    }
  }
}
