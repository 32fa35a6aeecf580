/** The Less methods of addresses, and the natural order of address sets. */
module Ordering {
  import opened Addrs
  import opened Sorting

  function KeyRank(k: InstanceKey): nat {
    if k.StringKey? then 'S' as int else if k.IntKey? then 'I' as int else 0
  }

  predicate KeyLess(i: InstanceKey, j: InstanceKey) {
    if i == j then false
    else if i == NoKey then true
    else if j == NoKey then false
    else if KeyRank(i) != KeyRank(j) then KeyRank(i) < KeyRank(j)
    else if i.IntKey? then i.index < j.index
    else if i.StringKey? then StringLess(i.text, j.text)
    else false
  }

  /** The first differing step of two paths of one length decides. */
  predicate StepsLess(m: ModuleInstance, o: ModuleInstance)
    requires |m| == |o|
  {
    if m == [] then false
    else if m[0].name != o[0].name then StringLess(m[0].name, o[0].name)
    else if m[0].key != o[0].key then KeyLess(m[0].key, o[0].key)
    else StepsLess(m[1..], o[1..])
  }

  predicate ModuleLess(m: ModuleInstance, o: ModuleInstance) {
    if |m| != |o| then |m| < |o| else StepsLess(m, o)
  }

  method DecideModuleLess(m: ModuleInstance, o: ModuleInstance) returns (less: bool)
    ensures less <==> ModuleLess(m, o)
  {
    if |m| != |o| {
      return |m| < |o|;
    }
    for i := 0 to |m|
      invariant StepsLess(m, o) <==> StepsLess(m[i..], o[i..])
    {
      assert m[i..][1..] == m[i + 1..] && o[i..][1..] == o[i + 1..];
      if m[i].name != o[i].name {
        return StringLess(m[i].name, o[i].name);
      } else if m[i].key != o[i].key {
        return KeyLess(m[i].key, o[i].key);
      }
    }
    return false;
  }

  predicate ResourceLess(r: Resource, o: Resource) {
    if r.mode != o.mode then r.mode == Data
    else if r.typeName != o.typeName then StringLess(r.typeName, o.typeName)
    else if r.name != o.name then StringLess(r.name, o.name)
    else false
  }

  predicate LocalLess(r: ResourceInstance, o: ResourceInstance) {
    if r.resource != o.resource then ResourceLess(r.resource, o.resource)
    else if r.key != o.key then KeyLess(r.key, o.key)
    else false
  }

  predicate InstanceLess(r: AbsResourceInstance, o: AbsResourceInstance) {
    if r.path != o.path then ModuleLess(r.path, o.path)
    else if r.resource != o.resource then LocalLess(r.resource, o.resource)
    else false
  }

  // ---------- Each order is total ----------

  lemma {:induction false} KeyLessTotal(i: InstanceKey, j: InstanceKey)
    requires i != AnyKey && j != AnyKey && i != j
    ensures KeyLess(i, j) <==> !KeyLess(j, i)
  {
    if i.StringKey? && j.StringKey? {
      StringLessTotal(i.text, j.text);
    }
  }

  lemma {:induction false} KeyLessTransitive(i: InstanceKey, j: InstanceKey, k: InstanceKey)
    requires i != AnyKey && j != AnyKey && k != AnyKey && KeyLess(i, j) && KeyLess(j, k)
    ensures KeyLess(i, k) && i != k
  {
    KeyLessTotal(i, j);
    if i.StringKey? && j.StringKey? && k.StringKey? {
      StringLessTransitive(i.text, j.text, k.text);
      StringLessTotal(i.text, k.text);
    }
  }

  lemma {:induction false} StepsLessTotal(m: ModuleInstance, o: ModuleInstance)
    requires |m| == |o| && NoAnyKey(m) && NoAnyKey(o) && m != o
    ensures StepsLess(m, o) <==> !StepsLess(o, m)
  {
    if m[0].name != o[0].name {
      StringLessTotal(m[0].name, o[0].name);
    } else if m[0].key != o[0].key {
      KeyLessTotal(m[0].key, o[0].key);
    } else {
      assert m == [m[0]] + m[1..] && o == [o[0]] + o[1..];
      StepsLessTotal(m[1..], o[1..]);
    }
  }

  lemma {:induction false} StepsLessTransitive(m: ModuleInstance, o: ModuleInstance, p: ModuleInstance)
    requires |m| == |o| == |p| && NoAnyKey(m) && NoAnyKey(o) && NoAnyKey(p)
    requires StepsLess(m, o) && StepsLess(o, p)
    ensures StepsLess(m, p)
  {
    var a, b, c := m[0], o[0], p[0];
    if a.name != b.name && b.name != c.name {
      StringLessTransitive(a.name, b.name, c.name);
      StringLessTotal(a.name, b.name);
    } else if a.name == b.name && b.name == c.name {
      if a.key != b.key && b.key != c.key {
        KeyLessTransitive(a.key, b.key, c.key);
      } else if a.key == b.key && b.key == c.key {
        StepsLessTransitive(m[1..], o[1..], p[1..]);
      }
    }
  }

  lemma {:induction false} ModuleLessOrder(m: ModuleInstance, o: ModuleInstance, p: ModuleInstance)
    requires NoAnyKey(m) && NoAnyKey(o) && NoAnyKey(p)
    ensures !ModuleLess(m, m)
    ensures m != o ==> (ModuleLess(m, o) <==> !ModuleLess(o, m))
    ensures ModuleLess(m, o) && ModuleLess(o, p) ==> ModuleLess(m, p)
  {
    StepsIrreflexive(m);
    if m != o && |m| == |o| {
      StepsLessTotal(m, o);
    }
    if ModuleLess(m, o) && ModuleLess(o, p) && |m| == |o| == |p| {
      StepsLessTransitive(m, o, p);
    }
  }

  lemma {:induction false} StepsIrreflexive(m: ModuleInstance)
    ensures !StepsLess(m, m)
  {
    if m == [] {
    } else {
      StepsIrreflexive(m[1..]);
    }
  }

  /** Two different resources are comparable exactly when they share a mode or one is a data
      resource. */
  lemma {:induction false} ModesDecideComparability(r: Resource, o: Resource)
    requires r != o
    ensures ResourceLess(r, o) || ResourceLess(o, r) <==> r.mode == o.mode || r.mode == Data || o.mode == Data
  {
    StringLessTotal(r.typeName, o.typeName);
    StringLessTotal(r.name, o.name);
  }

  predicate Ordinary(r: AbsResourceInstance) {
    NoAnyKey(r.path) && r.resource.key != AnyKey
  }

  /** Within one module Less knows data resources and at most one other mode. */
  predicate Comparable(r: AbsResourceInstance, o: AbsResourceInstance) {
    r.path == o.path ==>
      var x, y := r.resource.resource.mode, o.resource.resource.mode;
      x == y || x == Data || y == Data
  }

  lemma {:induction false} ResourceLessOrder(r: Resource, o: Resource, p: Resource, other: ResourceMode)
    requires forall x | x in {r, o, p} :: x.mode == Data || x.mode == other
    ensures r != o ==> (ResourceLess(r, o) <==> !ResourceLess(o, r))
    ensures ResourceLess(r, o) && ResourceLess(o, p) ==> ResourceLess(r, p)
  {
    assert r in {r, o, p} && o in {r, o, p} && p in {r, o, p};
    StringLessTotal(r.typeName, o.typeName);
    StringLessTotal(r.name, o.name);
    if ResourceLess(r, o) && ResourceLess(o, p) && r.mode == o.mode == p.mode {
      StringLessTotal(r.typeName, p.typeName);
      if r.typeName != o.typeName && o.typeName != p.typeName {
        StringLessTransitive(r.typeName, o.typeName, p.typeName);
      } else if r.typeName == o.typeName == p.typeName {
        StringLessTransitive(r.name, o.name, p.name);
        StringLessTotal(r.name, p.name);
      }
    }
  }

  lemma {:induction false} LocalLessOrder(r: ResourceInstance, o: ResourceInstance, p: ResourceInstance,
                                          other: ResourceMode)
    requires forall x | x in {r, o, p} :: x.key != AnyKey && (x.resource.mode == Data || x.resource.mode == other)
    ensures r != o ==> (LocalLess(r, o) <==> !LocalLess(o, r))
    ensures LocalLess(r, o) && LocalLess(o, p) ==> LocalLess(r, p)
  {
    assert r in {r, o, p} && o in {r, o, p} && p in {r, o, p};
    ResourceLessOrder(r.resource, o.resource, p.resource, other);
    ResourceLessOrder(r.resource, p.resource, o.resource, other);
    if r.resource == o.resource && r.key != o.key {
      KeyLessTotal(r.key, o.key);
    }
    if LocalLess(r, o) && LocalLess(o, p) && r.resource == o.resource == p.resource {
      KeyLessTransitive(r.key, o.key, p.key);
    }
  }

  /** The mode besides Data that three pairwise comparable instances of one module have. */
  function OtherMode(r: AbsResourceInstance, o: AbsResourceInstance, p: AbsResourceInstance): ResourceMode {
    var x, y := r.resource.resource.mode, o.resource.resource.mode;
    if x != Data then x else if y != Data then y else p.resource.resource.mode
  }

  lemma {:induction false} InstanceLessOrder(r: AbsResourceInstance, o: AbsResourceInstance, p: AbsResourceInstance)
    requires Ordinary(r) && Ordinary(o) && Ordinary(p)
    requires Comparable(r, o) && Comparable(o, p) && Comparable(r, p)
    ensures !InstanceLess(r, r)
    ensures r != o ==> (InstanceLess(r, o) <==> !InstanceLess(o, r))
    ensures InstanceLess(r, o) && InstanceLess(o, p) ==> InstanceLess(r, p)
  {
    ModuleLessOrder(r.path, o.path, p.path);
    ModuleLessOrder(r.path, p.path, o.path);
    if r.path == o.path {
      LocalLessOrder(r.resource, o.resource, o.resource, OtherMode(r, o, o));
      if o.path == p.path {
        LocalLessOrder(r.resource, o.resource, p.resource, OtherMode(r, o, p));
        LocalLessOrder(r.resource, p.resource, o.resource, OtherMode(r, o, p));
      }
    }
  }

  /** Less is a strict total order on a set of resource instances exactly when any two of them in one
      module share a mode or one is a data resource. */
  lemma {:induction false} InstancesAreOrdered(s: set<AbsResourceInstance>)
    requires forall r | r in s :: Ordinary(r)
    ensures StrictTotalOn(InstanceLess, s) <==> forall a, b | a in s && b in s :: Comparable(a, b)
  {
    if forall a, b | a in s && b in s :: Comparable(a, b) {
      forall a | a in s ensures !InstanceLess(a, a) { InstanceLessOrder(a, a, a); }
      forall a, b | a in s && b in s && a != b ensures InstanceLess(a, b) || InstanceLess(b, a) {
        InstanceLessOrder(a, b, a);
      }
      forall a, b, c | a in s && b in s && c in s
        ensures InstanceLess(a, b) && InstanceLess(b, c) ==> InstanceLess(a, c)
      {
        InstanceLessOrder(a, b, c);
      }
    }
    forall a, b | StrictTotalOn(InstanceLess, s) && a in s && b in s ensures Comparable(a, b) {
      if !Comparable(a, b) {
        assert InstanceLess(a, b) || InstanceLess(b, a);
        ModesDecideComparability(a.resource.resource, b.resource.resource);
      }
    }
  }

  lemma {:induction false} ModulesAreOrdered(s: set<ModuleInstance>)
    requires forall m | m in s :: NoAnyKey(m)
    ensures StrictTotalOn(ModuleLess, s)
  {
    forall a | a in s ensures !ModuleLess(a, a) { ModuleLessOrder(a, a, a); }
    forall a, b | a in s && b in s && a != b ensures ModuleLess(a, b) || ModuleLess(b, a) { ModuleLessOrder(a, b, a); }
    forall a, b, c | a in s && b in s && c in s ensures ModuleLess(a, b) && ModuleLess(b, c) ==> ModuleLess(a, c) {
      ModuleLessOrder(a, b, c);
    }
  }

  // ---------- What comes first ----------

  predicate StepLess(a: Step, b: Step) {
    if a.name != b.name then StringLess(a.name, b.name) else KeyLess(a.key, b.key)
  }

  predicate FirstDifference(m: ModuleInstance, o: ModuleInstance, i: nat) {
    i < |m| && i < |o| && m[..i] == o[..i] && m[i] != o[i]
  }

  /** Paths of one length are ordered by the first step in which they differ. */
  lemma {:induction false} FirstDifferenceDecides(m: ModuleInstance, o: ModuleInstance, i: nat)
    requires |m| == |o| && FirstDifference(m, o, i)
    ensures ModuleLess(m, o) <==> StepLess(m[i], o[i])
    decreases i
  {
    if i == 0 {
    } else {
      assert m[0] == m[..i][0] && o[0] == o[..i][0];
      assert m[1..][..i - 1] == m[..i][1..] && o[1..][..i - 1] == o[..i][1..];
      FirstDifferenceDecides(m[1..], o[1..], i - 1);
    }
  }

  /** Shorter module paths come first; within a module data resources, then by type and name; within
      a resource the unkeyed instance, unknown keys, integer keys by value, then string keys. */
  lemma {:induction false} NaturalOrderMeaning(r: AbsResourceInstance, o: AbsResourceInstance)
    ensures |r.path| < |o.path| ==> InstanceLess(r, o)
    ensures r.path == o.path && r.resource.resource.mode == Data != o.resource.resource.mode ==> InstanceLess(r, o)
    ensures r.path == o.path && r.resource.resource.mode == o.resource.resource.mode ==>
              var x, y := r.resource.resource, o.resource.resource;
              && (x.typeName != y.typeName ==> (InstanceLess(r, o) <==> StringLess(x.typeName, y.typeName)))
              && (x.typeName == y.typeName && x.name != y.name ==> (InstanceLess(r, o) <==> StringLess(x.name, y.name)))
    ensures r.ContainingResource() == o.ContainingResource() ==>
              var k, l := r.resource.key, o.resource.key;
              && (k == NoKey && l != NoKey ==> InstanceLess(r, o))
              && (k.IntKey? && l.IntKey? ==> (InstanceLess(r, o) <==> k.index < l.index))
              && (k.WildcardKey? && (l.IntKey? || l.StringKey?) ==> InstanceLess(r, o))
              && (k.IntKey? && l.StringKey? ==> InstanceLess(r, o))
              && (k.StringKey? && l.StringKey? ==> (InstanceLess(r, o) <==> StringLess(k.text, l.text)))
  {
    StringLessTotal(if r.resource.key.StringKey? then r.resource.key.text else "",
                    if o.resource.key.StringKey? then o.resource.key.text else "");
  }

  // ---------- SetSortedNatural ----------

  /** A list of the members of a set in any order, each once: what ranging over a Go map yields. */
  ghost predicate Lists<T>(xs: seq<T>, s: set<T>) {
    multiset(xs) == multiset(s)
  }

  /** Whatever order the map is walked in, sorting yields one and the same strictly increasing list
      of the members. */
  lemma {:induction false} SortedNaturalIsCanonical(s: set<AbsResourceInstance>, walk: seq<AbsResourceInstance>,
                                                    walk': seq<AbsResourceInstance>,
                                                    x: seq<AbsResourceInstance>, y: seq<AbsResourceInstance>)
    requires (forall r | r in s :: Ordinary(r)) && (forall a, b | a in s && b in s :: Comparable(a, b))
    requires Lists(walk, s) && SortOf(InstanceLess, walk, x)
    requires Lists(walk', s) && SortOf(InstanceLess, walk', y)
    ensures x == y
    ensures (set r | r in x) == s
    ensures forall i, j | 0 <= i < j < |x| :: InstanceLess(x[i], x[j])
  {
    forall r ensures r in x <==> r in s {
      assert r in multiset(x) <==> r in multiset(s);
    }
    InstancesAreOrdered(s);
    SortIsUnique(InstanceLess, x, y);
    forall i, j | 0 <= i < j < |x| ensures InstanceLess(x[i], x[j]) {
      MembersOnce(x, s, i, j);
      assert x[i] in x && x[j] in x;
    }
  }

  /** Without that, two members of one module can come out in either order. */
  lemma {:induction false} IncomparablePairSortsBothWays(a: AbsResourceInstance, b: AbsResourceInstance)
    requires !Comparable(a, b)
    ensures Lists([a, b], {a, b}) && Lists([b, a], {a, b})
    ensures SortOf(InstanceLess, [a, b], [a, b]) && SortOf(InstanceLess, [b, a], [b, a]) && [a, b] != [b, a]
  {
    ModesDecideComparability(a.resource.resource, b.resource.resource);
    assert a != b && !InstanceLess(a, b) && !InstanceLess(b, a);
    assert [a, b][0] != [b, a][0];
  }

  /** A managed and an ephemeral resource in one module are such a pair. */
  lemma {:induction false} ManagedAndEphemeralAreIncomparable(path: ModuleInstance, r: Resource, o: Resource,
          k: InstanceKey, l: InstanceKey)
    requires r.mode == Managed && o.mode == Ephemeral
    ensures !Comparable(AbsResource(path, r).Instance(k), AbsResource(path, o).Instance(l))
  {
  }

  lemma {:induction false} MembersOnce<T>(x: seq<T>, s: set<T>, i: nat, j: nat)
    requires multiset(x) == multiset(s) && i < j < |x|
    ensures x[i] != x[j]
  {
    assert x == x[..i] + [x[i]] + x[i + 1..j] + [x[j]] + x[j + 1..];
    assert multiset(x)[x[i]] >= if x[i] == x[j] then 2 else 1;
    assert multiset(s)[x[i]] <= 1;
  }
}
