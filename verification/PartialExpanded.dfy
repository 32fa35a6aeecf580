/** Partially-expanded module and resource addresses: the sets of instances they match, their
    inclusion order, and the conversion to and from wildcard addresses. */
module PartialExpanded {
  import opened Addrs
  import opened Quoting
  import opened Printing

  datatype PartialModule = PartialModule(prefix: ModuleInstance, suffix: Module)
  datatype PartialResource = PartialResource(inModule: PartialModule, resource: Resource)

  function StaticPath(p: PartialModule): Module {
    StaticModule(p.prefix) + p.suffix
  }

  // ---------- Matching ----------

  predicate MatchesInstance(p: PartialModule, inst: ModuleInstance) {
    && |inst| == |p.prefix| + |p.suffix|
    && inst[..|p.prefix|] == p.prefix
    && InstanceOf(inst[|p.prefix|..], p.suffix)
  }

  method DecideMatchesInstance(p: PartialModule, inst: ModuleInstance) returns (matches: bool)
    ensures matches <==> MatchesInstance(p, inst)
  {
    if |inst| != |p.prefix| + |p.suffix| {
      return false;
    }
    if inst[..|p.prefix|] != p.prefix {
      return false;
    }
    var rest := inst[|p.prefix|..];
    for i := 0 to |p.suffix|
      invariant forall j | 0 <= j < i :: p.suffix[j] == StaticModule(rest)[j]
    {
      if p.suffix[i] != rest[i].name {
        return false;
      }
    }
    return true;
  }

  predicate MatchesPartial(p: PartialModule, other: PartialModule) {
    && StaticPath(p) == StaticPath(other)
    && |p.prefix| <= |other.prefix|
    && p.prefix == other.prefix[..|p.prefix|]
  }

  /** A member of the set p denotes, with one chosen key at every unknown step. */
  function Sample(p: PartialModule, key: InstanceKey): ModuleInstance {
    p.prefix + seq(|p.suffix|, i requires 0 <= i < |p.suffix| => Step(p.suffix[i], key))
  }

  lemma {:induction false} SampleMatches(p: PartialModule, key: InstanceKey)
    ensures MatchesInstance(p, Sample(p, key))
  {
    var m := Sample(p, key);
    assert m[..|p.prefix|] == p.prefix;
    assert StaticModule(m[|p.prefix|..]) == p.suffix;
  }

  lemma {:induction false} MatchedPath(p: PartialModule, m: ModuleInstance)
    requires MatchesInstance(p, m)
    ensures StaticModule(m) == StaticPath(p)
  {
    assert m == m[..|p.prefix|] + m[|p.prefix|..];
    StaticModuleAppend(m[..|p.prefix|], m[|p.prefix|..]);
  }

  lemma {:induction false} MatchByPath(p: PartialModule, m: ModuleInstance)
    requires StaticModule(m) == StaticPath(p) && |p.prefix| <= |m| && m[..|p.prefix|] == p.prefix
    ensures MatchesInstance(p, m)
  {
    assert StaticModule(m)[|p.prefix|..] == StaticModule(m[|p.prefix|..]);
    assert StaticPath(p)[|p.prefix|..] == p.suffix;
  }

  /** MatchesPartial decides inclusion of the two infinite sets of module instances. */
  lemma {:induction false} MatchesPartialIsInclusion(p: PartialModule, q: PartialModule)
    ensures MatchesPartial(p, q) <==> forall m | MatchesInstance(q, m) :: MatchesInstance(p, m)
  {
    if MatchesPartial(p, q) {
      forall m | MatchesInstance(q, m) ensures MatchesInstance(p, m) {
        MatchedPath(q, m);
        assert m[..|p.prefix|] == m[..|q.prefix|][..|p.prefix|];
        MatchByPath(p, m);
      }
    }
    if forall m | MatchesInstance(q, m) :: MatchesInstance(p, m) {
      var n := |q.prefix|;
      var key := if |p.prefix| > n && p.prefix[n].key == NoKey then WildcardKey else NoKey;
      var m := Sample(q, key);
      SampleMatches(q, key);
      assert MatchesInstance(p, m);
      MatchedPath(q, m);
      MatchedPath(p, m);
      assert q.prefix[..|p.prefix|] == m[..|p.prefix|];
    }
  }

  /** The real module instances alone already tell: it takes no wildcard among the members. */
  lemma {:induction false} MatchesPartialIsRealInclusion(p: PartialModule, q: PartialModule)
    requires RealPath(p.prefix) && RealPath(q.prefix)
    ensures MatchesPartial(p, q) <==> forall m | RealPath(m) && MatchesInstance(q, m) :: MatchesInstance(p, m)
  {
    MatchesPartialIsInclusion(p, q);
    if forall m | RealPath(m) && MatchesInstance(q, m) :: MatchesInstance(p, m) {
      var n := |q.prefix|;
      var key := if |p.prefix| > n && p.prefix[n].key == NoKey then IntKey(0) else NoKey;
      var m := Sample(q, key);
      SampleMatches(q, key);
      assert RealPath(m) && MatchesInstance(p, m);
      MatchedPath(q, m);
      MatchedPath(p, m);
      assert q.prefix[..|p.prefix|] == m[..|p.prefix|];
    }
  }

  lemma {:induction false} MatchesPartialIsPartialOrder(p: PartialModule, q: PartialModule, r: PartialModule)
    ensures MatchesPartial(p, p)
    ensures MatchesPartial(p, q) && MatchesPartial(q, p) ==> p == q
    ensures MatchesPartial(p, q) && MatchesPartial(q, r) ==> MatchesPartial(p, r)
  {
    MatchesPartialIsInclusion(p, q);
    MatchesPartialIsInclusion(q, r);
    MatchesPartialIsInclusion(p, r);
    if MatchesPartial(p, q) && MatchesPartial(q, p) {
      assert StaticPath(p)[|p.prefix|..] == p.suffix && StaticPath(q)[|p.prefix|..] == q.suffix;
    }
  }

  // ---------- Wildcard addresses ----------

  function Wildcards(names: Module): ModuleInstance {
    seq(|names|, i requires 0 <= i < |names| => Step(names[i], WildcardKey))
  }

  function UnknownModuleInstance(p: PartialModule): ModuleInstance {
    p.prefix + Wildcards(p.suffix)
  }

  method BuildUnknownModuleInstance(p: PartialModule) returns (base: ModuleInstance)
    ensures base == UnknownModuleInstance(p)
  {
    base := p.prefix;
    for i := 0 to |p.suffix|
      invariant base == p.prefix + Wildcards(p.suffix)[..i]
    {
      base := base + [Step(p.suffix[i], WildcardKey)];
    }
  }

  predicate NoWildcard(m: ModuleInstance) { forall i | 0 <= i < |m| :: m[i].key != WildcardKey }

  /** Once a step is a wildcard all later ones are. */
  predicate WildcardsTrail(m: ModuleInstance) {
    forall i, j | 0 <= i < j < |m| :: m[i].key == WildcardKey ==> m[j].key == WildcardKey
  }

  function Known(m: ModuleInstance): ModuleInstance {
    if m == [] then [] else
    var last := m[|m| - 1];
    Known(m[..|m| - 1]) + if last.key == WildcardKey then [] else [last]
  }

  function UnknownNames(m: ModuleInstance): Module {
    if m == [] then [] else
    var last := m[|m| - 1];
    UnknownNames(m[..|m| - 1]) + if last.key == WildcardKey then [last.name] else []
  }

  /** ModuleInstance.PartialModule. */
  function PartialOf(m: ModuleInstance): PartialModule {
    PartialModule(Known(m), UnknownNames(m))
  }

  method BuildPartialModule(m: ModuleInstance) returns (p: PartialModule)
    ensures p == PartialOf(m)
  {
    p := PartialModule([], []);
    for i := 0 to |m|
      invariant p == PartialOf(m[..i])
    {
      assert m[..i + 1][..i] == m[..i];
      if m[i].key == WildcardKey {
        p := p.(suffix := p.suffix + [m[i].name]);
      } else {
        p := p.(prefix := p.prefix + [m[i]]);
      }
    }
    assert m[..|m|] == m;
  }

  lemma {:induction false} PartialOfLast(m: ModuleInstance, s: Step)
    ensures Known(m + [s]) == Known(m) + if s.key == WildcardKey then [] else [s]
    ensures UnknownNames(m + [s]) == UnknownNames(m) + if s.key == WildcardKey then [s.name] else []
  {
    assert (m + [s])[..|m|] == m;
  }

  lemma {:induction false} KnownOfAppend(a: ModuleInstance, b: ModuleInstance)
    ensures Known(a + b) == Known(a) + Known(b)
    decreases |b|
  {
    if b == [] {
      assert a + b == a;
    } else {
      var init, last := b[..|b| - 1], b[|b| - 1];
      KnownOfAppend(a, init);
      assert (a + b)[..|a + b| - 1] == a + init && (a + b)[|a + b| - 1] == last;
      Regroup(Known(a), Known(init), [last]);
      Regroup(Known(a), Known(init), []);
    }
  }

  lemma {:induction false} UnknownNamesOfAppend(a: ModuleInstance, b: ModuleInstance)
    ensures UnknownNames(a + b) == UnknownNames(a) + UnknownNames(b)
    decreases |b|
  {
    if b == [] {
      assert a + b == a;
    } else {
      var init, last := b[..|b| - 1], b[|b| - 1];
      UnknownNamesOfAppend(a, init);
      assert (a + b)[..|a + b| - 1] == a + init && (a + b)[|a + b| - 1] == last;
      Regroup(UnknownNames(a), UnknownNames(init), [last.name]);
      Regroup(UnknownNames(a), UnknownNames(init), []);
    }
  }

  lemma {:induction false} KnownHasNoWildcard(m: ModuleInstance)
    ensures NoWildcard(Known(m))
  {
    if m == [] {
    } else {
      KnownHasNoWildcard(m[..|m| - 1]);
    }
  }

  lemma {:induction false} PartialOfKnown(m: ModuleInstance)
    requires NoWildcard(m)
    ensures PartialOf(m) == PartialModule(m, [])
  {
    if m == [] {
    } else {
      PartialOfKnown(m[..|m| - 1]);
    }
  }

  lemma {:induction false} PartialOfWildcards(names: Module)
    ensures PartialOf(Wildcards(names)) == PartialModule([], names)
  {
    if names == [] {
    } else {
      var init := names[..|names| - 1];
      assert Wildcards(names)[..|names| - 1] == Wildcards(init);
      PartialOfWildcards(init);
      assert names == init + [names[|names| - 1]];
    }
  }

  /** PartialModule undoes UnknownModuleInstance exactly when the known prefix has no wildcard. */
  lemma {:induction false} PartialUndoesUnknown(p: PartialModule)
    ensures PartialOf(UnknownModuleInstance(p)) == p <==> NoWildcard(p.prefix)
  {
    KnownHasNoWildcard(UnknownModuleInstance(p));
    KnownOfAppend(p.prefix, Wildcards(p.suffix));
    UnknownNamesOfAppend(p.prefix, Wildcards(p.suffix));
    PartialOfWildcards(p.suffix);
    if NoWildcard(p.prefix) {
      PartialOfKnown(p.prefix);
    }
  }

  lemma {:induction false} UnknownOfTrailing(m: ModuleInstance)
    requires WildcardsTrail(m)
    ensures UnknownModuleInstance(PartialOf(m)) == m
  {
    if m == [] {
    } else {
      var init, last := m[..|m| - 1], m[|m| - 1];
      PartialOfLast(init, last);
      assert m == init + [last];
      if last.key == WildcardKey {
        UnknownOfTrailing(init);
        var names := UnknownNames(init);
        assert Wildcards(names + [last.name]) == Wildcards(names) + [last];
        Regroup(Known(init), Wildcards(names), [last]);
        assert Known(m) == Known(init);
      } else {
        PartialOfKnown(m);
      }
    }
  }

  lemma {:induction false} UnknownTrails(p: PartialModule)
    requires NoWildcard(p.prefix)
    ensures WildcardsTrail(UnknownModuleInstance(p))
  {
  }

  /** The converse holds exactly when all wildcards of the address trail. */
  lemma {:induction false} UnknownUndoesPartial(m: ModuleInstance)
    ensures UnknownModuleInstance(PartialOf(m)) == m <==> WildcardsTrail(m)
  {
    KnownHasNoWildcard(m);
    UnknownTrails(PartialOf(m));
    if WildcardsTrail(m) {
      UnknownOfTrailing(m);
    }
  }

  // ---------- Texts and unique keys ----------

  lemma {:induction false} UnknownGrows(p: PartialModule, i: nat)
    requires i < |p.suffix|
    ensures UnknownModuleInstance(PartialModule(p.prefix, p.suffix[..i + 1])) ==
            UnknownModuleInstance(PartialModule(p.prefix, p.suffix[..i])) + [Step(p.suffix[i], WildcardKey)]
  {
  }

  /** PartialExpandedModule.String prints the wildcard address. */
  method PrintPartialModule(p: PartialModule, pr: Printable) returns (out: string)
    ensures out == ModuleString(UnknownModuleInstance(p), pr)
  {
    out := "";
    if |p.prefix| != 0 {
      out := PrintModuleInstance(p.prefix, pr);
    }
    assert UnknownModuleInstance(PartialModule(p.prefix, p.suffix[..0])) == p.prefix;
    for i := 0 to |p.suffix|
      invariant out == ModuleString(UnknownModuleInstance(PartialModule(p.prefix, p.suffix[..i])), pr)
    {
      var name := p.suffix[i];
      UnknownGrows(p, i);
      ModuleStringGrows(UnknownModuleInstance(PartialModule(p.prefix, p.suffix[..i])), Step(name, WildcardKey), pr);
      if i > 0 || |p.prefix| != 0 {
        out := out + ".";
      } else {
        assert out + "" == out;
      }
      out := out + "module.";
      out := out + name;
      out := out + "[*]";
    }
    assert p.suffix[..|p.suffix|] == p.suffix;
  }

  function UnknownResourceInstance(per: PartialResource): AbsResourceInstance {
    AbsResource(UnknownModuleInstance(per.inModule), per.resource).Instance(WildcardKey)
  }

  datatype PartialKey = AsAbsResource(s: string) | AsPartialResource(s: string)

  /** PartialExpandedResource.UniqueKey: shared with AbsResource when the module path is known. */
  function PartialUniqueKey(per: PartialResource, pr: Printable): PartialKey {
    if per.inModule.suffix == [] then
      AsAbsResource(AbsResourceString(AbsResource(per.inModule.prefix, per.resource), pr))
    else
      AsPartialResource(InstanceString(UnknownResourceInstance(per), pr))
  }

  predicate CleanPartial(per: PartialResource) {
    CleanInstance(UnknownResourceInstance(per)) && NoWildcard(per.inModule.prefix)
  }

  lemma {:induction false} PartialKeysIdentify(a: PartialResource, b: PartialResource, pr: Printable)
    requires CleanPartial(a) && CleanPartial(b)
    ensures PartialUniqueKey(a, pr) == PartialUniqueKey(b, pr) <==> a == b
  {
    PartialUndoesUnknown(a.inModule);
    PartialUndoesUnknown(b.inModule);
    if PartialUniqueKey(a, pr) == PartialUniqueKey(b, pr) {
      if a.inModule.suffix == [] {
        var x, y := AbsResource(a.inModule.prefix, a.resource), AbsResource(b.inModule.prefix, b.resource);
        assert UnknownModuleInstance(a.inModule) == x.path && UnknownModuleInstance(b.inModule) == y.path;
        InstanceStringInjective(x.Instance(NoKey), y.Instance(NoKey), pr);
      } else {
        InstanceStringInjective(UnknownResourceInstance(a), UnknownResourceInstance(b), pr);
      }
    }
  }

  /** A resource in a known module has the key of that very resource, and no other pattern has. */
  lemma {:induction false} KnownResourcesShareTheirKey(per: PartialResource, r: AbsResource, pr: Printable)
    requires CleanPartial(per) && CleanInstance(r.Instance(NoKey))
    ensures PartialUniqueKey(per, pr) == AsAbsResource(AbsResourceString(r, pr)) <==>
            per == PartialResource(PartialModule(r.path, []), r.resource)
  {
    if per.inModule.suffix == [] {
      var x := AbsResource(per.inModule.prefix, per.resource);
      assert UnknownModuleInstance(per.inModule) == x.path;
      UniqueKeysIdentify(ResourceAddress(x), ResourceAddress(r), pr);
    }
  }

  /** Any other pattern has the text of its wildcard address as key. */
  lemma {:induction false} UnknownResourcesHaveTheirOwnKey(per: PartialResource, pr: Printable)
    ensures PartialUniqueKey(per, pr).AsPartialResource? <==> per.inModule.suffix != []
    ensures per.inModule.suffix != [] ==>
              PartialUniqueKey(per, pr).s == InstanceString(UnknownResourceInstance(per), pr)
  {
  }
}
