/** TargetContains between target addresses, and the test whether a target may select instances
    of a partially-expanded resource. */
module Targeting {
  import opened Addrs
  import opened Quoting
  import opened Printing
  import opened PartialExpanded

  datatype Target =
    | ModuleTarget(m: Module)
    | ModuleInstanceTarget(mi: ModuleInstance)
    | ConfigResourceTarget(c: ConfigResource)
    | ResourceTarget(r: AbsResource)
    | InstanceTarget(ri: AbsResourceInstance)

  predicate CleanTarget(t: Target) {
    match t
    case ModuleTarget(m) => CleanSteps(Printing.Unkeyed(m))
    case ModuleInstanceTarget(mi) => CleanSteps(mi)
    case ConfigResourceTarget(c) => CleanInstance(Widened(c))
    case ResourceTarget(r) => CleanInstance(r.Instance(NoKey))
    case InstanceTarget(ri) => CleanInstance(ri)
  }

  function Widened(c: ConfigResource): AbsResourceInstance {
    AbsResource(Printing.Unkeyed(c.path), c.resource).Instance(NoKey)
  }

  function ConfigOf(r: AbsResource): ConfigResource {
    ConfigResource(StaticModule(r.path), r.resource)
  }

  /** The target's own path, static paths read as unkeyed. */
  function TargetPath(t: Target): ModuleInstance {
    match t
    case ModuleTarget(m) => Printing.Unkeyed(m)
    case ModuleInstanceTarget(m) => m
    case ConfigResourceTarget(c) => Printing.Unkeyed(c.path)
    case ResourceTarget(r) => r.path
    case InstanceTarget(ri) => ri.path
  }

  // ---------- TargetContains ----------

  predicate UnkeyedPrefix(m: ModuleInstance, to: Module) {
    |m| <= |to| && forall i | 0 <= i < |m| :: m[i] == Step(to[i], NoKey)
  }

  /** A final step without a key stands for every instance of its call. */
  predicate InstancePrefix(m: ModuleInstance, to: ModuleInstance) {
    && |m| <= |to|
    && forall i | 0 <= i < |m| ::
         && m[i].name == to[i].name
         && (m[i].key == to[i].key || (i == |m| - 1 && m[i].key == NoKey))
  }

  method DecideUnkeyedPrefix(m: ModuleInstance, to: Module) returns (contained: bool)
    ensures contained <==> UnkeyedPrefix(m, to)
  {
    if |to| < |m| {
      return false;
    }
    for i := 0 to |m|
      invariant forall j | 0 <= j < i :: m[j] == Step(to[j], NoKey)
    {
      if m[i].key != NoKey {
        return false;
      }
      if m[i].name != to[i] {
        return false;
      }
    }
    return true;
  }

  method DecideInstancePrefix(m: ModuleInstance, to: ModuleInstance) returns (contained: bool)
    ensures contained <==> InstancePrefix(m, to)
  {
    if |to| < |m| {
      return false;
    }
    for i := 0 to |m|
      invariant forall j | 0 <= j < i :: m[j] == to[j]
    {
      if m[i].name != to[i].name {
        return false;
      }
      if i == |m| - 1 {
        if m[i].key == NoKey {
          return true;
        }
      }
      if m[i].key != to[i].key {
        return false;
      }
    }
    return true;
  }

  method DecideModulePrefix(m: Module, to: Module) returns (contained: bool)
    ensures contained <==> m <= to
  {
    if |to| < |m| {
      return false;
    }
    for i := 0 to |m|
      invariant m[..i] == to[..i]
    {
      if m[i] != to[i] {
        return false;
      }
    }
    return true;
  }

  predicate ModuleContains(m: Module, other: Target) {
    match other
    case ModuleTarget(to) => m <= to
    case ModuleInstanceTarget(to) => m <= StaticModule(to)
    case ConfigResourceTarget(to) => m <= to.path
    case ResourceTarget(to) => m <= StaticModule(to.path)
    case InstanceTarget(to) => m <= StaticModule(to.path)
  }

  predicate ModuleInstanceContains(m: ModuleInstance, other: Target) {
    match other
    case ModuleTarget(to) => UnkeyedPrefix(m, to)
    case ModuleInstanceTarget(to) => InstancePrefix(m, to)
    case ConfigResourceTarget(to) => UnkeyedPrefix(m, to.path)
    case ResourceTarget(to) => InstancePrefix(m, to.path)
    case InstanceTarget(to) => InstancePrefix(m, to.path)
  }

  predicate ResourceContains(r: AbsResource, other: Target, pr: Printable) {
    match other
    case ResourceTarget(to) => AbsResourceString(to, pr) == AbsResourceString(r, pr)
    case ConfigResourceTarget(to) => ConfigResourceString(to, pr) == AbsResourceString(r, pr)
    case InstanceTarget(to) => AbsResourceString(to.ContainingResource(), pr) == AbsResourceString(r, pr)
    case _ => false
  }

  predicate InstanceContains(r: AbsResourceInstance, other: Target, pr: Printable) {
    match other
    case InstanceTarget(to) => InstanceString(to, pr) == InstanceString(r, pr)
    case ConfigResourceTarget(to) => ConfigResourceString(to, pr) == InstanceString(r, pr)
    case ResourceTarget(to) => AbsResourceString(to, pr) == InstanceString(r, pr)
    case _ => false
  }

  predicate ConfigContains(c: ConfigResource, other: Target, pr: Printable) {
    match other
    case ConfigResourceTarget(to) => ConfigResourceString(to, pr) == ConfigResourceString(c, pr)
    case ResourceTarget(to) => ConfigResourceString(ConfigOf(to), pr) == ConfigResourceString(c, pr)
    case InstanceTarget(to) =>
      ConfigResourceString(ConfigOf(to.ContainingResource()), pr) == ConfigResourceString(c, pr)
    case _ => false
  }

  /** The TargetContains methods, dispatched on the receiver. */
  predicate Contains(t: Target, other: Target, pr: Printable) {
    match t
    case ModuleTarget(m) => ModuleContains(m, other)
    case ModuleInstanceTarget(m) => ModuleInstanceContains(m, other)
    case ConfigResourceTarget(c) => ConfigContains(c, other, pr)
    case ResourceTarget(r) => ResourceContains(r, other, pr)
    case InstanceTarget(ri) => InstanceContains(ri, other, pr)
  }

  // ---------- String equality is equality ----------

  lemma {:induction false} SameResourceText(r: AbsResource, s: AbsResource, pr: Printable)
    requires CleanInstance(r.Instance(NoKey)) && CleanInstance(s.Instance(NoKey))
    ensures AbsResourceString(r, pr) == AbsResourceString(s, pr) <==> r == s
  {
    UniqueKeysIdentify(ResourceAddress(r), ResourceAddress(s), pr);
  }

  lemma {:induction false} SameInstanceText(r: AbsResourceInstance, s: AbsResourceInstance, pr: Printable)
    requires CleanInstance(r) && CleanInstance(s)
    ensures InstanceString(r, pr) == InstanceString(s, pr) <==> r == s
  {
    UniqueKeysIdentify(InstanceAddress(r), InstanceAddress(s), pr);
  }

  lemma {:induction false} SameConfigText(c: ConfigResource, d: ConfigResource, pr: Printable)
    requires CleanInstance(Widened(c)) && CleanInstance(Widened(d))
    ensures ConfigResourceString(c, pr) == ConfigResourceString(d, pr) <==> c == d
  {
    UniqueKeysIdentify(ConfigResourceAddress(c), ConfigResourceAddress(d), pr);
  }

  // ---------- Containment without printing ----------

  predicate Static(t: Target) { t.ModuleTarget? || t.ConfigResourceTarget? }

  predicate ModuleKind(t: Target) { t.ModuleTarget? || t.ModuleInstanceTarget? }

  function ResourceOf(t: Target): Resource
    requires !ModuleKind(t)
  {
    match t
    case ConfigResourceTarget(c) => c.resource
    case ResourceTarget(r) => r.resource
    case InstanceTarget(ri) => ri.resource.resource
  }

  function KeyOf(t: Target): InstanceKey {
    if t.InstanceTarget? then t.ri.resource.key else NoKey
  }

  /** Containment of any two clean targets without any printing: paths and keys, a missing key
      printing like no key at all. */
  predicate PlainContains(a: Target, b: Target) {
    match a
    case ModuleTarget(m) => m <= StaticModule(TargetPath(b))
    case ModuleInstanceTarget(m) => InstancePrefix(m, TargetPath(b))
    case ConfigResourceTarget(c) =>
      !ModuleKind(b) && c.path == StaticModule(TargetPath(b)) && c.resource == ResourceOf(b)
    case ResourceTarget(r) => !ModuleKind(b) && r.path == TargetPath(b) && r.resource == ResourceOf(b)
    case InstanceTarget(ri) =>
      !ModuleKind(b) && ri == AbsResourceInstance(TargetPath(b), ResourceInstance(ResourceOf(b), KeyOf(b)))
  }

  lemma {:induction false} UnkeyedPath(names: Module, m: ModuleInstance)
    ensures StaticModule(Printing.Unkeyed(names)) == names
    ensures UnkeyedPrefix(m, names) <==> InstancePrefix(m, Printing.Unkeyed(names))
  {
  }

  /** What a resource-like target prints as. */
  function PrintedAs(t: Target): AbsResourceInstance
    requires !ModuleKind(t)
  {
    AbsResourceInstance(TargetPath(t), ResourceInstance(ResourceOf(t), KeyOf(t)))
  }

  function TargetString(t: Target, pr: Printable): string
    requires !ModuleKind(t)
  {
    match t
    case ConfigResourceTarget(c) => ConfigResourceString(c, pr)
    case ResourceTarget(r) => AbsResourceString(r, pr)
    case InstanceTarget(ri) => InstanceString(ri, pr)
  }

  lemma {:induction false} SameText(a: Target, b: Target, pr: Printable)
    requires CleanTarget(a) && CleanTarget(b) && !ModuleKind(a) && !ModuleKind(b)
    ensures TargetString(a, pr) == TargetString(b, pr) <==> PrintedAs(a) == PrintedAs(b)
  {
    assert TargetString(a, pr) == InstanceString(PrintedAs(a), pr);
    assert TargetString(b, pr) == InstanceString(PrintedAs(b), pr);
    SameInstanceText(PrintedAs(a), PrintedAs(b), pr);
  }

  lemma {:induction false} ConfigIsClean(t: Target)
    requires CleanTarget(t) && !ModuleKind(t)
    ensures CleanTarget(ConfigResourceTarget(ConfigResource(StaticModule(TargetPath(t)), ResourceOf(t))))
  {
    var names := StaticModule(TargetPath(t));
    forall i | 0 <= i < |names| ensures CleanStep(Printing.Unkeyed(names)[i]) {
      assert CleanStep(TargetPath(t)[i]);
    }
  }

  lemma {:induction false} ConfigContainment(c: ConfigResource, b: Target, pr: Printable)
    requires CleanTarget(ConfigResourceTarget(c)) && CleanTarget(b)
    ensures Contains(ConfigResourceTarget(c), b, pr) <==> PlainContains(ConfigResourceTarget(c), b)
  {
    if ModuleKind(b) {
    } else {
      var d := ConfigResource(StaticModule(TargetPath(b)), ResourceOf(b));
      ConfigIsClean(b);
      SameConfigText(d, c, pr);
      if b.ConfigResourceTarget? { UnkeyedPath(b.c.path, []); }
    }
  }

  lemma {:induction false} ResourceContainment(r: AbsResource, b: Target, pr: Printable)
    requires CleanTarget(ResourceTarget(r)) && CleanTarget(b)
    ensures Contains(ResourceTarget(r), b, pr) <==> PlainContains(ResourceTarget(r), b)
  {
    match b {
      case InstanceTarget(ri) => SameResourceText(ri.ContainingResource(), r, pr);
      case ModuleTarget(_) =>
      case ModuleInstanceTarget(_) =>
      case _ => SameText(b, ResourceTarget(r), pr);
    }
  }

  /** The dispatch of TargetContains computes PlainContains. */
  lemma {:induction false} CleanContainment(a: Target, b: Target, pr: Printable)
    requires CleanTarget(a) && CleanTarget(b)
    ensures Contains(a, b, pr) <==> PlainContains(a, b)
  {
    if Static(b) {
      UnkeyedPath(if b.ModuleTarget? then b.m else b.c.path, if a.ModuleInstanceTarget? then a.mi else []);
    }
    match a {
      case ConfigResourceTarget(c) => ConfigContainment(c, b, pr);
      case ResourceTarget(r) => ResourceContainment(r, b, pr);
      case InstanceTarget(ri) => if !ModuleKind(b) { SameText(b, a, pr); }
      case _ =>
    }
  }

  // ---------- Containment is a partial order on parsed targets ----------

  /** What parseTarget returns on identifier names: a resource instance always has a key. */
  predicate Parsed(t: Target) {
    && CleanTarget(t)
    && !t.ModuleTarget? && !t.ConfigResourceTarget?
    && (t.InstanceTarget? ==> t.ri.resource.key != NoKey)
  }

  /** Containment between parsed targets. */
  lemma {:induction false} ParsedContainment(a: Target, b: Target, pr: Printable)
    requires Parsed(a) && Parsed(b)
    ensures Contains(a, b, pr) <==>
            match a
            case ModuleInstanceTarget(m) => InstancePrefix(m, TargetPath(b))
            case ResourceTarget(r) => a == b || (b.InstanceTarget? && b.ri.ContainingResource() == r)
            case InstanceTarget(ri) => a == b
            case _ => false
  {
    CleanContainment(a, b, pr);
  }

  /** A module instance stands for everything below it, an unkeyed last step for every instance of
      that call. */
  lemma {:induction false} InstancePrefixMeaning(m: ModuleInstance, path: ModuleInstance)
    ensures InstancePrefix(m, path) <==> m == [] || exists k :: ReadsAs(m, k) <= path
  {
    if m == [] {
    } else {
      var n := |m| - 1;
      if InstancePrefix(m, path) {
        assert ReadsAs(m, path[n].key) == path[..n + 1];
      }
      if k :| ReadsAs(m, k) <= path {
        assert forall i | 0 <= i < |m| :: path[i] == ReadsAs(m, k)[i];
      }
    }
  }

  /** One instance path that m may stand for: the key k at an unkeyed last step. */
  function ReadsAs(m: ModuleInstance, k: InstanceKey): ModuleInstance
    requires m != []
  {
    var last := m[|m| - 1];
    m[..|m| - 1] + [if last.key == NoKey then Step(last.name, k) else last]
  }

  /** A resource instance in b that tells b from everything that does not contain it. */
  function Witness(a: Target, b: Target): AbsResourceInstance
    requires Parsed(a) && Parsed(b)
  {
    match b
    case InstanceTarget(ri) => ri
    case ResourceTarget(r) => r.Instance(NoKey)
    case _ =>
      var taken := if a.ResourceTarget? then a.r.resource.name else "";
      AbsResource(TargetPath(b), Resource(Managed, "", taken + "x")).Instance(NoKey)
  }

  /** Containment of parsed targets is inclusion of the resource instances they stand for, so
      targeting a container targets everything within it. */
  lemma {:induction false} ContainmentIsInclusion(a: Target, b: Target, pr: Printable)
    requires Parsed(a) && Parsed(b)
    ensures Contains(a, b, pr) <==>
            forall r | CleanInstance(r) && Contains(b, InstanceTarget(r), pr) :: Contains(a, InstanceTarget(r), pr)
  {
    ParsedContainment(a, b, pr);
    if Contains(a, b, pr) {
      forall r | CleanInstance(r) && Contains(b, InstanceTarget(r), pr) ensures Contains(a, InstanceTarget(r), pr) {
        CleanContainment(a, InstanceTarget(r), pr);
        CleanContainment(b, InstanceTarget(r), pr);
        InstancePrefixOrder(TargetPath(a), TargetPath(b), r.path);
      }
    }
    var w := Witness(a, b);
    assert CleanInstance(w);
    CleanContainment(a, InstanceTarget(w), pr);
    CleanContainment(b, InstanceTarget(w), pr);
    InstancePrefixOrder(TargetPath(b), TargetPath(b), TargetPath(b));
    assert PlainContains(b, InstanceTarget(w));
  }

  lemma {:induction false} InstancePrefixOrder(a: ModuleInstance, b: ModuleInstance, c: ModuleInstance)
    ensures InstancePrefix(a, a)
    ensures InstancePrefix(a, b) && InstancePrefix(b, a) ==> a == b
    ensures InstancePrefix(a, b) && InstancePrefix(b, c) ==> InstancePrefix(a, c)
  {
  }

  lemma {:induction false} ContainmentIsPartialOrder(a: Target, b: Target, c: Target, pr: Printable)
    requires Parsed(a) && Parsed(b) && Parsed(c)
    ensures Contains(a, a, pr)
    ensures Contains(a, b, pr) && Contains(b, a, pr) ==> a == b
    ensures Contains(a, b, pr) && Contains(b, c, pr) ==> Contains(a, c, pr)
  {
    ParsedContainment(a, a, pr);
    ParsedContainment(a, b, pr);
    ParsedContainment(b, a, pr);
    ParsedContainment(b, c, pr);
    ParsedContainment(a, c, pr);
    InstancePrefixOrder(TargetPath(a), TargetPath(b), TargetPath(c));
  }

  // ---------- All targets: where containment stops being an order ----------

  /** How many leading steps of a contained path must carry the receiver's own keys. */
  function KeyedDepth(t: Target): nat {
    match t
    case ModuleInstanceTarget(m) => if m == [] then 0 else |m| - 1
    case ResourceTarget(r) => |r.path|
    case InstanceTarget(ri) => |ri.path|
    case _ => 0
  }

  /** A static target in the middle forgets module keys, a whole one in the middle instance keys. */
  predicate NothingForgotten(a: Target, b: Target, c: Target) {
    && (Static(b) ==> forall i | 0 <= i < KeyedDepth(a) && i < |TargetPath(c)| :: TargetPath(c)[i].key == NoKey)
    && (a.InstanceTarget? && !b.InstanceTarget? ==> KeyOf(c) == NoKey)
  }

  /** Exactly when containment is transitive, over all target types. */
  lemma {:induction false} ContainmentComposes(a: Target, b: Target, c: Target, pr: Printable)
    requires CleanTarget(a) && CleanTarget(b) && CleanTarget(c)
    requires Contains(a, b, pr) && Contains(b, c, pr)
    ensures Contains(a, c, pr) <==> NothingForgotten(a, b, c)
  {
    CleanContainment(a, b, pr);
    CleanContainment(b, c, pr);
    CleanContainment(a, c, pr);
    PlainComposes(a, b, c);
  }

  lemma {:induction false} PlainComposes(a: Target, b: Target, c: Target)
    requires PlainContains(a, b) && PlainContains(b, c)
    ensures PlainContains(a, c) <==> NothingForgotten(a, b, c)
  {
    if Static(b) {
      StaticInTheMiddle(a, b, c);
    } else {
      InstancePrefixOrder(TargetPath(a), TargetPath(b), TargetPath(c));
      StaticPrefix(TargetPath(b), TargetPath(c));
    }
  }

  lemma {:induction false} StaticPrefix(m: ModuleInstance, path: ModuleInstance)
    ensures InstancePrefix(m, path) ==> StaticModule(m) <= StaticModule(path)
  {
  }

  lemma {:induction false} StaticInTheMiddle(a: Target, b: Target, c: Target)
    requires Static(b) && PlainContains(a, b) && PlainContains(b, c)
    ensures PlainContains(a, c) <==> NothingForgotten(a, b, c)
  {
    var p, q := TargetPath(a), TargetPath(c);
    UnkeyedPath(if b.ModuleTarget? then b.m else b.c.path, p);
    assert StaticModule(TargetPath(b)) <= StaticModule(q);
    if !Static(a) {
      forall i | 0 <= i < |p| ensures i < |q| && p[i].name == q[i].name && p[i].key == NoKey {
        assert StaticModule(TargetPath(b))[i] == StaticModule(q)[i];
      }
      if b.ConfigResourceTarget? && !a.ModuleInstanceTarget? {
        assert p == q <==> forall i | 0 <= i < |p| :: q[i].key == NoKey;
      }
    }
  }

  /** One target per printed form: the type of a target without keys does not show. */
  function Form(t: Target): (bool, ModuleInstance, Option<ResourceInstance>) {
    (ModuleKind(t), TargetPath(t), if ModuleKind(t) then None else Some(PrintedAs(t).resource))
  }

  /** Exactly when two targets contain each other: they differ at most in type. */
  lemma {:induction false} ContainmentIsMutual(a: Target, b: Target, pr: Printable)
    requires CleanTarget(a) && CleanTarget(b)
    ensures Contains(a, b, pr) && Contains(b, a, pr) <==> Form(a) == Form(b)
  {
    CleanContainment(a, b, pr);
    CleanContainment(b, a, pr);
    InstancePrefixOrder(TargetPath(a), TargetPath(b), TargetPath(b));
    InstancePrefixOrder(TargetPath(b), TargetPath(a), TargetPath(a));
    if Static(a) { UnkeyedPath(if a.ModuleTarget? then a.m else a.c.path, TargetPath(b)); }
    if Static(b) { UnkeyedPath(if b.ModuleTarget? then b.m else b.c.path, TargetPath(a)); }
    if ModuleKind(a) && ModuleKind(b) && PlainContains(a, b) && PlainContains(b, a) {
      assert |TargetPath(a)| == |TargetPath(b)|;
      assert TargetPath(a) == TargetPath(b);
    }
  }

  /** The three ways to forget a key: a static module, a configuration resource, a whole resource. */
  lemma {:induction false} StaticModulesBreakTransitivity(pr: Printable)
    ensures var a := ModuleInstanceTarget([Step("a", NoKey), Step("b", NoKey)]);
            var b := ModuleTarget(["a", "b"]);
            var c := ModuleInstanceTarget([Step("a", IntKey(0)), Step("b", NoKey)]);
            Contains(a, b, pr) && Contains(b, c, pr) && !Contains(a, c, pr)
  {
    var a, c := [Step("a", NoKey), Step("b", NoKey)], [Step("a", IntKey(0)), Step("b", NoKey)];
    assert a[0].key != c[0].key;
    assert StaticModule(c) == ["a", "b"];
  }

  lemma {:induction false} WholeResourcesBreakTransitivity(res: Resource, pr: Printable)
    requires CleanName(res.typeName) && CleanName(res.name)
    ensures var a := ResourceTarget(AbsResource([Step("m", NoKey)], res));
            var b := ConfigResourceTarget(ConfigResource(["m"], res));
            var c := ResourceTarget(AbsResource([Step("m", IntKey(0))], res));
            Contains(a, b, pr) && Contains(b, c, pr) && !Contains(a, c, pr)
    ensures var a := InstanceTarget(AbsResource([], res).Instance(NoKey));
            var b := ResourceTarget(AbsResource([], res));
            var c := InstanceTarget(AbsResource([], res).Instance(IntKey(0)));
            Contains(a, b, pr) && Contains(b, c, pr) && !Contains(a, c, pr)
  {
    var a := ResourceTarget(AbsResource([Step("m", NoKey)], res));
    var b := ConfigResourceTarget(ConfigResource(["m"], res));
    var c := ResourceTarget(AbsResource([Step("m", IntKey(0))], res));
    assert TargetPath(b) == a.r.path && StaticModule(c.r.path) == ["m"];
    CleanContainment(a, b, pr);
    CleanContainment(b, c, pr);
    CleanContainment(a, c, pr);
    var a' := InstanceTarget(AbsResource([], res).Instance(NoKey));
    var c' := InstanceTarget(AbsResource([], res).Instance(IntKey(0)));
    var b' := ResourceTarget(AbsResource([], res));
    CleanContainment(a', b', pr);
    CleanContainment(b', c', pr);
    CleanContainment(a', c', pr);
  }

  // ---------- IsTargetedBy ----------

  method CompareModule(p: PartialModule, names: Module) returns (may: bool)
    ensures may <==> names <= StaticPath(p)
  {
    for i := 0 to |names|
      invariant i <= |StaticPath(p)| && names[..i] == StaticPath(p)[..i]
    {
      if i >= |p.prefix| {
        var ix := i - |p.prefix|;
        if ix >= |p.suffix| {
          return false;
        }
        if names[i] != p.suffix[ix] {
          assert StaticPath(p)[i] != names[i];
          return false;
        }
      } else if names[i] != p.prefix[i].name {
        assert StaticPath(p)[i] != names[i];
        return false;
      }
    }
    assert names[..|names|] == names;
    return true;
  }

  /** Keys matter only inside the known prefix, and a step without a key fits any. */
  predicate KeysMayFit(p: PartialModule, inst: ModuleInstance) {
    forall i | 0 <= i < |inst| && i < |p.prefix| :: inst[i].key == NoKey || inst[i].key == p.prefix[i].key
  }

  method CompareModuleInstance(p: PartialModule, inst: ModuleInstance) returns (may: bool)
    ensures may <==> StaticModule(inst) <= StaticPath(p) && KeysMayFit(p, inst)
  {
    for i := 0 to |inst|
      invariant i <= |StaticPath(p)| && StaticModule(inst)[..i] == StaticPath(p)[..i]
      invariant forall j | 0 <= j < i && j < |p.prefix| :: inst[j].key == NoKey || inst[j].key == p.prefix[j].key
    {
      if i >= |p.prefix| {
        var ix := i - |p.prefix|;
        if ix >= |p.suffix| {
          return false;
        }
        if inst[i].name != p.suffix[ix] {
          assert StaticPath(p)[i] != StaticModule(inst)[i];
          return false;
        }
      } else if inst[i].name != p.prefix[i].name || (inst[i].key != NoKey && inst[i].key != p.prefix[i].key) {
        assert inst[i].name != p.prefix[i].name ==> StaticPath(p)[i] != StaticModule(inst)[i];
        return false;
      }
    }
    assert StaticModule(inst)[..|inst|] == StaticModule(inst);
    return true;
  }

  predicate IsTargetedBy(per: PartialResource, t: Target) {
    match t
    case ConfigResourceTarget(c) => c.path <= StaticPath(per.inModule) && c.resource == per.resource
    case ResourceTarget(r) =>
      StaticModule(r.path) <= StaticPath(per.inModule) && KeysMayFit(per.inModule, r.path) && r.resource == per.resource
    case InstanceTarget(ri) =>
      && StaticModule(ri.path) <= StaticPath(per.inModule) && KeysMayFit(per.inModule, ri.path)
      && ri.resource.resource == per.resource
    case ModuleTarget(m) => m <= StaticPath(per.inModule)
    case ModuleInstanceTarget(m) => StaticModule(m) <= StaticPath(per.inModule) && KeysMayFit(per.inModule, m)
  }

  method DecideIsTargetedBy(per: PartialResource, t: Target) returns (may: bool)
    ensures may <==> IsTargetedBy(per, t)
  {
    match t {
      case ConfigResourceTarget(c) =>
        may := CompareModule(per.inModule, c.path);
        return may && c.resource == per.resource;
      case ResourceTarget(r) =>
        may := CompareModuleInstance(per.inModule, r.path);
        return may && r.resource == per.resource;
      case InstanceTarget(ri) =>
        may := CompareModuleInstance(per.inModule, ri.path);
        return may && ri.resource.resource == per.resource;
      case ModuleTarget(m) =>
        may := CompareModule(per.inModule, m);
      case ModuleInstanceTarget(m) =>
        may := CompareModuleInstance(per.inModule, m);
    }
  }

  /** PartialExpandedResource.MatchesInstance. */
  predicate MatchesResourceInstance(per: PartialResource, r: AbsResourceInstance) {
    MatchesInstance(per.inModule, r.path) && r.resource.resource == per.resource
  }

  predicate CleanPer(per: PartialResource) {
    CleanInstance(UnknownResourceInstance(per))
  }

  lemma {:induction false} PrefixFits(p: PartialModule, m: ModuleInstance, path: ModuleInstance)
    requires MatchesInstance(p, path) && InstancePrefix(m, path)
    ensures StaticModule(m) <= StaticPath(p) && KeysMayFit(p, m)
  {
    MatchedPath(p, path);
    assert StaticModule(m) == StaticModule(path)[..|m|];
    forall i | 0 <= i < |m| && i < |p.prefix| ensures m[i].key == NoKey || m[i].key == p.prefix[i].key {
      assert path[i] == path[..|p.prefix|][i];
    }
  }

  /** No missed targets: a target that contains any instance the pattern matches is reported. */
  lemma {:induction false} NoMissedTargets(per: PartialResource, t: Target, r: AbsResourceInstance, pr: Printable)
    requires CleanTarget(t) && CleanInstance(r)
    requires MatchesResourceInstance(per, r) && Contains(t, InstanceTarget(r), pr)
    ensures IsTargetedBy(per, t)
  {
    CleanContainment(t, InstanceTarget(r), pr);
    MatchedPath(per.inModule, r.path);
    if t.ModuleInstanceTarget? || t.ResourceTarget? || t.InstanceTarget? {
      PrefixFits(per.inModule, TargetPath(t), r.path);
    }
  }

  /** When a report is not a false alarm: resource targets must reach the pattern's own module,
      and every key but a final missing one must agree with the known prefix. */
  predicate Sharp(per: PartialResource, t: Target) {
    var n, path := |per.inModule.prefix|, TargetPath(t);
    match t
    case ModuleTarget(_) => true
    case ModuleInstanceTarget(_) => forall i | 0 <= i < |path| - 1 && i < n :: path[i].key == per.inModule.prefix[i].key
    case ConfigResourceTarget(_) => |path| == |StaticPath(per.inModule)|
    case _ =>
      && |path| == |StaticPath(per.inModule)|
      && forall i | 0 <= i < n :: path[i].key == per.inModule.prefix[i].key
  }

  /** The member of the pattern that follows the target's keys where the pattern leaves them open. */
  function Candidate(per: PartialResource, t: Target): AbsResourceInstance {
    var p, path := per.inModule, TargetPath(t);
    var steps := seq(|p.suffix|, i requires 0 <= i < |p.suffix| =>
      Step(p.suffix[i], if |p.prefix| + i < |path| then path[|p.prefix| + i].key else NoKey));
    AbsResourceInstance(p.prefix + steps, ResourceInstance(per.resource, KeyOf(t)))
  }

  lemma {:induction false} CandidateMatches(per: PartialResource, t: Target)
    requires CleanPer(per) && CleanTarget(t)
    ensures MatchesResourceInstance(per, Candidate(per, t)) && CleanInstance(Candidate(per, t))
  {
    var p, c := per.inModule, Candidate(per, t);
    assert c.path[..|p.prefix|] == p.prefix;
    assert StaticModule(c.path[|p.prefix|..]) == p.suffix;
    forall i | 0 <= i < |c.path| ensures CleanStep(c.path[i]) {
      assert CleanStep(UnknownModuleInstance(p)[i]);
      if |p.prefix| <= i < |TargetPath(t)| {
        assert CleanStep(TargetPath(t)[i]);
      }
    }
  }

  lemma {:induction false} CandidatePath(per: PartialResource, t: Target)
    requires StaticModule(TargetPath(t)) <= StaticPath(per.inModule)
    ensures var path, c := TargetPath(t), Candidate(per, t);
            && |path| <= |c.path|
            && forall i | 0 <= i < |path| ::
                 && path[i].name == c.path[i].name
                 && (i < |per.inModule.prefix| ==> c.path[i] == per.inModule.prefix[i])
                 && (i >= |per.inModule.prefix| ==> c.path[i].key == path[i].key)
  {
    var path, p := TargetPath(t), per.inModule;
    forall i | 0 <= i < |path| ensures path[i].name == Candidate(per, t).path[i].name {
      assert StaticModule(path)[i] == StaticPath(p)[i];
    }
  }

  lemma {:induction false} SharpModuleHolds(per: PartialResource, t: Target)
    requires t.ModuleInstanceTarget? && IsTargetedBy(per, t) && Sharp(per, t)
    ensures PlainContains(t, InstanceTarget(Candidate(per, t)))
  {
    CandidatePath(per, t);
  }

  lemma {:induction false} SharpResourceHolds(per: PartialResource, t: Target)
    requires (t.ResourceTarget? || t.InstanceTarget?) && IsTargetedBy(per, t) && Sharp(per, t)
    ensures PlainContains(t, InstanceTarget(Candidate(per, t)))
  {
    CandidatePath(per, t);
    assert TargetPath(t) == Candidate(per, t).path;
  }

  lemma {:induction false} SharpReportsHold(per: PartialResource, t: Target)
    requires IsTargetedBy(per, t) && Sharp(per, t) && MatchesResourceInstance(per, Candidate(per, t))
    ensures PlainContains(t, InstanceTarget(Candidate(per, t)))
  {
    match t {
      case ModuleInstanceTarget(_) => SharpModuleHolds(per, t);
      case ModuleTarget(_) => MatchedPath(per.inModule, Candidate(per, t).path);
      case ConfigResourceTarget(_) => MatchedPath(per.inModule, Candidate(per, t).path);
      case _ => SharpResourceHolds(per, t);
    }
  }

  /** Exactly when some instance of the pattern is contained in the target; for a static module
      target this is IsTargetedBy itself. */
  lemma {:induction false} TargetedExactly(per: PartialResource, t: Target, pr: Printable)
    requires CleanPer(per) && CleanTarget(t)
    ensures (exists r :: CleanInstance(r) && MatchesResourceInstance(per, r) && Contains(t, InstanceTarget(r), pr))
            <==> IsTargetedBy(per, t) && Sharp(per, t)
    ensures t.ModuleTarget? ==> Sharp(per, t)
  {
    if IsTargetedBy(per, t) && Sharp(per, t) {
      var c := Candidate(per, t);
      CandidateMatches(per, t);
      SharpReportsHold(per, t);
      CleanContainment(t, InstanceTarget(c), pr);
    }
    if r :| CleanInstance(r) && MatchesResourceInstance(per, r) && Contains(t, InstanceTarget(r), pr) {
      NoMissedTargets(per, t, r, pr);
      CleanContainment(t, InstanceTarget(r), pr);
      MatchedPath(per.inModule, r.path);
      assert forall i | 0 <= i < |per.inModule.prefix| :: r.path[i] == r.path[..|per.inModule.prefix|][i];
    }
  }

  /** What a report looks at: names all along the target's path, keys only where both are known. */
  predicate LooselyContains(t: Target, r: AbsResourceInstance) {
    var path := TargetPath(t);
    && |path| <= |r.path|
    && (forall i | 0 <= i < |path| ::
          path[i].name == r.path[i].name && (path[i].key == NoKey || path[i].key == r.path[i].key))
    && (!ModuleKind(t) ==> ResourceOf(t) == r.resource.resource)
  }

  /** IsTargetedBy exactly: some matched instance is contained once unkeyed steps stand for any
      instance, and resource targets for the resource in any descendant module as well. */
  lemma {:induction false} ReportsAreLooseContainment(per: PartialResource, t: Target)
    ensures IsTargetedBy(per, t) <==> exists r :: MatchesResourceInstance(per, r) && LooselyContains(t, r)
  {
    if IsTargetedBy(per, t) {
      CandidateIsLoose(per, t);
    }
    if r :| MatchesResourceInstance(per, r) && LooselyContains(t, r) {
      LooseIsReported(per, t, r);
    }
  }

  lemma {:induction false} CandidateIsLoose(per: PartialResource, t: Target)
    requires IsTargetedBy(per, t)
    ensures MatchesResourceInstance(per, Candidate(per, t)) && LooselyContains(t, Candidate(per, t))
  {
    var p, c := per.inModule, Candidate(per, t);
    assert c.path[..|p.prefix|] == p.prefix && StaticModule(c.path[|p.prefix|..]) == p.suffix;
    if Static(t) {
      UnkeyedPath(if t.ModuleTarget? then t.m else t.c.path, []);
    }
    CandidatePath(per, t);
  }

  lemma {:induction false} LooseIsReported(per: PartialResource, t: Target, r: AbsResourceInstance)
    requires MatchesResourceInstance(per, r) && LooselyContains(t, r)
    ensures IsTargetedBy(per, t)
  {
    var p, path := per.inModule, TargetPath(t);
    MatchedPath(p, r.path);
    if Static(t) {
      UnkeyedPath(if t.ModuleTarget? then t.m else t.c.path, []);
    }
    assert StaticModule(path) <= StaticModule(r.path) by {
      assert forall i | 0 <= i < |path| :: StaticModule(path)[i] == StaticModule(r.path)[i];
    }
    forall i | 0 <= i < |path| && i < |p.prefix| ensures path[i].key == NoKey || path[i].key == p.prefix[i].key {
      assert r.path[i] == r.path[..|p.prefix|][i];
    }
  }

  /** A false alarm: a resource target in an ancestor module is reported for every descendant. */
  lemma {:induction false} AncestorResourceIsReported()
    ensures var res := Resource(Managed, "t", "n");
            var per := PartialResource(PartialModule([], ["m"]), res);
            IsTargetedBy(per, ResourceTarget(AbsResource([], res))) && !Sharp(per, ResourceTarget(AbsResource([], res)))
  {
  }
}
