/** Move endpoints: the pattern each one denotes, unification of the two ends of a statement,
    and the selection, chaining and nesting decisions made on the patterns. */
module MoveEndpoints {
  import opened Addrs

  /** AbsMoveable, used both for absolute addresses and for addresses relative to the
      module that declares a statement. */
  datatype Moveable =
    | ModuleInstanceAddr(inst: ModuleInstance)
    | ModuleCallAddr(call: AbsModuleCall)
    | ResourceAddr(res: AbsResource)
    | ResourceInstanceAddr(resInst: AbsResourceInstance)
  {
    predicate ModuleKind() { ModuleInstanceAddr? || ModuleCallAddr? }

    /** The module steps written out in the address, a final call name excluded. */
    function Path(): ModuleInstance {
      match this
      case ModuleInstanceAddr(m) => m
      case ModuleCallAddr(c) => c.path
      case ResourceAddr(r) => r.path
      case ResourceInstanceAddr(r) => r.path
    }

    predicate SameType(other: Moveable) {
      && ModuleInstanceAddr? == other.ModuleInstanceAddr?
      && ModuleCallAddr? == other.ModuleCallAddr?
      && ResourceAddr? == other.ResourceAddr?
    }

    /** A whole call or resource read as its single unkeyed instance. */
    function Unkeyed(): Moveable {
      match this
      case ModuleCallAddr(c) => ModuleInstanceAddr(c.Instance(NoKey))
      case ResourceAddr(r) => ResourceInstanceAddr(r.Instance(NoKey))
      case _ => this
    }
  }

  /** MoveEndpointInModule: a relative subject seen from every instance of a static module. */
  datatype Endpoint = Endpoint(base: Module, sub: Moveable) {
    /** Subjects come from parsed addresses: never the root module, never the private wildcard. */
    predicate WellFormed() {
      && (sub.ModuleInstanceAddr? ==> sub.inst != [])
      && NoAnyKey(sub.Path())
      && (sub.ResourceInstanceAddr? ==> !sub.resInst.resource.key.AnyKey?)
    }

    predicate SameStatement(other: Endpoint) {
      base == other.base && sub.SameType(other.sub)
    }
  }

  // ---------- What an endpoint denotes ----------

  /** One concrete object of the statement, below the instance p of the declaring module. */
  function InModuleInstance(e: Endpoint, p: ModuleInstance): Moveable
    requires |p| == |e.base|
  {
    match e.sub
    case ModuleInstanceAddr(m) => ModuleInstanceAddr(p + m)
    case ModuleCallAddr(c) => ModuleCallAddr(AbsModuleCall(p + c.path, c.call))
    case ResourceAddr(r) => ResourceAddr(AbsResource(p + r.path, r.resource))
    case ResourceInstanceAddr(r) => ResourceInstanceAddr(AbsResourceInstance(p + r.path, r.resource))
  }

  /** The resource instance r is part of the absolute object a. */
  ghost predicate PartOf(r: AbsResourceInstance, a: Moveable) {
    match a
    case ModuleInstanceAddr(m) => m <= r.path
    case ModuleCallAddr(c) => exists k :: c.Instance(k) <= r.path
    case ResourceAddr(res) => r.ContainingResource() == res
    case ResourceInstanceAddr(ri) => r == ri
  }

  /** The denotation: r belongs to the statement's object in some instance of its module. */
  ghost predicate Covers(e: Endpoint, r: AbsResourceInstance) {
    exists p :: InstanceOf(p, e.base) && PartOf(r, InModuleInstance(e, p))
  }

  // ---------- Patterns with wildcard steps ----------

  function Wild(names: Module): ModuleInstance {
    seq(|names|, i requires 0 <= i < |names| => Step(names[i], AnyKey))
  }

  /** What synthModuleInstance builds: the declaring module and a final call become wildcards. */
  function Synth(e: Endpoint): ModuleInstance {
    Wild(e.base) + e.sub.Path() + if e.sub.ModuleCallAddr? then [Step(e.sub.call.call, AnyKey)] else []
  }

  predicate StepFits(pattern: Step, step: Step) {
    pattern.name == step.name && (pattern.key == AnyKey || pattern.key == step.key)
  }

  predicate Fits(pattern: ModuleInstance, m: ModuleInstance) {
    |pattern| <= |m| && forall i | 0 <= i < |pattern| :: StepFits(pattern[i], m[i])
  }

  predicate StepsMeet(a: Step, b: Step) {
    a.name == b.name && (a.key == AnyKey || b.key == AnyKey || a.key == b.key)
  }

  predicate Meet(a: ModuleInstance, b: ModuleInstance)
    requires |a| <= |b|
  {
    forall i | 0 <= i < |a| :: StepsMeet(a[i], b[i])
  }

  /** The denotation in pattern form. */
  predicate FitsPattern(e: Endpoint, r: AbsResourceInstance) {
    && Fits(Synth(e), r.path)
    && (!e.sub.ModuleKind() ==> |Synth(e)| == |r.path|)
    && (e.sub.ResourceAddr? ==> e.sub.res.resource == r.resource.resource)
    && (e.sub.ResourceInstanceAddr? ==> e.sub.resInst.resource == r.resource)
  }

  method SynthModuleInstance(e: Endpoint) returns (inst: ModuleInstance)
    ensures inst == Synth(e)
  {
    inst := [];
    for i := 0 to |e.base|
      invariant inst == Wild(e.base)[..i]
    {
      inst := inst + [Step(e.base[i], AnyKey)];
    }
    match e.sub {
      case ModuleInstanceAddr(m) => inst := inst + m;
      case ModuleCallAddr(c) =>
        inst := inst + c.path;
        inst := inst + [Step(c.call, AnyKey)];
      case ResourceAddr(r) => inst := inst + r.path;
      case ResourceInstanceAddr(r) => inst := inst + r.path;
    }
  }

  /** SelectsModule: the same length as the pattern, every step fitting it. */
  predicate SelectsModule(e: Endpoint, m: ModuleInstance) {
    |Synth(e)| == |m| && Fits(Synth(e), m)
  }

  method DecideSelectsModule(e: Endpoint, m: ModuleInstance) returns (selected: bool)
    ensures selected <==> SelectsModule(e, m)
  {
    var synth := SynthModuleInstance(e);
    if |synth| != |m| {
      return false;
    }
    for i := 0 to |synth|
      invariant forall j | 0 <= j < i :: StepFits(synth[j], m[j])
    {
      if synth[i].key == AnyKey {
        if synth[i].name != m[i].name {
          return false;
        }
      } else if synth[i] != m[i] {
        return false;
      }
    }
    return true;
  }

  predicate SelectsResource(e: Endpoint, r: AbsResource) {
    && !e.sub.ModuleKind()
    && SelectsModule(e, r.path)
    && r.resource == (if e.sub.ResourceAddr? then e.sub.res.resource else e.sub.resInst.resource.resource)
  }

  method ModuleInstanceCanMatch(a: ModuleInstance, b: ModuleInstance) returns (can: bool)
    requires |a| <= |b|
    ensures can <==> Meet(a, b)
  {
    for i := 0 to |a|
      invariant forall j | 0 <= j < i :: StepsMeet(a[j], b[j])
    {
      if a[i].key == AnyKey || b[i].key == AnyKey {
        if a[i].name != b[i].name {
          return false;
        }
      } else if a[i] != b[i] {
        return false;
      }
    }
    return true;
  }

  predicate CanChainFrom(e: Endpoint, other: Endpoint) {
    && |Synth(e)| == |Synth(other)|
    && Meet(Synth(other), Synth(e))
    && match (other.sub, e.sub)
       case (ModuleCallAddr(_), ModuleCallAddr(_)) => true
       case (ModuleCallAddr(_), ModuleInstanceAddr(_)) => true
       case (ModuleInstanceAddr(_), ModuleCallAddr(_)) => true
       case (ModuleInstanceAddr(_), ModuleInstanceAddr(_)) => true
       case (ResourceAddr(o), ResourceAddr(r)) => r.resource == o.resource
       case (ResourceInstanceAddr(o), ResourceInstanceAddr(r)) => r.resource == o.resource
       case _ => false
  }

  predicate NestedWithin(e: Endpoint, other: Endpoint) {
    && |Synth(other)| <= |Synth(e)|
    && Meet(Synth(other), Synth(e))
    && match other.sub
       case ModuleCallAddr(_) => e.sub.ModuleCallAddr? ==> |Synth(e)| > |Synth(other)|
       case ModuleInstanceAddr(_) => e.sub.ModuleKind() ==> |Synth(e)| > |Synth(other)|
       case ResourceAddr(o) =>
         && |Synth(e)| == |Synth(other)|
         && e.sub.ResourceInstanceAddr?
         && e.sub.resInst.resource.resource == o.resource
       case ResourceInstanceAddr(_) => false
  }

  // ---------- The decisions agree with the denotation ----------

  /** What a covered path starts with, given the instance p of the declaring module. */
  function Head(e: Endpoint, p: ModuleInstance, k: InstanceKey): ModuleInstance {
    p + e.sub.Path() + if e.sub.ModuleCallAddr? then [Step(e.sub.call.call, k)] else []
  }

  lemma {:induction false} HeadFits(e: Endpoint, p: ModuleInstance, k: InstanceKey, m: ModuleInstance)
    requires InstanceOf(p, e.base) && Head(e, p, k) <= m
    ensures Fits(Synth(e), m)
  {
    var h := Head(e, p, k);
    forall i | 0 <= i < |Synth(e)| ensures StepFits(Synth(e)[i], m[i]) {
      assert m[i] == h[i];
    }
  }

  lemma {:induction false} FittingHasHead(e: Endpoint, m: ModuleInstance) returns (p: ModuleInstance, k: InstanceKey)
    requires e.WellFormed() && Fits(Synth(e), m)
    ensures InstanceOf(p, e.base) && Head(e, p, k) == m[..|Synth(e)|]
  {
    var b, n := |e.base|, |Synth(e)|;
    p := m[..b];
    k := if e.sub.ModuleCallAddr? then m[n - 1].key else NoKey;
    forall i | 0 <= i < n ensures Head(e, p, k)[i] == m[i] && (i < b ==> p[i].name == e.base[i]) {
      assert StepFits(Synth(e)[i], m[i]);
      if b <= i < b + |e.sub.Path()| {
        assert Synth(e)[i] == e.sub.Path()[i - b];
      }
    }
    assert StaticModule(p) == e.base;
  }

  lemma {:induction false} CoversIsFitsPattern(e: Endpoint, r: AbsResourceInstance)
    requires e.WellFormed()
    ensures Covers(e, r) <==> FitsPattern(e, r)
  {
    if FitsPattern(e, r) {
      var p, k := FittingHasHead(e, r.path);
      if e.sub.ModuleCallAddr? {
        assert InModuleInstance(e, p).call.Instance(k) == Head(e, p, k);
      } else {
        assert p + e.sub.Path() == Head(e, p, k);
      }
      assert PartOf(r, InModuleInstance(e, p));
    }
    if Covers(e, r) {
      var p :| InstanceOf(p, e.base) && PartOf(r, InModuleInstance(e, p));
      var k := NoKey;
      if e.sub.ModuleCallAddr? {
        k :| InModuleInstance(e, p).call.Instance(k) <= r.path;
        assert InModuleInstance(e, p).call.Instance(k) == Head(e, p, k);
      } else {
        assert p + e.sub.Path() == Head(e, p, k);
      }
      HeadFits(e, p, k, r.path);
    }
  }

  /** The common path of two patterns that meet; unconstrained keys become NoKey. */
  function Merged(a: ModuleInstance, b: ModuleInstance): ModuleInstance
    requires |a| <= |b|
  {
    seq(|b|, i requires 0 <= i < |b| =>
      Step(b[i].name,
           if b[i].key != AnyKey then b[i].key else if i < |a| && a[i].key != AnyKey then a[i].key else NoKey))
  }

  lemma {:induction false} MergedFits(a: ModuleInstance, b: ModuleInstance)
    requires |a| <= |b| && Meet(a, b)
    ensures Fits(a, Merged(a, b)) && Fits(b, Merged(a, b))
  {
    forall i | 0 <= i < |a| ensures StepFits(a[i], Merged(a, b)[i]) {
      assert StepsMeet(a[i], b[i]);
    }
  }

  lemma {:induction false} FittingImpliesMeeting(a: ModuleInstance, b: ModuleInstance, m: ModuleInstance)
    requires Fits(a, m) && Fits(b, m) && |a| <= |b|
    ensures Meet(a, b)
  {
    forall i | 0 <= i < |a| ensures StepsMeet(a[i], b[i]) {
      assert StepFits(a[i], m[i]) && StepFits(b[i], m[i]);
    }
  }

  lemma {:induction false} MeetIsSymmetric(a: ModuleInstance, b: ModuleInstance)
    requires |a| == |b|
    ensures Meet(a, b) <==> Meet(b, a)
  {
    assert forall i | 0 <= i < |a| :: StepsMeet(a[i], b[i]) <==> StepsMeet(b[i], a[i]);
  }

  predicate Related(a: Endpoint, b: Endpoint) {
    CanChainFrom(a, b) || NestedWithin(a, b) || NestedWithin(b, a)
  }

  lemma {:induction false} RelatedIsSymmetric(a: Endpoint, b: Endpoint)
    ensures CanChainFrom(a, b) <==> CanChainFrom(b, a)
    ensures Related(a, b) <==> Related(b, a)
  {
    if |Synth(a)| == |Synth(b)| {
      MeetIsSymmetric(Synth(a), Synth(b));
    }
  }

  /** A resource instance that both patterns cover, for |Synth(a)| <= |Synth(b)|. */
  function CommonInstance(a: Endpoint, b: Endpoint): AbsResourceInstance
    requires |Synth(a)| <= |Synth(b)|
  {
    var path := Merged(Synth(a), Synth(b));
    if a.sub.ResourceInstanceAddr? then AbsResourceInstance(path, a.sub.resInst.resource)
    else if b.sub.ResourceInstanceAddr? then AbsResourceInstance(path, b.sub.resInst.resource)
    else if a.sub.ResourceAddr? then AbsResource(path, a.sub.res.resource).Instance(NoKey)
    else if b.sub.ResourceAddr? then AbsResource(path, b.sub.res.resource).Instance(NoKey)
    else AbsResource(path, Resource(Managed, "", "")).Instance(NoKey)
  }

  lemma {:induction false} OverlapIsDecidedOrdered(a: Endpoint, b: Endpoint)
    requires a.WellFormed() && b.WellFormed() && |Synth(a)| <= |Synth(b)|
    ensures Related(a, b) ==> Covers(a, CommonInstance(a, b)) && Covers(b, CommonInstance(a, b))
    ensures (exists r :: Covers(a, r) && Covers(b, r)) ==> Related(a, b)
  {
    RelatedIsSymmetric(a, b);
    var w := CommonInstance(a, b);
    CoversIsFitsPattern(a, w);
    CoversIsFitsPattern(b, w);
    if Related(a, b) {
      assert Meet(Synth(a), Synth(b)) by {
        if |Synth(a)| == |Synth(b)| { MeetIsSymmetric(Synth(a), Synth(b)); }
      }
      MergedFits(Synth(a), Synth(b));
    }
    if r :| Covers(a, r) && Covers(b, r) {
      CoversIsFitsPattern(a, r);
      CoversIsFitsPattern(b, r);
      FittingImpliesMeeting(Synth(a), Synth(b), r.path);
      if |Synth(a)| == |Synth(b)| { MeetIsSymmetric(Synth(a), Synth(b)); }
    }
  }

  /** The chaining and nesting rules together decide exactly whether two endpoints can select
      a common resource instance. */
  lemma {:induction false} OverlapIsDecided(a: Endpoint, b: Endpoint)
    requires a.WellFormed() && b.WellFormed()
    ensures (exists r :: Covers(a, r) && Covers(b, r)) <==> Related(a, b)
  {
    RelatedIsSymmetric(a, b);
    if |Synth(a)| <= |Synth(b)| {
      OverlapIsDecidedOrdered(a, b);
    } else {
      OverlapIsDecidedOrdered(b, a);
    }
  }

  lemma {:induction false} NestingIsAsymmetric(a: Endpoint, b: Endpoint)
    ensures !NestedWithin(a, a)
    ensures !(NestedWithin(a, b) && NestedWithin(b, a))
  {
  }

  /** Two nestings compose exactly when the outer ends themselves can match; only a wildcard step of
      the middle pattern can keep them from it. */
  lemma {:induction false} NestingComposes(a: Endpoint, b: Endpoint, c: Endpoint)
    requires NestedWithin(a, b) && NestedWithin(b, c)
    ensures NestedWithin(a, c) <==> Meet(Synth(c), Synth(a))
    ensures NestedWithin(a, c) <==>
            forall i | 0 <= i < |Synth(c)| && Synth(b)[i].key == AnyKey :: StepsMeet(Synth(c)[i], Synth(a)[i])
  {
    assert forall i | 0 <= i < |Synth(c)| :: StepsMeet(Synth(c)[i], Synth(b)[i]) && StepsMeet(Synth(b)[i], Synth(a)[i]);
  }

  /** Nesting is not always transitive: the wildcard of b lets two incompatible keys through. */
  lemma {:induction false} NestingIsNotTransitive()
    ensures var a := Endpoint([], ModuleInstanceAddr([Step("m", IntKey(0)), Step("n", NoKey), Step("o", NoKey)]));
            var b := Endpoint(["m"], ModuleInstanceAddr([Step("n", NoKey)]));
            var c := Endpoint([], ModuleInstanceAddr([Step("m", IntKey(1))]));
            NestedWithin(a, b) && NestedWithin(b, c) && !NestedWithin(a, c)
  {
    var a := Endpoint([], ModuleInstanceAddr([Step("m", IntKey(0)), Step("n", NoKey), Step("o", NoKey)]));
    var c := Endpoint([], ModuleInstanceAddr([Step("m", IntKey(1))]));
    assert !StepsMeet(Synth(c)[0], Synth(a)[0]);
  }

  // ---------- Unifying the two ends of a statement ----------

  /** ParseMoveEndpoint only produces module instances and resource instances. */
  type RelSubject = s: Moveable | s.ModuleInstanceAddr? || s.ResourceInstanceAddr?
    witness ModuleInstanceAddr([])

  datatype AddrType = ResourceInstanceType | ResourceType | ModuleInstanceType | ModuleCallType

  function InternalAddrType(s: RelSubject): AddrType {
    match s
    case ModuleInstanceAddr(m) =>
      if m != [] && m[|m| - 1].key == NoKey then ModuleCallType else ModuleInstanceType
    case ResourceInstanceAddr(r) =>
      if r.resource.key == NoKey then ResourceType else ResourceInstanceType
  }

  function WantType(from: AddrType, to: AddrType): AddrType {
    if from.ResourceInstanceType? || to.ResourceInstanceType? then ResourceInstanceType
    else if from.ResourceType? || to.ResourceType? then ResourceType
    else if from.ModuleInstanceType? || to.ModuleInstanceType? then ModuleInstanceType
    else ModuleCallType
  }

  function Prepare(s: RelSubject, base: Module, want: AddrType): Option<Endpoint>
    requires s.ModuleInstanceAddr? && want.ModuleCallType? ==> s.inst != []
  {
    match (s, want)
    case (ModuleInstanceAddr(m), ModuleInstanceType) => Some(Endpoint(base, s))
    case (ModuleInstanceAddr(m), ModuleCallType) =>
      Some(Endpoint(base, ModuleCallAddr(AbsModuleCall(m[..|m| - 1], m[|m| - 1].name))))
    case (ResourceInstanceAddr(r), ResourceInstanceType) => Some(Endpoint(base, s))
    case (ResourceInstanceAddr(r), ResourceType) => Some(Endpoint(base, ResourceAddr(r.ContainingResource())))
    case _ => None
  }

  function Unify(base: Module, from: RelSubject, to: RelSubject): Option<(Endpoint, Endpoint)> {
    var want := WantType(InternalAddrType(from), InternalAddrType(to));
    match (Prepare(from, base, want), Prepare(to, base, want))
    case (Some(f), Some(t)) => Some((f, t))
    case _ => None
  }

  predicate KeyedOrRoot(s: RelSubject) {
    match s
    case ModuleInstanceAddr(m) => m == [] || m[|m| - 1].key != NoKey
    case ResourceInstanceAddr(r) => r.resource.key != NoKey
  }

  /** Unification fails exactly on a module paired with a resource. Otherwise both ends have one
      declaring module and one dynamic type, in whole-object form iff neither end is keyed, and
      reading that form back as an instance recovers what was written. */
  lemma {:induction false} UnifyAgrees(base: Module, from: RelSubject, to: RelSubject)
    ensures Unify(base, from, to) == None <==> from.ModuleKind() != to.ModuleKind()
    ensures match Unify(base, from, to)
            case None => true
            case Some((f, t)) =>
              && f.base == base && f.SameStatement(t)
              && f.sub.Unkeyed() == from && t.sub.Unkeyed() == to
              && (f.sub.ModuleCallAddr? || f.sub.ResourceAddr? <==> !KeyedOrRoot(from) && !KeyedOrRoot(to))
  {
    match Unify(base, from, to) {
      case None =>
      case Some((f, t)) =>
        if f.sub.ModuleCallAddr? {
          assert from.inst == from.inst[..|from.inst| - 1] + [from.inst[|from.inst| - 1]];
          assert to.inst == to.inst[..|to.inst| - 1] + [to.inst[|to.inst| - 1]];
        }
    }
  }

  /** ConfigMoveable: the static object a written endpoint refers to. */
  datatype ConfigMoveable = ConfigModule(path: Module) | ConfigResourceAddr(res: ConfigResource)

  function Configured(s: RelSubject, base: Module): ConfigMoveable {
    match s
    case ModuleInstanceAddr(m) => ConfigModule(base + StaticModule(m))
    case ResourceInstanceAddr(r) =>
      ConfigResourceAddr(ConfigResource(base + StaticModule(r.path), r.resource.resource))
  }

  /** The configuration object behind an absolute moveable address. */
  function StaticObject(a: Moveable): ConfigMoveable {
    match a
    case ModuleInstanceAddr(m) => ConfigModule(StaticModule(m))
    case ModuleCallAddr(c) => ConfigModule(StaticModule(c.path) + [c.call])
    case ResourceAddr(r) => ConfigResourceAddr(ConfigResource(StaticModule(r.path), r.resource))
    case ResourceInstanceAddr(r) => ConfigResourceAddr(ConfigResource(StaticModule(r.path), r.resource.resource))
  }

  /** Whatever form unification picks, every object the statement affects is declared by the
      configuration object that ConfigMoveable reports. */
  lemma {:induction false} UnifiedObjectsAreConfigured(base: Module, from: RelSubject, to: RelSubject,
                                                       p: ModuleInstance)
    requires Unify(base, from, to).Some? && InstanceOf(p, base)
    ensures var (f, t) := Unify(base, from, to).value;
            && StaticObject(InModuleInstance(f, p)) == Configured(from, base)
            && StaticObject(InModuleInstance(t, p)) == Configured(to, base)
  {
    UnifyAgrees(base, from, to);
    var (f, t) := Unify(base, from, to).value;
    StaticModuleAppend(p, f.sub.Path());
    StaticModuleAppend(p, t.sub.Path());
    if f.sub.ModuleCallAddr? {
      StaticModuleAppend(f.sub.Path(), [Step(f.sub.call.call, NoKey)]);
      StaticModuleAppend(t.sub.Path(), [Step(t.sub.call.call, NoKey)]);
    }
  }
}
