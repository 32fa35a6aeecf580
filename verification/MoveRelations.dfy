/** What chaining and nesting mean, each on its own: a common selected object, and proper
    containment of one selected object in another. */
module MoveRelations {
  import opened Addrs
  import opened MoveEndpoints

  /** One object a statement can select: instances of a call are selected one by one. */
  function Selected(e: Endpoint, p: ModuleInstance, k: InstanceKey): Moveable
    requires |p| == |e.base|
  {
    match InModuleInstance(e, p)
    case ModuleCallAddr(c) => ModuleInstanceAddr(c.Instance(k))
    case x => x
  }

  lemma {:induction false} SelectedIsHead(e: Endpoint, p: ModuleInstance, k: InstanceKey)
    requires |p| == |e.base|
    ensures Selected(e, p, k).Path() == Head(e, p, k)
    ensures e.sub.ModuleKind() ==> Selected(e, p, k) == ModuleInstanceAddr(Head(e, p, k))
    ensures e.sub.ResourceAddr? ==> Selected(e, p, k) == ResourceAddr(AbsResource(Head(e, p, k), e.sub.res.resource))
    ensures e.sub.ResourceInstanceAddr? ==>
              Selected(e, p, k) == ResourceInstanceAddr(AbsResourceInstance(Head(e, p, k), e.sub.resInst.resource))
  {
  }

  ghost predicate SelectsInCommon(a: Endpoint, b: Endpoint) {
    exists p, k, q, l :: InstanceOf(p, a.base) && InstanceOf(q, b.base) && Selected(a, p, k) == Selected(b, q, l)
  }

  /** CanChainFrom: some object can be selected by both endpoints. */
  lemma {:induction false} ChainingIsCommonSelection(a: Endpoint, b: Endpoint)
    requires a.WellFormed() && b.WellFormed()
    ensures CanChainFrom(a, b) <==> SelectsInCommon(a, b)
  {
    if CanChainFrom(a, b) {
      var m := Merged(Synth(b), Synth(a));
      MergedFits(Synth(b), Synth(a));
      var p, k := FittingHasHead(a, m);
      var q, l := FittingHasHead(b, m);
      assert m[..|m|] == m;
      SelectedIsHead(a, p, k);
      SelectedIsHead(b, q, l);
      assert Selected(a, p, k) == Selected(b, q, l);
    }
    if SelectsInCommon(a, b) {
      var p, k, q, l :| InstanceOf(p, a.base) && InstanceOf(q, b.base) && Selected(a, p, k) == Selected(b, q, l);
      SelectedIsHead(a, p, k);
      SelectedIsHead(b, q, l);
      var m := Head(a, p, k);
      HeadFits(a, p, k, m);
      HeadFits(b, q, l, m);
      FittingImpliesMeeting(Synth(b), Synth(a), m);
    }
  }

  /** Every resource instance of x is one of y. */
  ghost predicate Within(x: Moveable, y: Moveable) {
    forall r | PartOf(r, x) :: PartOf(r, y)
  }

  ghost predicate ContainedInOne(a: Endpoint, b: Endpoint) {
    exists p, q :: InstanceOf(p, a.base) && InstanceOf(q, b.base)
      && InModuleInstance(a, p) != InModuleInstance(b, q) && Within(InModuleInstance(a, p), InModuleInstance(b, q))
  }

  /** The resource instances of an endpoint's object lie below its head, for some key. */
  lemma {:induction false} PartsHaveHead(e: Endpoint, p: ModuleInstance, r: AbsResourceInstance)
    returns (k: InstanceKey)
    requires InstanceOf(p, e.base) && PartOf(r, InModuleInstance(e, p))
    ensures Head(e, p, k) <= r.path
    ensures !e.sub.ModuleKind() ==> Head(e, p, k) == r.path
  {
    k := NoKey;
    if e.sub.ModuleCallAddr? {
      k :| InModuleInstance(e, p).call.Instance(k) <= r.path;
      assert InModuleInstance(e, p).call.Instance(k) == Head(e, p, k);
    }
  }

  lemma {:induction false} HeadHasParts(e: Endpoint, p: ModuleInstance, k: InstanceKey, r: AbsResourceInstance)
    requires InstanceOf(p, e.base) && e.sub.ModuleKind() && Head(e, p, k) <= r.path
    ensures PartOf(r, InModuleInstance(e, p))
  {
    if e.sub.ModuleCallAddr? {
      assert InModuleInstance(e, p).call.Instance(k) == Head(e, p, k);
    }
  }

  /** The objects at the merged path witness the nesting. */
  lemma {:induction false} NestingContainsAt(a: Endpoint, b: Endpoint)
    requires a.WellFormed() && b.WellFormed() && NestedWithin(a, b)
    ensures var m := Merged(Synth(b), Synth(a));
            var p, q := m[..|a.base|], m[..|b.base|];
            && InstanceOf(p, a.base) && InstanceOf(q, b.base)
            && InModuleInstance(a, p) != InModuleInstance(b, q)
            && Within(InModuleInstance(a, p), InModuleInstance(b, q))
  {
    var m := Merged(Synth(b), Synth(a));
    MergedFits(Synth(b), Synth(a));
    var p, k := FittingHasHead(a, m);
    var q, l := FittingHasHead(b, m);
    assert m[..|m|] == m;
    assert p == m[..|a.base|] && q == m[..|b.base|] by {
      assert p == Head(a, p, k)[..|p|] && q == Head(b, q, l)[..|q|];
    }
    var x, y := InModuleInstance(a, p), InModuleInstance(b, q);
    forall r | PartOf(r, x) ensures PartOf(r, y) {
      var k' := PartsHaveHead(a, p, r);
      var n := |Synth(b)|;
      if b.sub.ModuleKind() {
        assert n < |Synth(a)| || k' == k || !a.sub.ModuleCallAddr?;
        assert Head(a, p, k')[..n] == Head(a, p, k)[..n];
        assert Head(b, q, l) <= r.path;
        HeadHasParts(b, q, l, r);
      }
    }
  }

  lemma {:induction false} NestingContains(a: Endpoint, b: Endpoint)
    requires a.WellFormed() && b.WellFormed() && NestedWithin(a, b)
    ensures ContainedInOne(a, b)
  {
    NestingContainsAt(a, b);
  }

  /** The resource instances sitting directly in the module at the head. */
  function PartAt(e: Endpoint, p: ModuleInstance, k: InstanceKey, res: ResourceInstance): AbsResourceInstance {
    AbsResourceInstance(Head(e, p, k), res)
  }

  /** Module objects of one type with a common head are one object. */
  lemma {:induction false} HeadsDetermine(a: Endpoint, b: Endpoint, p: ModuleInstance, k: InstanceKey,
                                          q: ModuleInstance, l: InstanceKey)
    requires a.sub.ModuleKind() && b.sub.ModuleKind() && InstanceOf(p, a.base) && InstanceOf(q, b.base)
    ensures a.sub.SameType(b.sub) && Head(a, p, k) == Head(b, q, l) ==> InModuleInstance(a, p) == InModuleInstance(b, q)
  {
    var h, g := Head(a, p, k), Head(b, q, l);
    if a.sub.ModuleCallAddr? {
      assert h[|h| - 1] == Step(a.sub.call.call, k) && h[..|h| - 1] == p + a.sub.Path();
    }
    if b.sub.ModuleCallAddr? {
      assert g[|g| - 1] == Step(b.sub.call.call, l) && g[..|g| - 1] == q + b.sub.Path();
    }
    if a.sub.ModuleInstanceAddr? { assert h == p + a.sub.inst; }
    if b.sub.ModuleInstanceAddr? { assert g == q + b.sub.inst; }
  }

  lemma {:induction false} CallHeadsVary(e: Endpoint, p: ModuleInstance, k: InstanceKey, k': InstanceKey)
    ensures Head(e, p, k) == Head(e, p, k') <==> k == k' || !e.sub.ModuleCallAddr?
  {
    if e.sub.ModuleCallAddr? {
      var h, h' := Head(e, p, k), Head(e, p, k');
      assert h[|h| - 1] == Step(e.sub.call.call, k) && h'[|h'| - 1] == Step(e.sub.call.call, k');
    }
  }

  /** The members that tell what kind of object a selects below p. */
  function Probes(a: Endpoint, p: ModuleInstance): set<AbsResourceInstance> {
    var some := ResourceInstance(Resource(Managed, "", ""), NoKey);
    match a.sub
    case ResourceInstanceAddr(ri) => {PartAt(a, p, NoKey, ri.resource)}
    case ResourceAddr(r) =>
      {PartAt(a, p, NoKey, ResourceInstance(r.resource, NoKey)),
       PartAt(a, p, NoKey, ResourceInstance(r.resource, IntKey(0)))}
    case _ =>
      {PartAt(a, p, NoKey, some), PartAt(a, p, IntKey(0), some),
       PartAt(a, p, NoKey, ResourceInstance(Resource(Managed, "x", ""), NoKey))}
  }

  lemma {:induction false} ProbesAreParts(a: Endpoint, p: ModuleInstance)
    requires InstanceOf(p, a.base)
    ensures forall r | r in Probes(a, p) :: PartOf(r, InModuleInstance(a, p))
  {
    if a.sub.ModuleKind() {
      forall r | r in Probes(a, p) ensures PartOf(r, InModuleInstance(a, p)) {
        HeadHasParts(a, p, if r.path == Head(a, p, NoKey) then NoKey else IntKey(0), r);
      }
    }
  }

  lemma {:induction false} ContainmentNests(a: Endpoint, b: Endpoint, p: ModuleInstance, q: ModuleInstance)
    requires a.WellFormed() && b.WellFormed() && InstanceOf(p, a.base) && InstanceOf(q, b.base)
    requires InModuleInstance(a, p) != InModuleInstance(b, q)
    requires forall r | r in Probes(a, p) :: PartOf(r, InModuleInstance(b, q))
    ensures NestedWithin(a, b)
  {
    var x, y := InModuleInstance(a, p), InModuleInstance(b, q);
    var some := ResourceInstance(Resource(Managed, "", ""), NoKey);
    var res := match a.sub
      case ResourceInstanceAddr(ri) => ri.resource
      case ResourceAddr(r) => ResourceInstance(r.resource, NoKey)
      case _ => some;
    var r := PartAt(a, p, NoKey, res);
    assert r in Probes(a, p);
    var l := PartsHaveHead(b, q, r);
    HeadFits(a, p, NoKey, r.path);
    HeadFits(b, q, l, r.path);
    FittingImpliesMeeting(Synth(b), Synth(a), r.path);
    if a.sub.ModuleKind() {
      var r1 := PartAt(a, p, NoKey, ResourceInstance(Resource(Managed, "x", ""), NoKey));
      var r2 := PartAt(a, p, IntKey(0), some);
      assert r1 in Probes(a, p) && r2 in Probes(a, p);
      var l2 := PartsHaveHead(b, q, r2);
      assert b.sub.ModuleKind();
      HeadsDetermine(a, b, p, NoKey, q, l);
      CallHeadsVary(a, p, NoKey, IntKey(0));
      CallHeadsVary(b, q, l, l2);
    } else if a.sub.ResourceAddr? {
      var r1 := PartAt(a, p, NoKey, ResourceInstance(res.resource, IntKey(0)));
      assert r1 in Probes(a, p) && PartOf(r1, y);
    }
  }

  /** NestedWithin: some object of the receiver is properly contained in one of the other's. */
  lemma {:induction false} NestingIsContainment(a: Endpoint, b: Endpoint)
    requires a.WellFormed() && b.WellFormed()
    ensures NestedWithin(a, b) <==> ContainedInOne(a, b)
  {
    if NestedWithin(a, b) {
      NestingContains(a, b);
    }
    if ContainedInOne(a, b) {
      var p, q :| InstanceOf(p, a.base) && InstanceOf(q, b.base)
        && InModuleInstance(a, p) != InModuleInstance(b, q) && Within(InModuleInstance(a, p), InModuleInstance(b, q));
      ProbesAreParts(a, p);
      ContainmentNests(a, b, p, q);
    }
  }

  // ---------- Real instances only ----------

  predicate RealEndpoint(e: Endpoint) {
    && (e.sub.ModuleInstanceAddr? ==> e.sub.inst != [])
    && RealPath(e.sub.Path())
    && (e.sub.ResourceInstanceAddr? ==> RealKey(e.sub.resInst.resource.key))
  }

  predicate RealInstance(r: AbsResourceInstance) {
    RealPath(r.path) && RealKey(r.resource.key)
  }

  /** Every real resource instance of x is one of y. */
  ghost predicate ReallyWithin(x: Moveable, y: Moveable) {
    forall r | RealInstance(r) && PartOf(r, x) :: PartOf(r, y)
  }

  ghost predicate ReallyContainedInOne(a: Endpoint, b: Endpoint) {
    exists p, q :: InstanceOf(p, a.base) && InstanceOf(q, b.base) && RealPath(p) && RealPath(q)
      && InModuleInstance(a, p) != InModuleInstance(b, q)
      && ReallyWithin(InModuleInstance(a, p), InModuleInstance(b, q))
  }

  lemma {:induction false} MergedIsReal(a: ModuleInstance, b: ModuleInstance)
    requires |a| <= |b|
    requires forall i | 0 <= i < |a| :: RealKey(a[i].key) || a[i].key == AnyKey
    requires forall i | 0 <= i < |b| :: RealKey(b[i].key) || b[i].key == AnyKey
    ensures RealPath(Merged(a, b))
  {
  }

  lemma {:induction false} SynthKeys(e: Endpoint)
    requires RealEndpoint(e)
    ensures e.WellFormed()
    ensures forall i | 0 <= i < |Synth(e)| :: RealKey(Synth(e)[i].key) || Synth(e)[i].key == AnyKey
  {
    assert forall i | 0 <= i < |e.sub.Path()| :: RealKey(e.sub.Path()[i].key);
  }

  lemma {:induction false} RealNestingContains(a: Endpoint, b: Endpoint)
    requires RealEndpoint(a) && RealEndpoint(b) && a.WellFormed() && b.WellFormed() && NestedWithin(a, b)
    ensures ReallyContainedInOne(a, b)
  {
    var m := Merged(Synth(b), Synth(a));
    SynthKeys(a);
    SynthKeys(b);
    MergedIsReal(Synth(b), Synth(a));
    NestingContainsAt(a, b);
    var p, q := m[..|a.base|], m[..|b.base|];
    assert RealPath(p) && RealPath(q);
  }

  lemma {:induction false} ProbesAreReal(a: Endpoint, p: ModuleInstance)
    requires RealEndpoint(a) && RealPath(p)
    ensures forall r | r in Probes(a, p) :: RealInstance(r)
  {
    assert RealPath(Head(a, p, NoKey)) && RealPath(Head(a, p, IntKey(0)));
  }

  /** The same meaning over real instances alone: no wildcard key is needed to tell objects apart. */
  lemma {:induction false} NestingIsRealContainment(a: Endpoint, b: Endpoint)
    requires RealEndpoint(a) && RealEndpoint(b)
    ensures NestedWithin(a, b) <==> ReallyContainedInOne(a, b)
  {
    SynthKeys(a);
    SynthKeys(b);
    if NestedWithin(a, b) {
      RealNestingContains(a, b);
    }
    if ReallyContainedInOne(a, b) {
      var p, q :| InstanceOf(p, a.base) && InstanceOf(q, b.base) && RealPath(p) && RealPath(q)
        && InModuleInstance(a, p) != InModuleInstance(b, q)
        && ReallyWithin(InModuleInstance(a, p), InModuleInstance(b, q));
      ProbesAreParts(a, p);
      ProbesAreReal(a, p);
      ContainmentNests(a, b, p, q);
    }
  }

  /** Overlap of real endpoints shows on a real resource instance. */
  lemma {:induction false} OverlapIsReallyDecided(a: Endpoint, b: Endpoint)
    requires RealEndpoint(a) && RealEndpoint(b)
    ensures (exists r :: RealInstance(r) && Covers(a, r) && Covers(b, r)) <==> Related(a, b)
  {
    SynthKeys(a);
    SynthKeys(b);
    OverlapIsDecided(a, b);
    if Related(a, b) {
      RelatedIsSymmetric(a, b);
      if |Synth(a)| <= |Synth(b)| {
        RealOverlap(a, b);
      } else {
        RealOverlap(b, a);
      }
    }
  }

  lemma {:induction false} RealOverlap(a: Endpoint, b: Endpoint)
    requires RealEndpoint(a) && RealEndpoint(b) && |Synth(a)| <= |Synth(b)| && Related(a, b)
    ensures var w := CommonInstance(a, b); RealInstance(w) && Covers(a, w) && Covers(b, w)
  {
    SynthKeys(a);
    SynthKeys(b);
    OverlapIsDecidedOrdered(a, b);
    MergedIsReal(Synth(a), Synth(b));
  }

  ghost predicate ReallySelectsInCommon(a: Endpoint, b: Endpoint) {
    exists p, k, q, l :: InstanceOf(p, a.base) && InstanceOf(q, b.base)
      && RealPath(p) && RealKey(k) && RealPath(q) && RealKey(l) && Selected(a, p, k) == Selected(b, q, l)
  }

  lemma {:induction false} HeadOfRealPath(e: Endpoint, m: ModuleInstance) returns (p: ModuleInstance, k: InstanceKey)
    requires e.WellFormed() && Fits(Synth(e), m) && RealPath(m)
    ensures InstanceOf(p, e.base) && Head(e, p, k) == m[..|Synth(e)|] && RealPath(p) && RealKey(k)
  {
    p, k := FittingHasHead(e, m);
    var h := Head(e, p, k);
    assert forall i | 0 <= i < |p| :: p[i] == h[i] && h[i] == m[i];
    if e.sub.ModuleCallAddr? {
      assert h[|h| - 1] == Step(e.sub.call.call, k) && h[|h| - 1] == m[|h| - 1];
    } else {
      k := NoKey;
      assert Head(e, p, k) == h;
    }
  }

  /** And chaining on an object that both can select with all keys known. */
  lemma {:induction false} ChainingIsRealCommonSelection(a: Endpoint, b: Endpoint)
    requires RealEndpoint(a) && RealEndpoint(b)
    ensures CanChainFrom(a, b) <==> ReallySelectsInCommon(a, b)
  {
    SynthKeys(a);
    SynthKeys(b);
    ChainingIsCommonSelection(a, b);
    if CanChainFrom(a, b) {
      var m := Merged(Synth(b), Synth(a));
      MergedFits(Synth(b), Synth(a));
      MergedIsReal(Synth(b), Synth(a));
      var p, k := HeadOfRealPath(a, m);
      var q, l := HeadOfRealPath(b, m);
      assert m[..|m|] == m;
      SelectedIsHead(a, p, k);
      SelectedIsHead(b, q, l);
      assert Selected(a, p, k) == Selected(b, q, l);
    }
  }
}
