/** MoveDestination for module instances, resources and resource instances: what matches, where
    it goes, and that the rewrite can be undone. */
module Moves {
  import opened Addrs
  import opened MoveEndpoints

  /** matchModuleInstancePrefix: the split point is |base|, the result says whether it applies. */
  predicate UnderBase(e: Endpoint, m: ModuleInstance) {
    |e.base| <= |m| && InstanceOf(m[..|e.base|], e.base)
  }

  method MatchModuleInstancePrefix(e: Endpoint, m: ModuleInstance)
    returns (prefix: ModuleInstance, rel: ModuleInstance, matched: bool)
    ensures matched <==> UnderBase(e, m)
    ensures matched ==> prefix + rel == m && InstanceOf(prefix, e.base)
  {
    if |e.base| > |m| {
      return [], [], false;
    }
    for i := 0 to |e.base|
      invariant forall j | 0 <= j < i :: e.base[j] == m[j].name
    {
      if e.base[i] != m[i].name {
        return [], [], false;
      }
    }
    return m[..|e.base|], m[|e.base|..], true;
  }

  // ---------- Module instances ----------

  /** An instance of the endpoint's object (key k if the object is a whole call) below the
      instance p of the declaring module, extended by the steps s. */
  function Example(e: Endpoint, p: ModuleInstance, k: InstanceKey, s: ModuleInstance): ModuleInstance
    requires e.sub.ModuleKind() && |p| == |e.base|
  {
    match InModuleInstance(e, p)
    case ModuleInstanceAddr(m) => m + s
    case ModuleCallAddr(c) => c.Instance(k) + s
  }

  ghost predicate IsExample(e: Endpoint, m: ModuleInstance, p: ModuleInstance, k: InstanceKey, s: ModuleInstance)
    requires e.sub.ModuleKind()
  {
    InstanceOf(p, e.base) && m == Example(e, p, k, s)
  }

  /** Number of steps of a module instance that the endpoint consumes. */
  function Consumed(e: Endpoint): nat {
    |e.base| + |e.sub.Path()| + if e.sub.ModuleCallAddr? then 1 else 0
  }

  predicate MatchesModule(e: Endpoint, m: ModuleInstance)
    requires e.sub.ModuleKind()
  {
    && m != [] && Consumed(e) <= |m|
    && UnderBase(e, m)
    && m[|e.base|..|e.base| + |e.sub.Path()|] == e.sub.Path()
    && (e.sub.ModuleCallAddr? ==> m[Consumed(e) - 1].name == e.sub.call.call)
  }

  /** The key of the call instance a matching module belongs to. */
  function MatchedKey(e: Endpoint, m: ModuleInstance): InstanceKey
    requires e.sub.ModuleKind() && MatchesModule(e, m)
  {
    if e.sub.ModuleCallAddr? then m[Consumed(e) - 1].key else NoKey
  }

  function ModuleDestination(m: ModuleInstance, from: Endpoint, to: Endpoint): Option<ModuleInstance>
    requires from.SameStatement(to)
  {
    if from.sub.ModuleKind() && MatchesModule(from, m) then
      Some(Example(to, m[..|from.base|], MatchedKey(from, m), m[Consumed(from)..]))
    else
      None
  }

  /** The comparison of the written steps with the start of the relative part. */
  method StepsArePrefix(path: ModuleInstance, rel: ModuleInstance) returns (same: bool)
    requires |path| <= |rel|
    ensures same <==> path <= rel
  {
    for i := 0 to |path|
      invariant path[..i] == rel[..i]
    {
      if path[i] != rel[i] {
        return false;
      }
    }
    return true;
  }

  lemma {:induction false} MatchOnSplit(e: Endpoint, prefix: ModuleInstance, rel: ModuleInstance)
    requires e.sub.ModuleKind() && InstanceOf(prefix, e.base)
    ensures var m, n := prefix + rel, |e.sub.Path()|;
            && (MatchesModule(e, m) <==> (m != [] && Consumed(e) <= |m| && e.sub.Path() <= rel
                  && (e.sub.ModuleCallAddr? ==> rel[n].name == e.sub.call.call)))
            && (MatchesModule(e, m) ==>
                  && m[..|e.base|] == prefix
                  && m[Consumed(e)..] == rel[Consumed(e) - |prefix|..]
                  && (e.sub.ModuleCallAddr? ==> MatchedKey(e, m) == rel[n].key))
  {
    var m, n := prefix + rel, |e.sub.Path()|;
    assert m[..|prefix|] == prefix;
    if n <= |rel| {
      assert m[|prefix|..|prefix| + n] == rel[..n];
    }
    if Consumed(e) <= |m| {
      assert m[Consumed(e)..] == rel[Consumed(e) - |prefix|..];
    }
  }

  method MoveModuleInstance(m: ModuleInstance, from: Endpoint, to: Endpoint) returns (dest: Option<ModuleInstance>)
    requires from.SameStatement(to)
    ensures dest == ModuleDestination(m, from, to)
  {
    if m == [] || !from.sub.ModuleKind() {
      return None;
    }
    var prefix, rel, matched := MatchModuleInstancePrefix(from, m);
    if !matched {
      return None;
    }
    MatchOnSplit(from, prefix, rel);
    var suffix, newMatch: ModuleInstance;
    match from.sub {
      case ModuleInstanceAddr(relSubject) =>
        if |relSubject| > |rel| {
          return None;
        }
        var same := StepsArePrefix(relSubject, rel);
        if !same {
          return None;
        }
        newMatch := to.sub.inst;
        suffix := rel[|relSubject|..];
      case ModuleCallAddr(relSubject) =>
        if |relSubject.path| > |rel| - 1 {
          return None;
        }
        var same := StepsArePrefix(relSubject.path, rel);
        if !same {
          return None;
        }
        var callStep := rel[|relSubject.path|];
        if callStep.name != relSubject.call {
          return None;
        }
        newMatch := to.sub.call.Instance(callStep.key);
        suffix := rel[|relSubject.path| + 1..];
    }
    dest := Some(prefix + newMatch + suffix);
    assert dest.value == Example(to, prefix, MatchedKey(from, m), suffix);
  }

  lemma {:induction false} MatchIsExample(e: Endpoint, m: ModuleInstance)
    requires e.sub.ModuleKind() && MatchesModule(e, m)
    ensures IsExample(e, m, m[..|e.base|], MatchedKey(e, m), m[Consumed(e)..])
  {
    var b, n := |e.base|, |e.base| + |e.sub.Path()|;
    assert m == m[..b] + m[b..n] + m[n..];
    if e.sub.ModuleCallAddr? {
      assert m[n..] == [Step(e.sub.call.call, MatchedKey(e, m))] + m[n + 1..];
    }
    assert m == Example(e, m[..b], MatchedKey(e, m), m[Consumed(e)..]);
  }

  lemma {:induction false} ExampleMatches(e: Endpoint, p: ModuleInstance, k: InstanceKey, s: ModuleInstance)
    requires e.sub.ModuleKind() && InstanceOf(p, e.base) && Example(e, p, k, s) != []
    ensures var m := Example(e, p, k, s);
            && MatchesModule(e, m)
            && m[..|e.base|] == p && m[Consumed(e)..] == s
            && (e.sub.ModuleCallAddr? ==> MatchedKey(e, m) == k)
  {
    var m := Example(e, p, k, s);
    var tail := (if e.sub.ModuleCallAddr? then [Step(e.sub.call.call, k)] else []) + s;
    assert m == p + (e.sub.Path() + tail);
    assert m[|p|..] == e.sub.Path() + tail;
    assert m[|p|..|p| + |e.sub.Path()|] == e.sub.Path();
    assert m[..|p|] == p;
  }

  /** MoveDestination against InModuleInstance: a module moves exactly when it extends an example
      of "from", and it moves to the same extension of the corresponding example of "to". */
  lemma {:induction false} ModuleMoveFollowsExamples(m: ModuleInstance, from: Endpoint, to: Endpoint)
    requires from.SameStatement(to) && from.sub.ModuleKind()
    ensures ModuleDestination(m, from, to).Some? <==> m != [] && exists p, k, s :: IsExample(from, m, p, k, s)
    ensures m != [] ==> forall p, k, s | IsExample(from, m, p, k, s) ::
              ModuleDestination(m, from, to) == Some(Example(to, p, k, s))
  {
    if ModuleDestination(m, from, to).Some? {
      MatchIsExample(from, m);
    }
    forall p, k, s | m != [] && IsExample(from, m, p, k, s)
      ensures ModuleDestination(m, from, to) == Some(Example(to, p, k, s))
    {
      ExampleMatches(from, p, k, s);
    }
  }

  /** A module move applies to m exactly when SelectsModule picks the part of m it consumes. */
  lemma {:induction false} ModuleMoveFollowsSelection(m: ModuleInstance, from: Endpoint, to: Endpoint)
    requires from.SameStatement(to) && from.sub.ModuleKind() && from.WellFormed()
    ensures ModuleDestination(m, from, to).Some? <==>
            |Synth(from)| <= |m| && SelectsModule(from, m[..|Synth(from)|])
  {
    var r := AbsResource(m, Resource(Managed, "", "")).Instance(NoKey);
    var n := |Synth(from)|;
    if n <= |m| {
      assert Fits(Synth(from), m) <==> Fits(Synth(from), m[..n]) by {
        assert forall i | 0 <= i < n :: m[i] == m[..n][i];
      }
    }
    CoversIsFitsPattern(from, r);
    ModuleMoveIsCovering(r, from);
  }

  lemma {:induction false} MatchedModuleIsCovered(r: AbsResourceInstance, e: Endpoint)
    requires e.sub.ModuleKind() && MatchesModule(e, r.path)
    ensures Covers(e, r)
  {
    var m := r.path;
    var p, k := m[..|e.base|], MatchedKey(e, m);
    MatchIsExample(e, m);
    assert Example(e, p, k, []) <= m;
    if e.sub.ModuleCallAddr? {
      assert InModuleInstance(e, p).call.Instance(k) == Example(e, p, k, []);
    } else {
      assert InModuleInstance(e, p).inst == Example(e, p, k, []);
    }
    assert InstanceOf(p, e.base) && PartOf(r, InModuleInstance(e, p));
  }

  lemma {:induction false} ExtensionMatches(e: Endpoint, p: ModuleInstance, k: InstanceKey, m: ModuleInstance)
    requires e.sub.ModuleKind() && InstanceOf(p, e.base) && Example(e, p, k, []) <= m && m != []
    ensures MatchesModule(e, m)
  {
    var e0 := Example(e, p, k, []);
    var s := m[|e0|..];
    assert m == e0 + s;
    assert m == Example(e, p, k, s);
    ExampleMatches(e, p, k, s);
  }

  lemma {:induction false} ModuleMoveIsCovering(r: AbsResourceInstance, e: Endpoint)
    requires e.sub.ModuleKind() && e.WellFormed()
    ensures MatchesModule(e, r.path) <==> Covers(e, r)
  {
    if MatchesModule(e, r.path) {
      MatchedModuleIsCovered(r, e);
    } else if Covers(e, r) {
      var p :| InstanceOf(p, e.base) && PartOf(r, InModuleInstance(e, p));
      if e.sub.ModuleCallAddr? {
        var k :| InModuleInstance(e, p).call.Instance(k) <= r.path;
        assert Example(e, p, k, []) == InModuleInstance(e, p).call.Instance(k);
        ExtensionMatches(e, p, k, r.path);
      } else {
        assert Example(e, p, NoKey, []) == InModuleInstance(e, p).inst;
        ExtensionMatches(e, p, NoKey, r.path);
      }
    }
  }

  // ---------- Resources and resource instances ----------

  predicate AtRelativePath(e: Endpoint, path: ModuleInstance) {
    UnderBase(e, path) && path[|e.base|..] == e.sub.Path()
  }

  function ResourceDestination(r: AbsResource, from: Endpoint, to: Endpoint): Option<AbsResource>
    requires from.SameStatement(to)
  {
    if from.sub.ModuleKind() then
      match ModuleDestination(r.path, from, to)
      case Some(path) => Some(AbsResource(path, r.resource))
      case None => None
    else if from.sub.ResourceAddr? && from.sub.res.resource == r.resource && AtRelativePath(from, r.path) then
      Some(InModuleInstance(to, r.path[..|from.base|]).res)
    else
      None
  }

  function InstanceDestination(r: AbsResourceInstance, from: Endpoint, to: Endpoint): Option<AbsResourceInstance>
    requires from.SameStatement(to)
  {
    match from.sub
    case ResourceInstanceAddr(ri) =>
      if ri.resource == r.resource && AtRelativePath(from, r.path) then
        Some(InModuleInstance(to, r.path[..|from.base|]).resInst)
      else
        None
    case ResourceAddr(_) =>
      (match ResourceDestination(r.ContainingResource(), from, to)
       case Some(res) => Some(res.Instance(r.resource.key))
       case None => None)
    case _ =>
      match ModuleDestination(r.path, from, to)
      case Some(path) => Some(AbsResourceInstance(path, r.resource))
      case None => None
  }

  /** The step-by-step comparison both resource forms make before rewriting the path. */
  method RewriteExactPath(path: ModuleInstance, from: Endpoint, to: Endpoint) returns (dest: Option<ModuleInstance>)
    requires from.SameStatement(to)
    ensures dest == if AtRelativePath(from, path) then Some(path[..|from.base|] + to.sub.Path()) else None
  {
    var prefix, rel, matched := MatchModuleInstancePrefix(from, path);
    if !matched {
      return None;
    }
    assert rel == path[|from.base|..];
    if |rel| != |from.sub.Path()| {
      return None;
    }
    for i := 0 to |rel|
      invariant rel[..i] == from.sub.Path()[..i]
    {
      if rel[i] != from.sub.Path()[i] {
        return None;
      }
    }
    assert rel[..|rel|] == rel;
    assert prefix == path[..|from.base|];
    return Some(prefix + to.sub.Path());
  }

  method MoveResource(r: AbsResource, from: Endpoint, to: Endpoint) returns (dest: Option<AbsResource>)
    requires from.SameStatement(to)
    ensures dest == ResourceDestination(r, from, to)
  {
    if from.sub.ModuleKind() {
      var path := MoveModuleInstance(r.path, from, to);
      return match path case None => None case Some(p) => Some(AbsResource(p, r.resource));
    }
    if !from.sub.ResourceAddr? || from.sub.res.resource != r.resource {
      return None;
    }
    var path := RewriteExactPath(r.path, from, to);
    return match path case None => None case Some(p) => Some(AbsResource(p, to.sub.res.resource));
  }

  method MoveResourceInstance(r: AbsResourceInstance, from: Endpoint, to: Endpoint)
    returns (dest: Option<AbsResourceInstance>)
    requires from.SameStatement(to)
    ensures dest == InstanceDestination(r, from, to)
  {
    if from.sub.ModuleKind() {
      var path := MoveModuleInstance(r.path, from, to);
      return match path case None => None case Some(p) => Some(AbsResourceInstance(p, r.resource));
    }
    if from.sub.ResourceAddr? {
      var res := MoveResource(r.ContainingResource(), from, to);
      return match res case None => None case Some(a) => Some(a.Instance(r.resource.key));
    }
    if from.sub.resInst.resource != r.resource {
      return None;
    }
    var path := RewriteExactPath(r.path, from, to);
    return match path case None => None case Some(p) => Some(AbsResourceInstance(p, to.sub.resInst.resource));
  }

  // ---------- What the moves mean ----------

  /** A resource instance moves exactly when "from" covers it. */
  lemma {:induction false} MovesExactlyWhatIsCovered(r: AbsResourceInstance, from: Endpoint, to: Endpoint)
    requires from.SameStatement(to) && from.WellFormed()
    ensures InstanceDestination(r, from, to).Some? <==> Covers(from, r)
  {
    if from.sub.ModuleKind() {
      ModuleMoveIsCovering(r, from);
    } else {
      if AtRelativePath(from, r.path) {
        var p := r.path[..|from.base|];
        assert p + from.sub.Path() == r.path;
        assert InstanceOf(p, from.base);
        if InstanceDestination(r, from, to).Some? {
          assert PartOf(r, InModuleInstance(from, p));
        }
      }
      if Covers(from, r) {
        var p :| InstanceOf(p, from.base) && PartOf(r, InModuleInstance(from, p));
        assert r.path == p + from.sub.Path();
        assert r.path[..|from.base|] == p && r.path[|from.base|..] == from.sub.Path();
      }
    }
  }

  /** The statement's meaning at the instance p of the declaring module: r sits in the example of
      "from" there, and y sits in the same place of the example of "to". */
  ghost predicate Relocates(from: Endpoint, to: Endpoint, p: ModuleInstance,
                            r: AbsResourceInstance, y: AbsResourceInstance)
    requires from.SameStatement(to)
  {
    InstanceOf(p, from.base) &&
    if from.sub.ModuleKind() then
      r.resource == y.resource && exists k, s :: IsExample(from, r.path, p, k, s) && y.path == Example(to, p, k, s)
    else
      match (InModuleInstance(from, p), InModuleInstance(to, p))
      case (ResourceAddr(f), ResourceAddr(t)) =>
        r == f.Instance(r.resource.key) && y == t.Instance(r.resource.key)
      case (ResourceInstanceAddr(f), ResourceInstanceAddr(t)) => r == f && y == t
      case _ => false
  }

  lemma {:induction false} MovedIsRelocated(r: AbsResourceInstance, y: AbsResourceInstance, from: Endpoint,
                                            to: Endpoint)
    requires from.SameStatement(to) && InstanceDestination(r, from, to) == Some(y)
    ensures Relocates(from, to, r.path[..|from.base|], r, y)
  {
    var p := r.path[..|from.base|];
    if from.sub.ModuleKind() {
      MatchIsExample(from, r.path);
    } else {
      assert p + from.sub.Path() == r.path;
    }
  }

  lemma {:induction false} RelocatedIsMoved(r: AbsResourceInstance, y: AbsResourceInstance, from: Endpoint,
                                            to: Endpoint, p: ModuleInstance)
    requires from.SameStatement(to) && from.WellFormed() && Relocates(from, to, p, r, y)
    ensures InstanceDestination(r, from, to) == Some(y)
  {
    if from.sub.ModuleKind() {
      var k, s :| IsExample(from, r.path, p, k, s) && y.path == Example(to, p, k, s);
      ModuleMoveFollowsExamples(r.path, from, to);
    } else {
      assert r.path[..|from.base|] == p && r.path[|from.base|..] == from.sub.Path();
    }
  }

  /** The three MoveDestination methods together compute exactly this relation. */
  lemma {:induction false} MoveRelocates(r: AbsResourceInstance, y: AbsResourceInstance, from: Endpoint, to: Endpoint)
    requires from.SameStatement(to) && from.WellFormed()
    ensures InstanceDestination(r, from, to) == Some(y) <==> exists p :: Relocates(from, to, p, r, y)
  {
    if InstanceDestination(r, from, to) == Some(y) {
      MovedIsRelocated(r, y, from, to);
    }
    if p :| Relocates(from, to, p, r, y) {
      RelocatedIsMoved(r, y, from, to, p);
    }
  }

  /** Two statements touch a common resource instance exactly when their "from" endpoints chain
      or nest. */
  lemma {:induction false} OverlappingMovesAreRelated(a: Endpoint, a': Endpoint, b: Endpoint, b': Endpoint)
    requires a.SameStatement(a') && b.SameStatement(b') && a.WellFormed() && b.WellFormed()
    ensures (exists r :: InstanceDestination(r, a, a').Some? && InstanceDestination(r, b, b').Some?)
            <==> CanChainFrom(a, b) || NestedWithin(a, b) || NestedWithin(b, a)
  {
    OverlapIsDecided(a, b);
    if r :| InstanceDestination(r, a, a').Some? && InstanceDestination(r, b, b').Some? {
      MovesExactlyWhatIsCovered(r, a, a');
      MovesExactlyWhatIsCovered(r, b, b');
    }
    if r :| Covers(a, r) && Covers(b, r) {
      MovesExactlyWhatIsCovered(r, a, a');
      MovesExactlyWhatIsCovered(r, b, b');
      assert InstanceDestination(r, a, a').Some? && InstanceDestination(r, b, b').Some?;
    }
  }

  /** One statement can move on what another has moved exactly when the first one's "to" and the
      second one's "from" chain or nest. */
  lemma {:induction false} ChainedMovesAreRelated(a: Endpoint, a': Endpoint, b: Endpoint, b': Endpoint)
    requires a.SameStatement(a') && b.SameStatement(b')
    requires a.WellFormed() && a'.WellFormed() && b.WellFormed()
    ensures (exists r, y :: InstanceDestination(r, a, a') == Some(y) && InstanceDestination(y, b, b').Some?)
            <==> Related(a', b)
  {
    OverlapIsDecided(a', b);
    if r, y :| InstanceDestination(r, a, a') == Some(y) && InstanceDestination(y, b, b').Some? {
      InstanceMoveIsReversible(r, a, a');
      MovesExactlyWhatIsCovered(y, a', a);
      MovesExactlyWhatIsCovered(y, b, b');
      assert Covers(a', y) && Covers(b, y);
    }
    if y :| Covers(a', y) && Covers(b, y) {
      MovesExactlyWhatIsCovered(y, a', a);
      MovesExactlyWhatIsCovered(y, b, b');
      InstanceMoveIsReversible(y, a', a);
      var r := InstanceDestination(y, a', a).value;
      assert InstanceDestination(r, a, a') == Some(y) && InstanceDestination(y, b, b').Some?;
    }
  }

  /** A statement about resources moves an instance exactly when SelectsResource picks its
      resource and, for an instance statement, the key is the written one. */
  lemma {:induction false} ResourceMoveFollowsSelection(r: AbsResourceInstance, from: Endpoint, to: Endpoint)
    requires from.SameStatement(to) && from.WellFormed() && !from.sub.ModuleKind()
    ensures InstanceDestination(r, from, to).Some? <==>
            && SelectsResource(from, r.ContainingResource())
            && (from.sub.ResourceInstanceAddr? ==> r.resource.key == from.sub.resInst.resource.key)
  {
    MovesExactlyWhatIsCovered(r, from, to);
    CoversIsFitsPattern(from, r);
  }

  /** Swapping the ends of a statement undoes a module move, unless the result is the root
      module, which is never itself moveable. */
  lemma {:induction false} ModuleMoveIsReversible(m: ModuleInstance, from: Endpoint, to: Endpoint)
    requires from.SameStatement(to) && ModuleDestination(m, from, to).Some?
    ensures var y := ModuleDestination(m, from, to).value;
            ModuleDestination(y, to, from) == if y == [] then None else Some(m)
  {
    MatchIsExample(from, m);
    var y := ModuleDestination(m, from, to).value;
    if y != [] {
      ExampleMatches(to, m[..|from.base|], MatchedKey(from, m), m[Consumed(from)..]);
    }
  }

  lemma {:induction false} ExactPathIsReversible(path: ModuleInstance, from: Endpoint, to: Endpoint)
    requires from.SameStatement(to) && AtRelativePath(from, path)
    ensures var q := path[..|from.base|] + to.sub.Path();
            && AtRelativePath(to, q) && q[..|from.base|] == path[..|from.base|]
            && q[..|from.base|] + from.sub.Path() == path
  {
    var q := path[..|from.base|] + to.sub.Path();
    assert q[..|from.base|] == path[..|from.base|];
  }

  lemma {:induction false} ResourceMoveIsReversible(r: AbsResource, from: Endpoint, to: Endpoint)
    requires from.SameStatement(to) && from.WellFormed() && to.WellFormed()
    requires ResourceDestination(r, from, to).Some?
    ensures ResourceDestination(ResourceDestination(r, from, to).value, to, from) == Some(r)
  {
    if from.sub.ModuleKind() {
      ModuleMoveIsReversible(r.path, from, to);
    } else {
      ExactPathIsReversible(r.path, from, to);
    }
  }

  /** A whole resource moves exactly when all its instances move along, each keeping its key: never
      under a statement about one instance. */
  lemma {:induction false} WholeResourceMoves(r: AbsResource, y: AbsResource, from: Endpoint, to: Endpoint)
    requires from.SameStatement(to)
    ensures ResourceDestination(r, from, to) == Some(y) <==>
            forall k :: InstanceDestination(r.Instance(k), from, to) == Some(y.Instance(k))
  {
    if forall k :: InstanceDestination(r.Instance(k), from, to) == Some(y.Instance(k)) {
      assert InstanceDestination(r.Instance(NoKey), from, to) == Some(y.Instance(NoKey));
      assert InstanceDestination(r.Instance(WildcardKey), from, to) == Some(y.Instance(WildcardKey));
      assert r.Instance(NoKey).ContainingResource() == r;
    }
    forall k | ResourceDestination(r, from, to) == Some(y)
      ensures InstanceDestination(r.Instance(k), from, to) == Some(y.Instance(k))
    {
      assert r.Instance(k).ContainingResource() == r;
    }
  }

  lemma {:induction false} InstanceMoveIsReversible(r: AbsResourceInstance, from: Endpoint, to: Endpoint)
    requires from.SameStatement(to) && from.WellFormed() && to.WellFormed()
    requires InstanceDestination(r, from, to).Some?
    ensures InstanceDestination(InstanceDestination(r, from, to).value, to, from) == Some(r)
  {
    match from.sub {
      case ResourceInstanceAddr(_) => ExactPathIsReversible(r.path, from, to);
      case ResourceAddr(_) => ResourceMoveIsReversible(r.ContainingResource(), from, to);
      case _ => ModuleMoveIsReversible(r.path, from, to);
    }
  }

  /** One statement never sends two module instances to the same place, the root included. */
  lemma {:induction false} ModuleMovesAreInjective(x: ModuleInstance, y: ModuleInstance, from: Endpoint, to: Endpoint)
    requires from.SameStatement(to)
    requires ModuleDestination(x, from, to).Some? && ModuleDestination(x, from, to) == ModuleDestination(y, from, to)
    ensures x == y
  {
    ModuleMoveIsReversible(x, from, to);
    ModuleMoveIsReversible(y, from, to);
    if ModuleDestination(x, from, to) == Some([]) {
      MatchIsExample(from, x);
      MatchIsExample(from, y);
      RootExample(to, x[..|from.base|], MatchedKey(from, x), x[Consumed(from)..]);
      RootExample(to, y[..|from.base|], MatchedKey(from, y), y[Consumed(from)..]);
    }
  }

  lemma {:induction false} RootExample(e: Endpoint, p: ModuleInstance, k: InstanceKey, s: ModuleInstance)
    requires e.sub.ModuleKind() && |p| == |e.base| && Example(e, p, k, s) == []
    ensures p == [] && s == [] && e.sub.ModuleInstanceAddr?
  {
    var m := Example(e, p, k, s);
    assert |m| == |p| + |e.sub.Path()| + |s| + if e.sub.ModuleCallAddr? then 1 else 0;
  }

  /** One statement never sends two resources to the same place. */
  lemma {:induction false} ResourceMovesAreInjective(x: AbsResource, y: AbsResource, from: Endpoint, to: Endpoint)
    requires from.SameStatement(to) && from.WellFormed() && to.WellFormed()
    requires ResourceDestination(x, from, to).Some?
    requires ResourceDestination(x, from, to) == ResourceDestination(y, from, to)
    ensures x == y
  {
    ResourceMoveIsReversible(x, from, to);
    ResourceMoveIsReversible(y, from, to);
  }

  /** One statement never sends two resource instances to the same place. */
  lemma {:induction false} MovesAreInjective(x: AbsResourceInstance, y: AbsResourceInstance, from: Endpoint,
                                             to: Endpoint)
    requires from.SameStatement(to) && from.WellFormed() && to.WellFormed()
    requires InstanceDestination(x, from, to).Some?
    requires InstanceDestination(x, from, to) == InstanceDestination(y, from, to)
    ensures x == y
  {
    InstanceMoveIsReversible(x, from, to);
    InstanceMoveIsReversible(y, from, to);
  }

  // ---------- Re-indexing ----------

  predicate IsModuleReIndex(from: Endpoint, to: Endpoint)
    requires from.base == to.base
  {
    match (from.sub, to.sub)
    case (ModuleCallAddr(f), ModuleInstanceAddr(t)) => StaticModule(f.Instance(NoKey)) == StaticModule(t)
    case (ModuleInstanceAddr(f), ModuleCallAddr(t)) => StaticModule(t.Instance(NoKey)) == StaticModule(f)
    case (ModuleInstanceAddr(f), ModuleInstanceAddr(t)) => StaticModule(t) == StaticModule(f)
    case _ => false
  }

  /** Over all pairs of endpoints of one module, also those no statement combines: a re-index is
      reported exactly between module kinds, not both whole calls, with one static object. */
  lemma {:induction false} ReIndexComparesStaticObjects(from: Endpoint, to: Endpoint, p: ModuleInstance)
    requires from.base == to.base && InstanceOf(p, from.base)
    ensures IsModuleReIndex(from, to) <==>
            && from.sub.ModuleKind() && to.sub.ModuleKind()
            && !(from.sub.ModuleCallAddr? && to.sub.ModuleCallAddr?)
            && StaticObject(InModuleInstance(from, p)) == StaticObject(InModuleInstance(to, p))
  {
    if from.sub.ModuleKind() && to.sub.ModuleKind() {
      StaticModuleOfObject(from, p);
      StaticModuleOfObject(to, p);
      var f, t := from.sub.Unkeyed().inst, to.sub.Unkeyed().inst;
      assert (StaticModule(p) + StaticModule(f))[|p|..] == StaticModule(f);
      assert (StaticModule(p) + StaticModule(t))[|p|..] == StaticModule(t);
    }
  }

  lemma {:induction false} StaticModuleOfObject(e: Endpoint, p: ModuleInstance)
    requires e.sub.ModuleKind() && |p| == |e.base|
    ensures StaticObject(InModuleInstance(e, p)) == ConfigModule(StaticModule(p) + StaticModule(e.sub.Unkeyed().inst))
  {
    StaticModuleAppend(p, e.sub.Path());
    if e.sub.ModuleCallAddr? {
      StaticModuleAppend(e.sub.Path(), [Step(e.sub.call.call, NoKey)]);
      var a, b, c := StaticModule(p), StaticModule(e.sub.Path()), StaticModule([Step(e.sub.call.call, NoKey)]);
      assert c == [e.sub.call.call];
      assert (a + b) + c == a + (b + c);
    }
  }

  ghost predicate KeepsStaticPaths(from: Endpoint, to: Endpoint)
    requires from.SameStatement(to)
  {
    forall m | ModuleDestination(m, from, to).Some? ::
      StaticModule(ModuleDestination(m, from, to).value) == StaticModule(m)
  }

  /** The static names below the declaring module; a call's key does not show. */
  function StaticSub(e: Endpoint): Module
    requires e.sub.ModuleKind()
  {
    StaticModule(e.sub.Unkeyed().inst)
  }

  lemma {:induction false} PathsOfExamples(e: Endpoint, p: ModuleInstance, k: InstanceKey, s: ModuleInstance)
    requires e.sub.ModuleKind() && |p| == |e.base|
    ensures StaticModule(Example(e, p, k, s)) == StaticModule(p) + StaticSub(e) + StaticModule(s)
  {
    match e.sub {
      case ModuleInstanceAddr(m) =>
        StaticModuleAppend(p, m);
        StaticModuleAppend(p + m, s);
      case ModuleCallAddr(c) =>
        var step := [Step(c.call, k)];
        StaticModuleAppend(p, c.path);
        StaticModuleAppend(p + c.path, step);
        StaticModuleAppend((p + c.path) + step, s);
        StaticModuleAppend(c.path, [Step(c.call, NoKey)]);
        assert StaticModule(step) == [c.call] && StaticModule([Step(c.call, NoKey)]) == [c.call];
        Regroup(StaticModule(p), StaticModule(c.path), [c.call]);
    }
  }

  /** A statement keeps static paths exactly when its two ends have one static path. */
  lemma {:induction false} StaticPathsAreKept(from: Endpoint, to: Endpoint)
    requires from.SameStatement(to) && from.sub.ModuleKind() && from.WellFormed()
    ensures KeepsStaticPaths(from, to) <==> StaticSub(from) == StaticSub(to)
  {
    if KeepsStaticPaths(from, to) {
      var p := seq(|from.base|, i requires 0 <= i < |from.base| => Step(from.base[i], NoKey));
      var x, y := Example(from, p, NoKey, []), Example(to, p, NoKey, []);
      assert InstanceOf(p, from.base) && IsExample(from, x, p, NoKey, []) && x != [];
      ModuleMoveFollowsExamples(x, from, to);
      assert ModuleDestination(x, from, to) == Some(y);
      PathsOfExamples(from, p, NoKey, []);
      PathsOfExamples(to, p, NoKey, []);
      assert StaticModule(x)[|p|..] == StaticSub(from) && StaticModule(y)[|p|..] == StaticSub(to);
    }
    if StaticSub(from) == StaticSub(to) {
      forall m | ModuleDestination(m, from, to).Some?
        ensures StaticModule(ModuleDestination(m, from, to).value) == StaticModule(m)
      {
        MatchIsExample(from, m);
        PathsOfExamples(from, m[..|from.base|], MatchedKey(from, m), m[Consumed(from)..]);
        PathsOfExamples(to, m[..|from.base|], MatchedKey(from, m), m[Consumed(from)..]);
      }
    }
  }

  /** The report tells exactly whether every module a statement moves keeps its static path, unless
      both ends are whole calls with one static path: those keep it and are never reported. */
  lemma {:induction false} ReIndexKeepsStaticPaths(from: Endpoint, to: Endpoint)
    requires from.SameStatement(to) && from.sub.ModuleKind() && from.WellFormed() && to.WellFormed()
    ensures IsModuleReIndex(from, to) <==> from.sub.ModuleInstanceAddr? && KeepsStaticPaths(from, to)
    ensures (IsModuleReIndex(from, to) <==> KeepsStaticPaths(from, to)) <==>
            !(from.sub.ModuleCallAddr? && StaticSub(from) == StaticSub(to))
  {
    StaticPathsAreKept(from, to);
  }

  /** A statement of that kind: module.a[0].module.b moved to module.a[1].module.b. */
  lemma {:induction false} WholeCallReIndexIsNotReported(a: string, b: string, i: GoInt, j: GoInt)
    ensures var x := ModuleInstanceAddr([Step(a, IntKey(i)), Step(b, NoKey)]);
            var y := ModuleInstanceAddr([Step(a, IntKey(j)), Step(b, NoKey)]);
            && Unify([], x, y).Some?
            && var (f, t) := Unify([], x, y).value;
            && f.SameStatement(t) && KeepsStaticPaths(f, t) && !IsModuleReIndex(f, t)
  {
    var x := ModuleInstanceAddr([Step(a, IntKey(i)), Step(b, NoKey)]);
    var y := ModuleInstanceAddr([Step(a, IntKey(j)), Step(b, NoKey)]);
    UnifyAgrees([], x, y);
    var (f, t) := Unify([], x, y).value;
    assert f.sub.Path() == [Step(a, IntKey(i))];
    StaticPathsAreKept(f, t);
    assert StaticSub(f) == [a, b] && StaticSub(t) == [a, b];
  }
}
