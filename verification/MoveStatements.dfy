/** A "moved" statement from its two traversals to the moves it makes. */
module MoveStatements {
  import opened Addrs
  import opened MoveEndpoints
  import opened Moves
  import opened Parsing
  import opened Targeting
  import Printing
  import Quoting

  /** ParseMoveEndpoint: a module path, or a module path followed by a resource. */
  function ParseMoveEndpoint(t: Traversal): Option<RelSubject> {
    var p := InstancePrefixOf(t, false);
    if !p.ok then None
    else if p.remain == [] then Some(ModuleInstanceAddr(p.path))
    else
      RemainderIsRooted(t, false);
      match ParseResource(p.path, false, Rooted(p.remain))
      case Some(ri) => Some(ResourceInstanceAddr(ri))
      case None => None
  }

  function ParseStatement(base: Module, from: Traversal, to: Traversal): Option<(Endpoint, Endpoint)> {
    match (ParseMoveEndpoint(from), ParseMoveEndpoint(to))
    case (Some(f), Some(t)) => Unify(base, f, t)
    case _ => None
  }

  /** An endpoint names exactly what the same traversal targets; a whole resource is read as its
      unkeyed instance. */
  lemma {:induction false} EndpointsAreTargets(t: Traversal)
    ensures ParseMoveEndpoint(t) == match ParseTarget(t, false)
            case None => None
            case Some(x) =>
              (match x
               case ModuleInstanceTarget(m) => Some(ModuleInstanceAddr(m))
               case ResourceTarget(r) => Some(ResourceInstanceAddr(r.Instance(NoKey)))
               case InstanceTarget(ri) => Some(ResourceInstanceAddr(ri))
               case _ => None)
  {
    RemainderIsRooted(t, false);
  }

  /** A statement is accepted exactly when both ends are endpoints of one kind, and each end keeps
      what was written. */
  lemma {:induction false} StatementsKeepTheirEnds(base: Module, from: Traversal, to: Traversal)
    ensures ParseStatement(base, from, to).Some? <==>
            && ParseMoveEndpoint(from).Some? && ParseMoveEndpoint(to).Some?
            && ParseMoveEndpoint(from).value.ModuleKind() == ParseMoveEndpoint(to).value.ModuleKind()
    ensures match ParseStatement(base, from, to)
            case None => true
            case Some((f, t)) =>
              && f.base == base
              && Some(f.sub.Unkeyed()) == ParseMoveEndpoint(from) && Some(t.sub.Unkeyed()) == ParseMoveEndpoint(to)
  {
    if ParseMoveEndpoint(from).Some? && ParseMoveEndpoint(to).Some? {
      UnifyAgrees(base, ParseMoveEndpoint(from).value, ParseMoveEndpoint(to).value);
    }
  }

  lemma {:induction false} PrefixHasNoAnyKey(t: Traversal)
    ensures NoAnyKey(InstancePrefixOf(t, false).path)
    ensures t != [] && InstancePrefixOf(t, false).ok && InstancePrefixOf(t, false).remain == [] ==>
            InstancePrefixOf(t, false).path != []
    decreases |t|
  {
    if t == [] || !ModuleHead(t).Call? {
    } else {
      var (n, _, _) := ReadKey(t[2..], false);
      PrefixHasNoAnyKey(t[2..][n..]);
    }
  }

  lemma {:induction false} ResourceHasNoAnyKey(path: ModuleInstance, t: Traversal)
    requires t != [] && t[0].Root? && ParseResource(path, false, t).Some?
    ensures var ri := ParseResource(path, false, t).value;
            ri.path == path && !ri.resource.key.AnyKey?
  {
    var (mode, n) := ModeOfWord(t[0].name).value;
    var tail := t[n..][2..];
    assert ParseTail(tail, false).Some? && !ParseTail(tail, false).value.AnyKey?;
  }

  lemma {:induction false} ParsedSubjects(t: Traversal)
    requires t != [] && ParseMoveEndpoint(t).Some?
    ensures Endpoint([], ParseMoveEndpoint(t).value).WellFormed()
  {
    var p := InstancePrefixOf(t, false);
    PrefixHasNoAnyKey(t);
    RemainderIsRooted(t, false);
    if p.remain != [] {
      ResourceHasNoAnyKey(p.path, Rooted(p.remain));
    }
  }

  lemma {:induction false} PreparingKeepsWellFormed(s: RelSubject, base: Module, want: AddrType)
    requires Endpoint([], s).WellFormed() && Prepare(s, base, want).Some?
    ensures Prepare(s, base, want).value.WellFormed()
  {
    var e := Prepare(s, base, want).value;
    assert e.sub.Path() <= s.Path();
    forall i | 0 <= i < |e.sub.Path()| ensures !e.sub.Path()[i].key.AnyKey? {
      assert e.sub.Path()[i] == Endpoint([], s).sub.Path()[i];
    }
  }

  /** Endpoints written in configuration always meet what the move methods rely on. */
  lemma {:induction false} StatementsAreWellFormed(base: Module, from: Traversal, to: Traversal)
    requires from != [] && to != [] && ParseStatement(base, from, to).Some?
    ensures var (f, t) := ParseStatement(base, from, to).value;
            f.SameStatement(t) && f.WellFormed() && t.WellFormed()
  {
    ParsedSubjects(from);
    ParsedSubjects(to);
    var s, s' := ParseMoveEndpoint(from).value, ParseMoveEndpoint(to).value;
    UnifyAgrees(base, s, s');
    var want := WantType(InternalAddrType(s), InternalAddrType(s'));
    PreparingKeepsWellFormed(s, base, want);
    PreparingKeepsWellFormed(s', base, want);
  }

  ghost predicate UndoneBy(f: Endpoint, t: Endpoint)
    requires f.SameStatement(t)
  {
    forall r | InstanceDestination(r, f, t).Some? ::
      InstanceDestination(InstanceDestination(r, f, t).value, t, f) == Some(r)
  }

  lemma {:induction false} UnifySwaps(base: Module, s: RelSubject, s': RelSubject)
    ensures Unify(base, s', s) == match Unify(base, s, s') case Some((f, t)) => Some((t, f)) case None => None
  {
    assert WantType(InternalAddrType(s), InternalAddrType(s')) == WantType(InternalAddrType(s'), InternalAddrType(s));
  }

  /** So every parsed statement can be undone by swapping its two traversals. */
  lemma {:induction false} SwappingUndoes(base: Module, from: Traversal, to: Traversal, f: Endpoint, t: Endpoint)
    requires from != [] && to != [] && ParseStatement(base, from, to) == Some((f, t))
    ensures ParseStatement(base, to, from) == Some((t, f))
    ensures f.SameStatement(t) && UndoneBy(f, t)
  {
    StatementsAreWellFormed(base, from, to);
    UnifySwaps(base, ParseMoveEndpoint(from).value, ParseMoveEndpoint(to).value);
    forall r | InstanceDestination(r, f, t).Some?
      ensures InstanceDestination(InstanceDestination(r, f, t).value, t, f) == Some(r)
    {
      InstanceMoveIsReversible(r, f, t);
    }
  }

  /** Two endpoints that can be written, differ, and yet print alike: resource.module.x and module.x. */
  lemma {:induction false} ModuleWordPrintsAlike(x: string, pr: Quoting.Printable)
    requires Printing.CleanName(x)
    ensures var ri := AbsResource([], Resource(Managed, "module", x)).Instance(NoKey);
            && ParseMoveEndpoint([Root("resource"), Attr("module"), Attr(x)]) == Some(ResourceInstanceAddr(ri))
            && ParseMoveEndpoint([Root("module"), Attr(x)]) == Some(ModuleInstanceAddr([Step(x, NoKey)]))
            && Printing.InstanceString(ri, pr) == Printing.ModuleString([Step(x, NoKey)], pr)
  {
    var ri := AbsResource([], Resource(Managed, "module", x)).Instance(NoKey);
    var t, u := [Root("resource"), Attr("module"), Attr(x)], [Root("module"), Attr(x)];
    assert t[1..] == [Attr("module"), Attr(x)] && t[1..][2..] == [];
    assert u[2..] == [] && u[2..][0..] == [] && [Step(x, NoKey)] + [] == [Step(x, NoKey)];
    assert ModuleHead(u) == Call(x) && ReadKey(u[2..], false) == (0, NoKey, true);
    assert InstancePrefixOf([], false) == Prefix([], [], true);
    assert InstancePrefixOf(u, false) == Prefix([Step(x, NoKey)], [], true);
    assert [] + [Step(x, NoKey)] == [Step(x, NoKey)];
    Printing.ModuleAndResourceTexts([Step(x, NoKey)], ri, pr);
  }
}
