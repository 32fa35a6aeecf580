/** Address traversals and their parsers: module prefixes in three variants, and targets. */
module Parsing {
  import opened Addrs
  import opened PartialExpanded
  import opened Targeting
  import Printing
  import Quoting

  /** Index keys of a traversal; an unknown value has no usable type. */
  datatype CtyKey = CtyString(s: string) | CtyNumber(n: real) | CtyUnknown | CtyOther

  datatype TraverseStep = Root(name: string) | Attr(name: string) | Index(key: CtyKey) | Splat
  type Traversal = seq<TraverseStep>

  /** gocty.FromCtyValue into an int: only whole numbers in range. */
  function IntFromCty(n: real): Option<GoInt> {
    if n == n.Floor as real && -0x8000_0000_0000_0000 <= n.Floor < 0x8000_0000_0000_0000 then Some(n.Floor) else None
  }

  /** ParseInstanceKey. */
  function ParseKey(k: CtyKey): Option<InstanceKey> {
    match k
    case CtyString(s) => Some(StringKey(s))
    case CtyNumber(n) => (match IntFromCty(n) case Some(i) => Some(IntKey(i)) case None => None)
    case _ => None
  }

  /** Callers always get a remainder that starts with a root step. */
  function Rooted(t: Traversal): Traversal {
    if t != [] && t[0].Attr? then [Root(t[0].name)] + t[1..] else t
  }

  // ---------- The three module prefix parsers ----------

  /** The start of one loop round, the same in all three parsers: stop, fail after dropping some
      steps, or go on with a module call name. */
  datatype Head = EndOfModules | Broken(drop: nat) | Call(name: string)

  function ModuleHead(t: Traversal): Head
    requires t != []
  {
    if !t[0].Root? && !t[0].Attr? then Broken(0)
    else if t[0].name != "module" then EndOfModules
    else if |t| == 1 || !t[1].Attr? then Broken(1)
    else Call(t[1].name)
  }

  datatype Prefix<T> = Prefix(path: T, remain: Traversal, ok: bool)

  /** The key after a call name: how many steps it takes, the key, and whether it is valid. */
  function ReadKey(t: Traversal, allowPartial: bool): (nat, InstanceKey, bool) {
    if t == [] then (0, NoKey, true)
    else if t[0].Index? then
      (match ParseKey(t[0].key) case Some(k) => (1, k, true) case None => (1, NoKey, false))
    else if t[0].Splat? && allowPartial then (1, WildcardKey, true)
    else (0, NoKey, true)
  }

  /** What the loop has collected so far, followed by what the rest yields. */
  function Resume<T>(done: seq<T>, ok: bool, rest: Prefix<seq<T>>): Prefix<seq<T>> {
    Prefix(done + rest.path, rest.remain, ok && rest.ok)
  }

  lemma {:induction false} ResumeLaws<T>(done: seq<T>, ok: bool, x: T, rest: Prefix<seq<T>>)
    ensures Resume([], true, rest) == rest
    ensures rest.path == [] ==> Resume(done, ok, rest) == Prefix(done, rest.remain, ok && rest.ok)
    ensures Resume(done + [x], ok, rest) == Resume(done, ok, rest.(path := [x] + rest.path))
  {
    assert [] + rest.path == rest.path && done + [] == done;
    assert done + [x] + rest.path == done + ([x] + rest.path);
  }

  function InstancePrefixOf(t: Traversal, allowPartial: bool): Prefix<ModuleInstance> {
    if t == [] then Prefix([], [], true) else
    match ModuleHead(t)
    case EndOfModules => Prefix([], t, true)
    case Broken(n) => Prefix([], t[n..], false)
    case Call(name) =>
      var (n, key, ok) := ReadKey(t[2..], allowPartial);
      var p := InstancePrefixOf(t[2..][n..], allowPartial);
      Prefix([Step(name, key)] + p.path, p.remain, ok && p.ok)
  }

  method ParseModuleInstancePrefix(t: Traversal, allowPartial: bool) returns (p: Prefix<ModuleInstance>)
    ensures var q := InstancePrefixOf(t, allowPartial); p == q.(remain := Rooted(q.remain))
  {
    var remain, mi, ok := t, [], true;
    ghost var q := InstancePrefixOf(t, allowPartial);
    var stopped := false;
    ResumeLaws([], true, Step("", NoKey), q);
    while |remain| > 0 && !stopped
      invariant stopped ==> q == Prefix(mi, remain, ok)
      invariant !stopped ==> q == Resume(mi, ok, InstancePrefixOf(remain, allowPartial))
      decreases |remain|, !stopped
    {
      ghost var before, was := remain, ok;
      ResumeLaws(mi, ok, Step("", NoKey), InstancePrefixOf(remain, allowPartial));
      match ModuleHead(remain) {
        case EndOfModules =>
          stopped := true;
        case Broken(n) =>
          ok := false;
          remain := remain[n..];
          stopped := true;
        case Call(name) =>
          remain := remain[2..];
          var step := Step(name, NoKey);
          if |remain| > 0 {
            match remain[0] {
              case Index(key) =>
                remain := remain[1..];
                match key {
                  case CtyString(s) => step := step.(key := StringKey(s));
                  case CtyNumber(n) =>
                    match IntFromCty(n) {
                      case Some(i) => step := step.(key := IntKey(i));
                      case None => ok := false;
                    }
                  case _ => ok := false;
                }
              case Splat =>
                if allowPartial {
                  remain := remain[1..];
                  step := step.(key := WildcardKey);
                }
              case _ =>
            }
          }
          ResumeLaws(mi, ok, step, InstancePrefixOf(remain, allowPartial));
          mi := mi + [step];
      }
    }
    ResumeLaws(mi, ok, Step("", NoKey), InstancePrefixOf(remain, allowPartial));
    p := Prefix(mi, Rooted(remain), ok);
  }

  function ModulePrefixOf(t: Traversal): Prefix<Module> {
    if t == [] then Prefix([], [], true) else
    match ModuleHead(t)
    case EndOfModules => Prefix([], t, true)
    case Broken(n) => Prefix([], t[n..], false)
    case Call(name) =>
      if |t| > 2 && t[2].Index? then Prefix([], t[2..], false)
      else
        var p := ModulePrefixOf(t[2..]);
        p.(path := [name] + p.path)
  }

  method ParseModulePrefix(t: Traversal) returns (p: Prefix<Module>)
    ensures var q := ModulePrefixOf(t); p == q.(remain := Rooted(q.remain))
  {
    var remain, names, ok := t, [], true;
    ghost var q := ModulePrefixOf(t);
    var stopped := false;
    ResumeLaws([], true, "", q);
    while |remain| > 0 && !stopped
      invariant stopped ==> q == Prefix(names, remain, ok)
      invariant !stopped ==> ok && q == Resume(names, true, ModulePrefixOf(remain))
      decreases |remain|, !stopped
    {
      ResumeLaws(names, true, "", ModulePrefixOf(remain));
      match ModuleHead(remain) {
        case EndOfModules =>
          stopped := true;
        case Broken(n) =>
          ok := false;
          remain := remain[n..];
          stopped := true;
        case Call(name) =>
          remain := remain[2..];
          if |remain| > 0 && remain[0].Index? {
            ok := false;
            stopped := true;
          } else {
            ResumeLaws(names, true, name, ModulePrefixOf(remain));
            names := names + [name];
          }
      }
    }
    ResumeLaws(names, true, "", ModulePrefixOf(remain));
    p := Prefix(names, Rooted(remain), ok);
  }

  /** expanded says that no unknown index has been seen yet. */
  function PartialPrefixOf(t: Traversal, expanded: bool): Prefix<PartialModule> {
    if t == [] then Prefix(PartialModule([], []), [], true) else
    match ModuleHead(t)
    case EndOfModules => Prefix(PartialModule([], []), t, true)
    case Broken(n) => Prefix(PartialModule([], []), t[n..], false)
    case Call(name) =>
      var indexed := |t| > 2 && t[2].Index?;
      if !expanded || (indexed && t[2].key.CtyUnknown?) then
        var p := PartialPrefixOf(if indexed then t[2..][1..] else t[2..], false);
        p.(path := p.path.(suffix := [name] + p.path.suffix))
      else
        var (n, key, ok) := ReadKey(t[2..], false);
        var p := PartialPrefixOf(t[2..][n..], true);
        Prefix(p.path.(prefix := [Step(name, key)] + p.path.prefix), p.remain, ok && p.ok)
  }

  function ResumePartial(done: PartialModule, ok: bool, rest: Prefix<PartialModule>): Prefix<PartialModule> {
    Prefix(PartialModule(done.prefix + rest.path.prefix, done.suffix + rest.path.suffix), rest.remain, ok && rest.ok)
  }

  lemma {:induction false} ResumePartialLaws(done: PartialModule, ok: bool, step: Step, name: string,
                                             rest: Prefix<PartialModule>)
    ensures ResumePartial(PartialModule([], []), true, rest) == rest
    ensures rest.path == PartialModule([], []) ==>
              ResumePartial(done, ok, rest) == Prefix(done, rest.remain, ok && rest.ok)
    ensures ResumePartial(done.(prefix := done.prefix + [step]), ok, rest) ==
            ResumePartial(done, ok, rest.(path := rest.path.(prefix := [step] + rest.path.prefix)))
    ensures ResumePartial(done.(suffix := done.suffix + [name]), ok, rest) ==
            ResumePartial(done, ok, rest.(path := rest.path.(suffix := [name] + rest.path.suffix)))
  {
    assert [] + rest.path.prefix == rest.path.prefix && [] + rest.path.suffix == rest.path.suffix;
    assert done.prefix + [] == done.prefix && done.suffix + [] == done.suffix;
    assert done.prefix + [step] + rest.path.prefix == done.prefix + ([step] + rest.path.prefix);
    assert done.suffix + [name] + rest.path.suffix == done.suffix + ([name] + rest.path.suffix);
  }

  method ParsePartialExpandedModule(t: Traversal) returns (p: Prefix<PartialModule>)
    ensures var q := PartialPrefixOf(t, true); p == q.(remain := Rooted(q.remain))
  {
    var remain, partial, ok := t, PartialModule([], []), true;
    ghost var q := PartialPrefixOf(t, true);
    var stopped, expanded := false, true;
    ResumePartialLaws(partial, true, Step("", NoKey), "", q);
    while |remain| > 0 && !stopped
      invariant stopped ==> q == Prefix(partial, remain, ok)
      invariant !stopped ==> q == ResumePartial(partial, ok, PartialPrefixOf(remain, expanded))
      decreases |remain|, !stopped
    {
      ResumePartialLaws(partial, ok, Step("", NoKey), "", PartialPrefixOf(remain, expanded));
      match ModuleHead(remain) {
        case EndOfModules =>
          stopped := true;
        case Broken(n) =>
          ok := false;
          remain := remain[n..];
          stopped := true;
        case Call(name) =>
          remain := remain[2..];
          if expanded {
            var step := Step(name, NoKey);
            if |remain| > 0 && remain[0].Index? {
              var key := remain[0].key;
              remain := remain[1..];
              match key {
                case CtyUnknown => expanded := false;
                case CtyString(s) => step := step.(key := StringKey(s));
                case CtyNumber(n) =>
                  match IntFromCty(n) {
                    case Some(i) => step := step.(key := IntKey(i));
                    case None => ok := false;
                  }
                case CtyOther => ok := false;
              }
            }
            ResumePartialLaws(partial, ok, step, name, PartialPrefixOf(remain, expanded));
            if expanded {
              partial := partial.(prefix := partial.prefix + [step]);
            } else {
              partial := partial.(suffix := partial.suffix + [name]);
            }
          } else {
            if |remain| > 0 && remain[0].Index? {
              remain := remain[1..];
            }
            ResumePartialLaws(partial, ok, Step("", NoKey), name, PartialPrefixOf(remain, expanded));
            partial := partial.(suffix := partial.suffix + [name]);
          }
      }
    }
    ResumePartialLaws(partial, ok, Step("", NoKey), "", PartialPrefixOf(remain, expanded));
    p := Prefix(partial, Rooted(remain), ok);
  }

  // ---------- The parsers agree ----------

  lemma {:induction false} ParsersAgreeWithoutKeys(t: Traversal)
    requires forall s | s in t :: !s.Index?
    ensures var p := InstancePrefixOf(t, false);
            ModulePrefixOf(t) == Prefix(StaticModule(p.path), p.remain, p.ok)
    decreases |t|
  {
    if t == [] || !ModuleHead(t).Call? {
    } else {
      ParsersAgreeWithoutKeys(t[2..]);
      assert |t| > 2 ==> t[2] in t;
      var step := Step(t[1].name, NoKey);
      StaticModuleAppend([step], InstancePrefixOf(t[2..], false).path);
      assert StaticModule([step]) == [step.name];
      assert t[2..][0..] == t[2..];
    }
  }

  lemma {:induction false} ParsersAgreeWhenKnown(t: Traversal)
    requires Index(CtyUnknown) !in t
    ensures var p := InstancePrefixOf(t, false);
            PartialPrefixOf(t, true) == Prefix(PartialModule(p.path, []), p.remain, p.ok)
    decreases |t|
  {
    if t == [] || !ModuleHead(t).Call? {
    } else {
      var (n, key, ok) := ReadKey(t[2..], false);
      ParsersAgreeWhenKnown(t[2..][n..]);
      assert |t| > 2 ==> t[2] in t;
    }
  }

  /** u is t once the unknown keys have become known. */
  predicate FillsIn(t: Traversal, u: Traversal) {
    |t| == |u| && forall i | 0 <= i < |t| ::
      if t[i] == Index(CtyUnknown) then u[i].Index? && ParseKey(u[i].key).Some? else u[i] == t[i]
  }

  lemma {:induction false} FillsInRest(t: Traversal, u: Traversal, n: nat)
    requires FillsIn(t, u) && n <= |t|
    ensures FillsIn(t[n..], u[n..])
  {
  }

  lemma {:induction false} HeadsFillIn(t: Traversal, u: Traversal)
    requires FillsIn(t, u) && t != []
    ensures ModuleHead(t) == ModuleHead(u)
    ensures |t| > 2 ==> t[2].Index? == u[2].Index? && (t[2] == u[2] || t[2] == Index(CtyUnknown))
  {
    assert |t| > 1 ==> t[1].Attr? == u[1].Attr?;
  }

  /** The pattern p stands for q among others; before any unknown key p may have a known part. */
  predicate Allows(p: PartialModule, q: ModuleInstance, expanded: bool) {
    StaticPath(p) == StaticModule(q) && p.prefix <= q && (!expanded ==> p.prefix == [])
  }

  lemma {:induction false} AllowsKnownStep(p: PartialModule, q: ModuleInstance, step: Step)
    requires Allows(p, q, true)
    ensures Allows(p.(prefix := [step] + p.prefix), [step] + q, true)
  {
    StaticModuleAppend([step], p.prefix);
    StaticModuleAppend([step], q);
    assert StaticModule([step]) + StaticModule(p.prefix) + p.suffix == StaticModule([step]) + StaticPath(p);
  }

  lemma {:induction false} AllowsUnknownStep(p: PartialModule, q: ModuleInstance, step: Step, expanded: bool)
    requires Allows(p, q, false)
    ensures Allows(p.(suffix := [step.name] + p.suffix), [step] + q, expanded)
  {
    StaticModuleAppend([step], q);
    assert StaticModule([step]) == [step.name];
    assert StaticPath(p) == p.suffix;
  }

  lemma {:induction false} FilledPath(t: Traversal, u: Traversal, expanded: bool)
    requires FillsIn(t, u) && InstancePrefixOf(u, false).ok
    ensures var p, q := PartialPrefixOf(t, expanded), InstancePrefixOf(u, false);
            p.ok && Allows(p.path, q.path, expanded)
    decreases |t|
  {
    if t == [] {
    } else {
      HeadsFillIn(t, u);
      if ModuleHead(t).Call? {
        var (n, key, ok) := ReadKey(u[2..], false);
        var open := !expanded || (|t| > 2 && t[2] == Index(CtyUnknown));
        var q, step := InstancePrefixOf(u[2..][n..], false).path, Step(u[1].name, key);
        FillsInRest(t, u, 2);
        FillsInRest(t[2..], u[2..], n);
        CallUnfolds(t, u, expanded);
        FilledPath(t[2..][n..], u[2..][n..], !open);
        var p := PartialPrefixOf(t[2..][n..], !open).path;
        if open {
          AllowsUnknownStep(p, q, step, expanded);
        } else {
          AllowsKnownStep(p, q, step);
        }
      }
    }
  }

  /** One round of both parsers on a call whose key becomes known. */
  lemma {:induction false} CallUnfolds(t: Traversal, u: Traversal, expanded: bool)
    requires FillsIn(t, u) && t != [] && ModuleHead(t).Call? && ModuleHead(u).Call? && InstancePrefixOf(u, false).ok
    ensures var (n, key, ok) := ReadKey(u[2..], false);
            var open := !expanded || (|t| > 2 && t[2] == Index(CtyUnknown));
            var p := PartialPrefixOf(t[2..][n..], !open);
            && ok && n <= |t| - 2
            && PartialPrefixOf(t, expanded) ==
               if open then p.(path := p.path.(suffix := [t[1].name] + p.path.suffix))
               else p.(path := p.path.(prefix := [Step(u[1].name, key)] + p.path.prefix))
  {
    HeadsFillIn(t, u);
    assert t[1] == u[1];
    assert t[2..][0..] == t[2..];
  }

  /** The partial parser's pattern matches every module instance that the traversal can turn out to
      be once its unknown keys are known. */
  lemma {:induction false} PartialParseCovers(t: Traversal, u: Traversal)
    requires FillsIn(t, u) && InstancePrefixOf(u, false).ok
    ensures PartialPrefixOf(t, true).ok
    ensures MatchesInstance(PartialPrefixOf(t, true).path, InstancePrefixOf(u, false).path)
  {
    FilledPath(t, u, true);
    MatchByPath(PartialPrefixOf(t, true).path, InstancePrefixOf(u, false).path);
  }

  // ---------- Targets ----------

  const RESERVED := {"count", "each", "local", "module", "path", "self", "terraform", "var", "template", "lazy", "arg"}

  /** The mode a leading word selects and how many steps it takes; None for a reserved word. */
  function ModeOfWord(word: string): Option<(ResourceMode, nat)> {
    if word == "data" then Some((Data, 1))
    else if word == "ephemeral" then Some((Ephemeral, 1))
    else if word == "list" then Some((ListMode, 1))
    else if word == "resource" then Some((Managed, 1))
    else if word in RESERVED then None
    else Some((Managed, 0))
  }

  function ParseTail(remain: Traversal, allowPartial: bool): Option<InstanceKey> {
    if remain == [] then Some(NoKey)
    else if |remain| > 1 then None
    else if remain[0].Index? then ParseKey(remain[0].key)
    else if remain[0].Splat? && allowPartial then Some(WildcardKey)
    else None
  }

  /** parseResourceInstanceUnderModule; RootName demands a leading root step. */
  function ParseResource(path: ModuleInstance, allowPartial: bool, remain: Traversal): Option<AbsResourceInstance>
    requires remain != [] && remain[0].Root?
  {
    match ModeOfWord(remain[0].name)
    case None => None
    case Some((mode, n)) =>
      var rest := remain[n..];
      if |rest| < 2 || (!rest[0].Root? && !rest[0].Attr?) || !rest[1].Attr? then None
      else
        match ParseTail(rest[2..], allowPartial)
        case None => None
        case Some(key) =>
          Some(AbsResourceInstance(path, ResourceInstance(Resource(mode, rest[0].name, rest[1].name), key)))
  }

  lemma {:induction false} RemainderIsRooted(t: Traversal, allowPartial: bool)
    ensures var p := InstancePrefixOf(t, allowPartial);
            p.ok && p.remain != [] ==> p.remain[0].Root? || p.remain[0].Attr?
    decreases |t|
  {
    if t == [] || !ModuleHead(t).Call? {
    } else {
      var (n, _, _) := ReadKey(t[2..], allowPartial);
      RemainderIsRooted(t[2..][n..], allowPartial);
    }
  }

  function ParseTarget(t: Traversal, allowPartial: bool): Option<Target> {
    var p := InstancePrefixOf(t, allowPartial);
    if !p.ok then None
    else if p.remain == [] then Some(ModuleInstanceTarget(p.path))
    else
      RemainderIsRooted(t, allowPartial);
      AsTarget(ParseResource(p.path, allowPartial, Rooted(p.remain)))
  }

  /** A resource instance without a key targets the whole resource. */
  function AsTarget(ri: Option<AbsResourceInstance>): Option<Target> {
    match ri
    case None => None
    case Some(ri) =>
      if ri.resource.key == NoKey then Some(ResourceTarget(ri.ContainingResource())) else Some(InstanceTarget(ri))
  }

  // ---------- The traversal of an address ----------

  function KeySteps(k: InstanceKey): Traversal {
    match k
    case NoKey => []
    case IntKey(i) => [Index(CtyNumber(i as real))]
    case StringKey(s) => [Index(CtyString(s))]
    case _ => [Splat]
  }

  function ModuleSteps(m: ModuleInstance): Traversal {
    if m == [] then [] else [Attr("module"), Attr(m[0].name)] + (KeySteps(m[0].key) + ModuleSteps(m[1..]))
  }

  function ModeSteps(mode: ResourceMode): Traversal {
    match mode
    case Data => [Attr("data")]
    case Ephemeral => [Attr("ephemeral")]
    case ListMode => [Attr("list")]
    case _ => []
  }

  function ResourceSteps(r: ResourceInstance): Traversal {
    [Attr(r.resource.typeName), Attr(r.resource.name)] + KeySteps(r.key)
  }

  function InstanceOfTarget(t: Target): AbsResourceInstance
    requires t.ResourceTarget? || t.InstanceTarget?
  {
    if t.ResourceTarget? then t.r.Instance(NoKey) else t.ri
  }

  /** The steps an address is written with; explicit adds the optional "resource" word. */
  function TargetSteps(t: Target, explicit: bool): Traversal
    requires Writable(t)
  {
    if t.ModuleInstanceTarget? then ModuleSteps(t.mi)
    else
      var ri := InstanceOfTarget(t);
      ModuleSteps(ri.path) + (Words(ri.resource.resource.mode, explicit) + ResourceSteps(ri.resource))
  }

  function Words(mode: ResourceMode, explicit: bool): Traversal {
    if explicit && mode == Managed then [Attr("resource")] else ModeSteps(mode)
  }

  predicate KeyAllowed(k: InstanceKey, allowPartial: bool) {
    !k.AnyKey? && (k.WildcardKey? ==> allowPartial)
  }

  /** The kinds of address a target can be. */
  predicate Writable(t: Target) {
    match t
    case ModuleInstanceTarget(_) => true
    case ResourceTarget(r) => r.resource.mode != InvalidMode
    case InstanceTarget(ri) => ri.resource.resource.mode != InvalidMode && ri.resource.key != NoKey
    case _ => false
  }

  predicate KeysAllowed(t: Target, allowPartial: bool)
    requires Writable(t)
  {
    if t.ModuleInstanceTarget? then forall s | s in t.mi :: KeyAllowed(s.key, allowPartial)
    else
      var ri := InstanceOfTarget(t);
      KeyAllowed(ri.resource.key, allowPartial) && forall s | s in ri.path :: KeyAllowed(s.key, allowPartial)
  }

  /** A managed type needs the explicit word when it would be taken for something else. */
  predicate NeedsWord(t: Target)
    requires Writable(t)
  {
    !t.ModuleInstanceTarget? &&
    var res := InstanceOfTarget(t).resource.resource;
    res.mode == Managed && ModeOfWord(res.typeName) != Some((Managed, 0))
  }

  // ---------- Parsing undoes writing ----------

  /** What may come after a key: anything, but after a missing key only a name. */
  predicate Follows(k: InstanceKey, rest: Traversal) {
    k != NoKey || rest == [] || rest[0].Root? || rest[0].Attr?
  }

  lemma {:induction false} KeyReadsBack(k: InstanceKey, rest: Traversal, allowPartial: bool)
    requires KeyAllowed(k, allowPartial) && Follows(k, rest)
    ensures ReadKey(KeySteps(k) + rest, allowPartial) == (|KeySteps(k)|, k, true)
    ensures (KeySteps(k) + rest)[|KeySteps(k)|..] == rest
  {
    if k.IntKey? {
      assert IntFromCty(k.index as real) == Some(k.index);
    }
  }

  predicate AfterModules(rest: Traversal) {
    rest == [] || ((rest[0].Root? || rest[0].Attr?) && rest[0].name != "module")
  }

  lemma {:induction false} CallStepParses(name: string, key: InstanceKey, next: Traversal, allowPartial: bool)
    requires KeyAllowed(key, allowPartial) && Follows(key, next)
    ensures InstancePrefixOf([Attr("module"), Attr(name)] + (KeySteps(key) + next), allowPartial) ==
            Resume([Step(name, key)], true, InstancePrefixOf(next, allowPartial))
  {
    var t := [Attr("module"), Attr(name)] + (KeySteps(key) + next);
    assert t[2..] == KeySteps(key) + next;
    KeyReadsBack(key, next, allowPartial);
  }

  lemma {:induction false} ModuleStepsUnfold(m: ModuleInstance, rest: Traversal)
    requires m != []
    ensures ModuleSteps(m) + rest ==
            [Attr("module"), Attr(m[0].name)] + (KeySteps(m[0].key) + (ModuleSteps(m[1..]) + rest))
  {
    Regroup([Attr("module"), Attr(m[0].name)], KeySteps(m[0].key) + ModuleSteps(m[1..]), rest);
    Regroup(KeySteps(m[0].key), ModuleSteps(m[1..]), rest);
  }

  /** Well-written calls are collected, and parsing goes on with whatever follows them. */
  lemma {:induction false} CallsAreCollected(m: ModuleInstance, rest: Traversal, allowPartial: bool)
    requires forall s | s in m :: KeyAllowed(s.key, allowPartial)
    requires m != [] ==> Follows(m[|m| - 1].key, rest)
    ensures InstancePrefixOf(ModuleSteps(m) + rest, allowPartial) ==
            Resume(m, true, InstancePrefixOf(rest, allowPartial))
    decreases |m|
  {
    var after := InstancePrefixOf(rest, allowPartial);
    if m == [] {
      assert ModuleSteps(m) + rest == rest && m + after.path == after.path;
    } else {
      var next := ModuleSteps(m[1..]) + rest;
      assert m[1..] != [] ==> m[1..][|m[1..]| - 1] == m[|m| - 1];
      assert m[1..] == [] ==> next == rest && m[0] == m[|m| - 1];
      CallsAreCollected(m[1..], rest, allowPartial);
      ModuleStepsUnfold(m, rest);
      CallStepParses(m[0].name, m[0].key, next, allowPartial);
      assert [m[0]] + m[1..] == m;
      Regroup([m[0]], m[1..], after.path);
    }
  }

  lemma {:induction false} ModuleStepsParse(m: ModuleInstance, rest: Traversal, allowPartial: bool)
    requires forall s | s in m :: KeyAllowed(s.key, allowPartial)
    requires AfterModules(rest)
    ensures InstancePrefixOf(ModuleSteps(m) + rest, allowPartial) == Prefix(m, rest, true)
  {
    CallsAreCollected(m, rest, allowPartial);
    assert m + [] == m;
  }

  /** Whether the first step is a root or an attribute makes no difference. */
  lemma {:induction false} RootingIsInvisible(t: Traversal, allowPartial: bool)
    ensures var p, q := InstancePrefixOf(t, allowPartial), InstancePrefixOf(Rooted(t), allowPartial);
            q.path == p.path && q.ok == p.ok && Rooted(q.remain) == Rooted(p.remain)
  {
    if t != [] && t[0].Attr? && ModuleHead(t).Call? {
      assert Rooted(t)[2..] == t[2..];
      var (n, _, _) := ReadKey(t[2..], allowPartial);
    }
  }

  lemma {:induction false} RootedTarget(t: Traversal, allowPartial: bool)
    ensures ParseTarget(Rooted(t), allowPartial) == ParseTarget(t, allowPartial)
  {
    RootingIsInvisible(t, allowPartial);
    RemainderIsRooted(t, allowPartial);
    RemainderIsRooted(Rooted(t), allowPartial);
  }

  lemma {:induction false} WordsSelectMode(mode: ResourceMode, explicit: bool, typeName: string)
    requires mode != InvalidMode
    requires mode == Managed && !explicit ==> ModeOfWord(typeName) == Some((Managed, 0))
    ensures var words := Words(mode, explicit);
            var first := if words == [] then typeName else words[0].name;
            && ModeOfWord(first) == Some((mode, |words|)) && first != "module"
            && forall w | w in words :: w.Attr?
  {
  }

  lemma {:induction false} ResourceStepsParse(ri: AbsResourceInstance, words: Traversal, allowPartial: bool)
    requires KeyAllowed(ri.resource.key, allowPartial)
    requires |words| <= 1 && forall w | w in words :: w.Attr?
    requires ModeOfWord(if words == [] then ri.resource.resource.typeName else words[0].name)
             == Some((ri.resource.resource.mode, |words|))
    ensures ParseResource(ri.path, allowPartial, Rooted(words + ResourceSteps(ri.resource))) == Some(ri)
  {
    var res, key := ri.resource.resource, ri.resource.key;
    var t := words + ResourceSteps(ri.resource);
    var r := Rooted(t);
    var rest := r[|words|..];
    assert r[0].name == t[0].name && |r| == |t| && forall i | 0 < i < |t| :: r[i] == t[i];
    assert rest[0].name == res.typeName && rest[1] == Attr(res.name);
    assert rest[2..] == KeySteps(key);
    if key.IntKey? {
      assert IntFromCty(key.index as real) == Some(key.index);
    }
    assert ParseTail(KeySteps(key), allowPartial) == Some(key);
  }

  lemma {:induction false} TargetOfPrefix(t: Traversal, path: ModuleInstance, rest: Traversal, allowPartial: bool)
    requires InstancePrefixOf(t, allowPartial) == Prefix(path, rest, true)
    ensures rest == [] ==> ParseTarget(t, allowPartial) == Some(ModuleInstanceTarget(path))
    ensures rest != [] ==>
              && (rest[0].Root? || rest[0].Attr?)
              && ParseTarget(t, allowPartial) == AsTarget(ParseResource(path, allowPartial, Rooted(rest)))
  {
    RemainderIsRooted(t, allowPartial);
  }

  lemma {:induction false} ResourceTargetParses(ri: AbsResourceInstance, explicit: bool, allowPartial: bool)
    requires ri.resource.resource.mode != InvalidMode
    requires KeyAllowed(ri.resource.key, allowPartial) && forall s | s in ri.path :: KeyAllowed(s.key, allowPartial)
    requires ri.resource.resource.mode == Managed && !explicit ==>
               ModeOfWord(ri.resource.resource.typeName) == Some((Managed, 0))
    ensures var rest := Words(ri.resource.resource.mode, explicit) + ResourceSteps(ri.resource);
            ParseTarget(ModuleSteps(ri.path) + rest, allowPartial) == AsTarget(Some(ri))
  {
    var words := Words(ri.resource.resource.mode, explicit);
    var rest := words + ResourceSteps(ri.resource);
    WordsSelectMode(ri.resource.resource.mode, explicit, ri.resource.resource.typeName);
    ModuleStepsParse(ri.path, rest, allowPartial);
    ResourceStepsParse(ri, words, allowPartial);
    TargetOfPrefix(ModuleSteps(ri.path) + rest, ri.path, rest, allowPartial);
  }

  /** Every writable address is parsed back from its traversal, with the "resource" word exactly
      when it is needed or asked for. */
  lemma {:induction false} ParsingUndoesWriting(t: Target, explicit: bool, allowPartial: bool)
    requires Writable(t) && KeysAllowed(t, allowPartial) && (NeedsWord(t) ==> explicit)
    ensures ParseTarget(Rooted(TargetSteps(t, explicit)), allowPartial) == Some(t)
  {
    var steps := TargetSteps(t, explicit);
    RootedTarget(steps, allowPartial);
    if t.ModuleInstanceTarget? {
      assert steps == ModuleSteps(t.mi) + [];
      ModuleStepsParse(t.mi, [], allowPartial);
      TargetOfPrefix(steps, t.mi, [], allowPartial);
    } else {
      ResourceTargetParses(InstanceOfTarget(t), explicit, allowPartial);
    }
  }

  lemma {:induction false} ModuleStepsAppend(m: ModuleInstance, s: Step)
    ensures ModuleSteps(m + [s]) == ModuleSteps(m) + ([Attr("module"), Attr(s.name)] + KeySteps(s.key))
    decreases |m|
  {
    if m == [] {
      assert m + [s] == [s] && [s][1..] == [];
      assert KeySteps(s.key) + [] == KeySteps(s.key);
    } else {
      assert (m + [s])[1..] == m[1..] + [s] && (m + [s])[0] == m[0];
      ModuleStepsAppend(m[1..], s);
      var first, last := [Attr("module"), Attr(m[0].name)], [Attr("module"), Attr(s.name)] + KeySteps(s.key);
      Regroup(KeySteps(m[0].key), ModuleSteps(m[1..]), last);
      Regroup(first, KeySteps(m[0].key) + ModuleSteps(m[1..]), last);
    }
  }

  /** A managed resource whose type is the word "module" is written like a module instance. */
  lemma {:induction false} ModuleTypeReadsAsModule(ri: AbsResourceInstance, allowPartial: bool)
    requires ri.resource.resource.mode == Managed && ri.resource.resource.typeName == "module"
    requires KeyAllowed(ri.resource.key, allowPartial) && forall s | s in ri.path :: KeyAllowed(s.key, allowPartial)
    ensures ParseTarget(ModuleSteps(ri.path) + ResourceSteps(ri.resource), allowPartial) ==
            Some(ModuleInstanceTarget(ri.path + [Step(ri.resource.resource.name, ri.resource.key)]))
  {
    var m := ri.path + [Step(ri.resource.resource.name, ri.resource.key)];
    ModuleStepsAppend(ri.path, Step(ri.resource.resource.name, ri.resource.key));
    assert ModuleSteps(m) + [] == ModuleSteps(ri.path) + ResourceSteps(ri.resource);
    ModuleStepsParse(m, [], allowPartial);
    TargetOfPrefix(ModuleSteps(ri.path) + ResourceSteps(ri.resource), m, [], allowPartial);
  }

  /** After a leading word too few names are left for a resource. */
  lemma {:induction false} ShiftedResourceFails(path: ModuleInstance, r: ResourceInstance, allowPartial: bool)
    requires ModeOfWord(r.resource.typeName).None? || ModeOfWord(r.resource.typeName).value.1 == 1
    ensures ParseResource(path, allowPartial, Rooted(ResourceSteps(r))) == None
  {
    var t := Rooted(ResourceSteps(r));
    assert t == [Root(r.resource.typeName), Attr(r.resource.name)] + KeySteps(r.key);
    assert t[1..] == [Attr(r.resource.name)] + KeySteps(r.key);
  }

  /** Any other type that stands for something else makes the plain form an error. */
  lemma {:induction false} OtherWordsFail(ri: AbsResourceInstance, allowPartial: bool)
    requires ri.resource.resource.mode == Managed && ri.resource.resource.typeName != "module"
    requires ModeOfWord(ri.resource.resource.typeName) != Some((Managed, 0))
    requires forall s | s in ri.path :: KeyAllowed(s.key, allowPartial)
    ensures ParseTarget(ModuleSteps(ri.path) + ResourceSteps(ri.resource), allowPartial) == None
  {
    var rest := ResourceSteps(ri.resource);
    ModuleStepsParse(ri.path, rest, allowPartial);
    TargetOfPrefix(ModuleSteps(ri.path) + rest, ri.path, rest, allowPartial);
    ShiftedResourceFails(ri.path, ri.resource, allowPartial);
  }

  /** The plain form, without the optional word, is read back exactly when the word is not needed. */
  lemma {:induction false} PlainFormParses(t: Target, allowPartial: bool)
    requires Writable(t) && KeysAllowed(t, allowPartial)
    ensures ParseTarget(Rooted(TargetSteps(t, false)), allowPartial) == Some(t) <==> !NeedsWord(t)
  {
    if NeedsWord(t) {
      var ri := InstanceOfTarget(t);
      RootedTarget(TargetSteps(t, false), allowPartial);
      assert Words(ri.resource.resource.mode, false) == [];
      assert [] + ResourceSteps(ri.resource) == ResourceSteps(ri.resource);
      if ri.resource.resource.typeName == "module" {
        ModuleTypeReadsAsModule(ri, allowPartial);
      } else {
        OtherWordsFail(ri, allowPartial);
      }
    } else {
      ParsingUndoesWriting(t, false, allowPartial);
    }
  }

  /** The words that do not stand for a managed resource type. */
  lemma {:induction false} WordsThatNeedTheWord(t: Target)
    requires Writable(t) && !t.ModuleInstanceTarget?
    ensures var res := InstanceOfTarget(t).resource.resource;
            NeedsWord(t) <==>
            res.mode == Managed &&
            res.typeName in {"data", "ephemeral", "list", "resource", "count", "each", "local", "module", "path",
                             "self", "terraform", "var", "template", "lazy", "arg"}
  {
  }

  // ---------- Parsing undoes printing ----------

  /** The traversal that a dotted text is read as. */
  function Spelled(segs: seq<Step>): Traversal {
    if segs == [] then [] else ([Attr(segs[0].name)] + KeySteps(segs[0].key)) + Spelled(segs[1..])
  }

  lemma {:induction false} SpelledAppend(a: seq<Step>, b: seq<Step>)
    ensures Spelled(a + b) == Spelled(a) + Spelled(b)
    decreases |a|
  {
    if a == [] {
      assert a + b == b;
    } else {
      assert (a + b)[1..] == a[1..] + b && (a + b)[0] == a[0];
      SpelledAppend(a[1..], b);
      Regroup([Attr(a[0].name)] + KeySteps(a[0].key), Spelled(a[1..]), Spelled(b));
    }
  }

  lemma {:induction false} SpelledOne(s: Step)
    ensures Spelled([s]) == [Attr(s.name)] + KeySteps(s.key)
  {
    assert [s][1..] == [];
  }

  lemma {:induction false} SpelledTwo(word: string, s: Step)
    ensures Spelled([Printing.Word(word), s]) == [Attr(word), Attr(s.name)] + KeySteps(s.key)
  {
    assert [Printing.Word(word), s] == [Printing.Word(word)] + [s];
    SpelledAppend([Printing.Word(word)], [s]);
    SpelledOne(Printing.Word(word));
    SpelledOne(s);
    Regroup([Attr(word)], [Attr(s.name)], KeySteps(s.key));
    assert [Attr(word)] + [Attr(s.name)] == [Attr(word), Attr(s.name)];
  }

  lemma {:induction false} SpelledModule(m: ModuleInstance)
    ensures Spelled(Printing.ModuleSegments(m)) == ModuleSteps(m)
    decreases |m|
  {
    if m == [] {
      assert Printing.ModuleSegments(m) == [];
    } else {
      var first := [Printing.Word("module"), m[0]];
      assert Printing.ModuleSegments(m) == first + Printing.ModuleSegments(m[1..]);
      SpelledAppend(first, Printing.ModuleSegments(m[1..]));
      SpelledTwo("module", m[0]);
      SpelledModule(m[1..]);
      Regroup([Attr("module"), Attr(m[0].name)], KeySteps(m[0].key), ModuleSteps(m[1..]));
    }
  }

  lemma {:induction false} SpelledResource(r: ResourceInstance)
    requires r.resource.mode != InvalidMode
    ensures Spelled(Printing.ResourceSegments(r)) == Words(r.resource.mode, false) + ResourceSteps(r)
  {
    var tail := [Printing.Word(r.resource.typeName), Step(r.resource.name, r.key)];
    SpelledAppend(Printing.ModeWords(r.resource.mode), tail);
    SpelledTwo(r.resource.typeName, Step(r.resource.name, r.key));
    if r.resource.mode != Managed {
      SpelledOne(Printing.Word(Printing.ModeText(r.resource.mode)));
    }
  }

  /** The text of a target: the String method of its address. */
  function TextOf(t: Target, pr: Quoting.Printable): string
    requires Writable(t)
  {
    match t
    case ModuleInstanceTarget(m) => Printing.ModuleString(m, pr)
    case ResourceTarget(r) => Printing.AbsResourceString(r, pr)
    case InstanceTarget(ri) => Printing.InstanceString(ri, pr)
  }

  /** Reading a text as segments, the segments as a traversal, and the traversal as a target. */
  function ParseText(text: string, allowPartial: bool): Option<Target> {
    match Printing.ReadSegments(text)
    case Some(segs) => ParseTarget(Rooted(Spelled(segs)), allowPartial)
    case None => None
  }

  lemma {:induction false} TextIsRead(t: Target, pr: Quoting.Printable)
    requires Writable(t) && CleanTarget(t) && (t.ModuleInstanceTarget? ==> t.mi != [])
    ensures Printing.ReadSegments(TextOf(t, pr)).Some?
    ensures Spelled(Printing.ReadSegments(TextOf(t, pr)).value) == TargetSteps(t, false)
  {
    if t.ModuleInstanceTarget? {
      Printing.ModuleSegmentsClean(t.mi);
      Printing.SegmentsReadBack(Printing.ModuleSegments(t.mi), pr);
      SpelledModule(t.mi);
    } else {
      var ri := InstanceOfTarget(t);
      Printing.InstanceStringIsJoin(ri, pr);
      Printing.SegmentsClean(ri);
      Printing.SegmentsReadBack(Printing.Segments(ri), pr);
      SpelledAppend(Printing.ModuleSegments(ri.path), Printing.ResourceSegments(ri.resource));
      SpelledModule(ri.path);
      SpelledResource(ri.resource);
      assert TextOf(t, pr) == Printing.InstanceString(ri, pr);
    }
  }

  /** The printed text of an address parses back to it, exactly unless a managed type is a word that
      stands for something else. */
  lemma {:induction false} ParsingUndoesPrinting(t: Target, allowPartial: bool, pr: Quoting.Printable)
    requires Writable(t) && CleanTarget(t) && KeysAllowed(t, allowPartial) && (t.ModuleInstanceTarget? ==> t.mi != [])
    ensures ParseText(TextOf(t, pr), allowPartial) == Some(t) <==> !NeedsWord(t)
  {
    TextIsRead(t, pr);
    PlainFormParses(t, allowPartial);
  }

  // ---------- What the parsers do with errors and unknown keys ----------

  /** Where a call should start: a step that is no name is an error and stops the parser there; an
      incomplete call stops it after the word; a key that is no key is an error, but parsing goes on. */
  lemma {:induction false} ErrorsOfCalls(t: Traversal, allowPartial: bool)
    requires t != []
    ensures !t[0].Root? && !t[0].Attr? ==> InstancePrefixOf(t, allowPartial) == Prefix([], t, false)
    ensures t[0] == Attr("module") && (|t| == 1 || !t[1].Attr?) ==>
              InstancePrefixOf(t, allowPartial) == Prefix([], t[1..], false)
    ensures |t| > 2 && t[0] == Attr("module") && t[1].Attr? && t[2].Index? && ParseKey(t[2].key).None? ==>
              InstancePrefixOf(t, allowPartial) ==
              Resume([Step(t[1].name, NoKey)], false, InstancePrefixOf(t[3..], allowPartial))
  {
    if |t| > 2 {
      assert t[2..][1..] == t[3..];
    }
  }

  lemma {:induction false} StaticCallStep(name: string, u: Traversal)
    requires u != [] && !u[0].Index?
    ensures var p := ModulePrefixOf(u);
            ModulePrefixOf([Attr("module"), Attr(name)] + u) == p.(path := [name] + p.path)
  {
    var t := [Attr("module"), Attr(name)] + u;
    assert t[2..] == u && t[2] == u[0];
  }

  lemma {:induction false} StaticKeyStep(name: string, key: CtyKey, rest: Traversal)
    ensures ModulePrefixOf([Attr("module"), Attr(name), Index(key)] + rest) == Prefix([], [Index(key)] + rest, false)
  {
    var t := [Attr("module"), Attr(name), Index(key)] + rest;
    assert t[2..] == [Index(key)] + rest && t[2] == Index(key);
  }

  lemma {:induction false} UnkeyedSteps(names: Module, rest: Traversal)
    requires names != []
    ensures var m, tail := Printing.Unkeyed(names), Printing.Unkeyed(names[1..]);
            ModuleSteps(m) + rest == [Attr("module"), Attr(names[0])] + (ModuleSteps(tail) + rest)
  {
    var m := Printing.Unkeyed(names);
    assert m[1..] == Printing.Unkeyed(names[1..]) && m[0] == Step(names[0], NoKey);
    ModuleStepsUnfold(m, rest);
    assert [] + (ModuleSteps(m[1..]) + rest) == ModuleSteps(m[1..]) + rest;
  }

  /** A static module path has no keys: the first one is an error, and neither it nor its call is taken. */
  lemma {:induction false} StaticPathsRefuseKeys(names: Module, name: string, key: CtyKey, rest: Traversal)
    ensures var t := [Attr("module"), Attr(name), Index(key)] + rest;
            ModulePrefixOf(ModuleSteps(Printing.Unkeyed(names)) + t) == Prefix(names, [Index(key)] + rest, false)
    decreases |names|
  {
    var t := [Attr("module"), Attr(name), Index(key)] + rest;
    if names == [] {
      assert ModuleSteps(Printing.Unkeyed(names)) + t == t;
      StaticKeyStep(name, key, rest);
    } else {
      var u := ModuleSteps(Printing.Unkeyed(names[1..])) + t;
      StaticPathsRefuseKeys(names[1..], name, key, rest);
      UnkeyedSteps(names, t);
      assert u[0] == Attr("module");
      StaticCallStep(names[0], u);
      assert names == [names[0]] + names[1..];
    }
  }

  lemma {:induction false} UnknownsStayUnknown(t: Traversal)
    ensures PartialPrefixOf(t, false).path.prefix == []
    decreases |t|
  {
    if t == [] || !ModuleHead(t).Call? {
    } else {
      UnknownsStayUnknown(if |t| > 2 && t[2].Index? then t[2..][1..] else t[2..]);
    }
  }

  /** One round of the partial parser on a call with a known key or none. */
  lemma {:induction false} PartialRound(t: Traversal)
    requires t != [] && ModuleHead(t).Call? && !(|t| > 2 && t[2] == Index(CtyUnknown))
    ensures var (n, key, ok) := ReadKey(t[2..], false);
            var p := PartialPrefixOf(t[2..][n..], true);
            PartialPrefixOf(t, true) ==
            Prefix(p.path.(prefix := [Step(t[1].name, key)] + p.path.prefix), p.remain, ok && p.ok)
  {
  }

  lemma {:induction false} PartialCallStep(s: Step, next: Traversal)
    requires KeyAllowed(s.key, false) && Follows(s.key, next)
    ensures var p := PartialPrefixOf(next, true);
            PartialPrefixOf([Attr("module"), Attr(s.name)] + (KeySteps(s.key) + next), true) ==
            p.(path := p.path.(prefix := [s] + p.path.prefix))
  {
    var u := KeySteps(s.key) + next;
    var t := [Attr("module"), Attr(s.name)] + u;
    assert t[0] == Attr("module") && t[1] == Attr(s.name) && t[2..] == u;
    assert u != [] ==> t[2] == u[0];
    assert u != [] ==> u[0] == (if s.key == NoKey then next[0] else KeySteps(s.key)[0]);
    KeyReadsBack(s.key, next, false);
    PartialRound(t);
    assert Step(s.name, s.key) == s;
  }

  /** Everything before the first unknown key stays known, and nothing after it is. */
  lemma {:induction false} KnownStepsAreKept(m: ModuleInstance, name: string, rest: Traversal)
    requires forall s | s in m :: KeyAllowed(s.key, false)
    ensures var t := [Attr("module"), Attr(name), Index(CtyUnknown)] + rest;
            PartialPrefixOf(ModuleSteps(m) + t, true).path ==
            PartialModule(m, [name] + PartialPrefixOf(rest, false).path.suffix)
    decreases |m|
  {
    var t := [Attr("module"), Attr(name), Index(CtyUnknown)] + rest;
    if m == [] {
      assert ModuleSteps(m) + t == t && t[2..][1..] == rest;
      UnknownsStayUnknown(rest);
    } else {
      KnownStepsAreKept(m[1..], name, rest);
      ModuleStepsUnfold(m, t);
      PartialCallStep(m[0], ModuleSteps(m[1..]) + t);
      assert m == [m[0]] + m[1..];
    }
  }

  // ---------- What targets parsing returns ----------

  /** The names of a traversal are identifiers, as HCL guarantees. */
  predicate CleanNames(t: Traversal) {
    forall i | 0 <= i < |t| && (t[i].Root? || t[i].Attr?) :: Printing.CleanName(t[i].name)
  }

  lemma {:induction false} CleanNamesRest(t: Traversal, n: nat)
    requires CleanNames(t) && n <= |t|
    ensures CleanNames(t[n..])
  {
  }

  lemma {:induction false} PrefixIsClean(t: Traversal, allowPartial: bool)
    requires CleanNames(t)
    ensures var p := InstancePrefixOf(t, allowPartial); Printing.CleanSteps(p.path) && CleanNames(p.remain)
    decreases |t|
  {
    if t == [] || !ModuleHead(t).Call? {
    } else {
      var (n, key, _) := ReadKey(t[2..], allowPartial);
      CleanNamesRest(t, 2);
      CleanNamesRest(t[2..], n);
      PrefixIsClean(t[2..][n..], allowPartial);
      var rest := InstancePrefixOf(t[2..][n..], allowPartial).path;
      assert forall s | s in [Step(t[1].name, key)] + rest :: s == Step(t[1].name, key) || s in rest;
    }
  }

  lemma {:induction false} ResourceIsClean(path: ModuleInstance, allowPartial: bool, t: Traversal)
    requires t != [] && t[0].Root? && CleanNames(t) && Printing.CleanSteps(path)
    requires ParseResource(path, allowPartial, t).Some?
    ensures Printing.CleanInstance(ParseResource(path, allowPartial, t).value)
  {
    var (mode, n) := ModeOfWord(t[0].name).value;
    CleanNamesRest(t, n);
    var rest := t[n..];
    assert Printing.CleanName(rest[0].name) && Printing.CleanName(rest[1].name);
    TailIsWritten(rest[2..], allowPartial);
  }

  /** parseTarget returns only the targets on which containment is a partial order. */
  lemma {:induction false} ParsedTargets(t: Traversal, allowPartial: bool)
    requires CleanNames(t) && ParseTarget(t, allowPartial).Some?
    ensures Parsed(ParseTarget(t, allowPartial).value)
  {
    var p := InstancePrefixOf(t, allowPartial);
    PrefixIsClean(t, allowPartial);
    RemainderIsRooted(t, allowPartial);
    if p.remain == [] {
    } else {
      ResourceIsClean(p.path, allowPartial, Rooted(p.remain));
    }
  }

  /** What -target options can name is partially ordered by containment. */
  lemma {:induction false} TargetsAreOrdered(a: Traversal, b: Traversal, c: Traversal, x: Target, y: Target,
                                             z: Target, allowPartial: bool, pr: Quoting.Printable)
    requires CleanNames(a) && CleanNames(b) && CleanNames(c)
    requires ParseTarget(a, allowPartial) == Some(x)
    requires ParseTarget(b, allowPartial) == Some(y)
    requires ParseTarget(c, allowPartial) == Some(z)
    ensures Contains(x, x, pr)
    ensures Contains(x, y, pr) && Contains(y, x, pr) ==> x == y
    ensures Contains(x, y, pr) && Contains(y, z, pr) ==> Contains(x, z, pr)
  {
    ParsedTargets(a, allowPartial);
    ParsedTargets(b, allowPartial);
    ParsedTargets(c, allowPartial);
    ContainmentIsPartialOrder(x, y, z, pr);
  }

  // ---------- Nothing else parses to the address ----------

  /** As HCL delivers them: a root step first and only there. */
  predicate Absolute(t: Traversal) {
    forall i | 0 <= i < |t| :: t[i].Root? <==> i == 0
  }

  function Unrooted(t: Traversal): Traversal
    requires Absolute(t)
  {
    if t == [] then [] else [Attr(t[0].name)] + t[1..]
  }

  predicate Rootless(t: Traversal) {
    forall i | 0 <= i < |t| :: !t[i].Root?
  }

  lemma {:induction false} CallStepIsWritten(t: Traversal, allowPartial: bool)
    requires Rootless(t) && t != [] && ModuleHead(t).Call? && ReadKey(t[2..], allowPartial).2
    ensures var (n, key, ok) := ReadKey(t[2..], allowPartial);
            t == [Attr("module"), Attr(t[1].name)] + (KeySteps(key) + t[2..][n..])
  {
    var (n, key, ok) := ReadKey(t[2..], allowPartial);
    assert t == [t[0], t[1]] + t[2..];
    assert t[2..] == t[2..][..n] + t[2..][n..];
    assert t[2..][..n] == KeySteps(key);
  }

  lemma {:induction false} PrefixIsWritten(t: Traversal, allowPartial: bool)
    requires Rootless(t) && InstancePrefixOf(t, allowPartial).ok
    ensures var p := InstancePrefixOf(t, allowPartial);
            t == ModuleSteps(p.path) + p.remain && Rootless(p.remain)
    decreases |t|
  {
    if t == [] || !ModuleHead(t).Call? {
    } else {
      var (n, key, ok) := ReadKey(t[2..], allowPartial);
      var tail := t[2..][n..];
      var q, s := InstancePrefixOf(tail, allowPartial), Step(t[1].name, key);
      CallStepIsWritten(t, allowPartial);
      PrefixIsWritten(tail, allowPartial);
      assert ([s] + q.path)[1..] == q.path && ([s] + q.path)[0] == s;
      Regroup([Attr("module"), Attr(s.name)], KeySteps(key) + ModuleSteps(q.path), q.remain);
      Regroup(KeySteps(key), ModuleSteps(q.path), q.remain);
    }
  }

  lemma {:induction false} TailIsWritten(t: Traversal, allowPartial: bool)
    requires ParseTail(t, allowPartial).Some?
    ensures t == KeySteps(ParseTail(t, allowPartial).value)
  {
  }

  lemma {:induction false} ModeWordIsWritten(word: string)
    requires ModeOfWord(word).Some?
    ensures var (mode, n) := ModeOfWord(word).value;
            && mode != InvalidMode && n <= 1
            && (n == 0 ==> Words(mode, false) == [])
            && (n == 1 ==> [Attr(word)] == Words(mode, false) || [Attr(word)] == Words(mode, true))
  {
  }

  lemma {:induction false} ResourceIsWritten(path: ModuleInstance, allowPartial: bool, t: Traversal)
    requires Rootless(t) && t != [] && t[0].Attr? && ParseResource(path, allowPartial, Rooted(t)).Some?
    ensures var ri := ParseResource(path, allowPartial, Rooted(t)).value;
            var mode := ri.resource.resource.mode;
            && ri.path == path && mode != InvalidMode
            && exists explicit :: t == Words(mode, explicit) + ResourceSteps(ri.resource)
  {
    var r := Rooted(t);
    assert |r| == |t| && r[0].name == t[0].name && forall i | 0 < i < |t| :: r[i] == t[i];
    ModeWordIsWritten(t[0].name);
    var (mode, n) := ModeOfWord(t[0].name).value;
    var rest := r[n..];
    TailIsWritten(rest[2..], allowPartial);
    assert rest[2..] == t[n + 2..];
    assert t == t[..n] + ([t[n], t[n + 1]] + t[n + 2..]);
    assert t[..n] == Words(mode, false) || t[..n] == Words(mode, true);
  }

  /** An absolute traversal that parses is the written form of the result, with or without the
      optional word: parsing loses nothing else. */
  lemma {:induction false} ParsedIsWritten(t: Traversal, allowPartial: bool)
    requires Absolute(t) && ParseTarget(t, allowPartial).Some?
    ensures var x := ParseTarget(t, allowPartial).value;
            Writable(x) && exists explicit :: t == Rooted(TargetSteps(x, explicit))
  {
    var u := Unrooted(t);
    assert Rooted(u) == t;
    RootedTarget(u, allowPartial);
    var p := InstancePrefixOf(u, allowPartial);
    PrefixIsWritten(u, allowPartial);
    TargetOfPrefix(u, p.path, p.remain, allowPartial);
    if p.remain == [] {
      assert u == TargetSteps(ModuleInstanceTarget(p.path), false);
    } else {
      WrittenResourceTarget(u, p.path, p.remain, allowPartial);
    }
  }

  lemma {:induction false} WrittenResourceTarget(u: Traversal, path: ModuleInstance, rest: Traversal,
                                                 allowPartial: bool)
    requires rest != [] && rest[0].Attr? && Rootless(rest) && u == ModuleSteps(path) + rest
    requires ParseResource(path, allowPartial, Rooted(rest)).Some?
    ensures var x := AsTarget(ParseResource(path, allowPartial, Rooted(rest))).value;
            Writable(x) && exists explicit :: u == TargetSteps(x, explicit)
  {
    ResourceIsWritten(path, allowPartial, rest);
    var ri := ParseResource(path, allowPartial, Rooted(rest)).value;
    var explicit :| rest == Words(ri.resource.resource.mode, explicit) + ResourceSteps(ri.resource);
    var x := AsTarget(Some(ri)).value;
    assert InstanceOfTarget(x) == ri;
    assert u == TargetSteps(x, explicit);
  }
}
