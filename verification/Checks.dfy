/** The check status tracker: a mutable record of every check's outcome during one run. */
module Checks {
  import opened Addrs
  import opened Sorting

  datatype Status = Unknown | Pass | Fail | Error

  datatype RuleType =
    | InvalidCondition | ResourcePrecondition | ResourcePostcondition | OutputPrecondition
    | CheckDataResource | CheckAssertion | InputValidation

  /** Checkable objects and the configuration constructs that declare them. */
  datatype Checkable =
    | ResourceObject(r: AbsResourceInstance)
    | OutputObject(path: ModuleInstance, name: string)
    | InputObject(path: ModuleInstance, name: string)
    | CheckObject(path: ModuleInstance, name: string)

  datatype ConfigCheckable =
    | ConfigResourceObject(c: ConfigResource)
    | ConfigOutput(m: Module, name: string)
    | ConfigInput(m: Module, name: string)
    | ConfigCheck(m: Module, name: string)

  function ConfigOf(o: Checkable): ConfigCheckable {
    match o
    case ResourceObject(r) => ConfigResourceObject(ConfigResource(StaticModule(r.path), r.resource.resource))
    case OutputObject(path, name) => ConfigOutput(StaticModule(path), name)
    case InputObject(path, name) => ConfigInput(StaticModule(path), name)
    case CheckObject(path, name) => ConfigCheck(StaticModule(path), name)
  }

  datatype CheckRule = CheckRule(container: Checkable, typ: RuleType, index: nat)

  type Slots = map<RuleType, seq<Status>>

  /** objects is None until the expansion of the configuration object has been reported. */
  datatype ConfigState = ConfigState(checkTypes: map<RuleType, nat>, objects: Option<map<Checkable, Slots>>)

  datatype Tracker = Tracker(statuses: map<ConfigCheckable, ConfigState>, failureMsgs: map<CheckRule, string>)

  // ---------- Slots ----------

  function SlotOf(tr: Tracker, q: CheckRule): Option<Status> {
    var c := ConfigOf(q.container);
    if c in tr.statuses && tr.statuses[c].objects.Some? then
      var objects := tr.statuses[c].objects.value;
      if q.container in objects && q.typ in objects[q.container] && q.index < |objects[q.container][q.typ]| then
        Some(objects[q.container][q.typ][q.index])
      else None
    else None
  }

  function Blank(checkTypes: map<RuleType, nat>): Slots {
    map t | t in checkTypes :: seq(checkTypes[t], _ => Unknown)
  }

  /** The panics of ReportCheckableObjects: unknown configuration object, second report, or an
      object of some other configuration object. */
  predicate CanRegister(tr: Tracker, c: ConfigCheckable, objects: set<Checkable>) {
    && c in tr.statuses && tr.statuses[c].objects.None?
    && forall o | o in objects :: ConfigOf(o) == c
  }

  function Registered(tr: Tracker, c: ConfigCheckable, objects: set<Checkable>): Tracker
    requires CanRegister(tr, c, objects)
  {
    var cs := tr.statuses[c];
    tr.(statuses := tr.statuses[c := cs.(objects := Some(map o | o in objects :: Blank(cs.checkTypes)))])
  }

  /** The panics of reportCheckResult: no such slot, or one that already has a result. */
  predicate CanReport(tr: Tracker, q: CheckRule) {
    SlotOf(tr, q) == Some(Unknown)
  }

  function Reported(tr: Tracker, q: CheckRule, status: Status): Tracker
    requires SlotOf(tr, q).Some?
  {
    var c := ConfigOf(q.container);
    var cs := tr.statuses[c];
    var slots := cs.objects.value[q.container];
    var slots' := slots[q.typ := slots[q.typ][q.index := status]];
    tr.(statuses := tr.statuses[c := cs.(objects := Some(cs.objects.value[q.container := slots']))])
  }

  function Failed(tr: Tracker, q: CheckRule, message: string): Tracker
    requires SlotOf(tr, q).Some?
  {
    var tr' := Reported(tr, q, Fail);
    tr'.(failureMsgs := tr'.failureMsgs[q := message])
  }

  // ---------- Summaries ----------

  predicate Has(slots: Slots, status: Status) {
    exists t | t in slots :: status in slots[t]
  }

  function Summarize(errors: bool, failures: bool, unknowns: bool): Status {
    if errors then Error else if failures then Fail else if unknowns then Unknown else Pass
  }

  function ObjectStatus(slots: Slots): Status {
    Summarize(Has(slots, Error), Has(slots, Fail), Has(slots, Unknown))
  }

  predicate AnyHas(objects: map<Checkable, Slots>, status: Status) {
    exists o | o in objects :: Has(objects[o], status)
  }

  function Aggregate(cs: ConfigState): Status {
    match cs.objects
    case None => Unknown
    case Some(objects) => Summarize(AnyHas(objects, Error), AnyHas(objects, Fail), AnyHas(objects, Unknown))
  }

  /** The status of an object: a single error decides, then a single failure, then a single unknown. */
  lemma {:induction false} ObjectStatusMeaning(slots: Slots)
    ensures ObjectStatus(slots) == Error <==> Has(slots, Error)
    ensures ObjectStatus(slots) == Fail <==> Has(slots, Fail) && !Has(slots, Error)
    ensures ObjectStatus(slots) == Unknown <==> Has(slots, Unknown) && !Has(slots, Fail) && !Has(slots, Error)
    ensures ObjectStatus(slots) == Pass <==> !Has(slots, Unknown) && !Has(slots, Fail) && !Has(slots, Error)
  {
  }

  /** Objects have one configuration object exactly if they are of one kind, in instances of one
      module, with one name. */
  lemma {:induction false} ConfigOfMeaning(a: Checkable, b: Checkable)
    ensures ConfigOf(a) == ConfigOf(b) <==>
            match (a, b)
            case (ResourceObject(r), ResourceObject(s)) =>
              StaticModule(r.path) == StaticModule(s.path) && r.resource.resource == s.resource.resource
            case (OutputObject(m, x), OutputObject(n, y)) => StaticModule(m) == StaticModule(n) && x == y
            case (InputObject(m, x), InputObject(n, y)) => StaticModule(m) == StaticModule(n) && x == y
            case (CheckObject(m, x), CheckObject(n, y)) => StaticModule(m) == StaticModule(n) && x == y
            case _ => false
  {
  }

  function Rank(s: Status): nat {
    match s case Pass => 0 case Unknown => 1 case Fail => 2 case Error => 3
  }

  /** The aggregate is the least upper bound of the object statuses in Pass < Unknown < Fail < Error. */
  lemma {:induction false} AggregateIsJoin(cs: ConfigState, bound: Status)
    requires cs.objects.Some?
    ensures var objects := cs.objects.value;
            Rank(Aggregate(cs)) <= Rank(bound) <==>
            forall o | o in objects :: Rank(ObjectStatus(objects[o])) <= Rank(bound)
  {
    var objects := cs.objects.value;
    forall o, s | o in objects && Has(objects[o], s) ensures AnyHas(objects, s) {}
    if Aggregate(cs) != Pass {
      assert AnyHas(objects, Aggregate(cs));
      var o :| o in objects && Has(objects[o], Aggregate(cs));
      assert Rank(Aggregate(cs)) <= Rank(ObjectStatus(objects[o]));
    }
  }

  // ---------- Failure messages, for a given iteration order of the check types ----------

  function TypeMessages(msgs: map<CheckRule, string>, o: Checkable, t: RuleType, checks: seq<Status>): seq<string> {
    if checks == [] then []
    else
      var i := |checks| - 1;
      var q := CheckRule(o, t, i);
      TypeMessages(msgs, o, t, checks[..i]) +
      if checks[i] == Fail && q in msgs && msgs[q] != "" then [msgs[q]] else []
  }

  function Messages(msgs: map<CheckRule, string>, o: Checkable, slots: Slots, order: seq<RuleType>): seq<string>
    requires forall t | t in order :: t in slots
  {
    if order == [] then []
    else
      var k := |order| - 1;
      Messages(msgs, o, slots, order[..k]) + TypeMessages(msgs, o, order[k], slots[order[k]])
  }

  lemma {:induction false} MessagesSplit(msgs: map<CheckRule, string>, o: Checkable, slots: Slots,
                                         a: seq<RuleType>, b: seq<RuleType>)
    requires (forall t | t in a :: t in slots) && (forall t | t in b :: t in slots)
    ensures forall t | t in a + b :: t in slots
    ensures Messages(msgs, o, slots, a + b) == Messages(msgs, o, slots, a) + Messages(msgs, o, slots, b)
  {
    if b == [] {
      assert a + b == a;
    } else {
      var k := |b| - 1;
      assert (a + b)[..|a + b| - 1] == a + b[..k];
      MessagesSplit(msgs, o, slots, a, b[..k]);
    }
  }

  lemma {:induction false} MessagesOfLast(msgs: map<CheckRule, string>, o: Checkable, slots: Slots,
                                          a: seq<RuleType>, t: RuleType)
    requires (forall u | u in a :: u in slots) && t in slots
    ensures Messages(msgs, o, slots, a + [t]) == Messages(msgs, o, slots, a) + TypeMessages(msgs, o, t, slots[t])
  {
    assert (a + [t])[..|a|] == a;
  }

  /** The messages of one type can be taken out of the middle. */
  lemma {:induction false} MessagesWithout(msgs: map<CheckRule, string>, o: Checkable, slots: Slots,
                                           b: seq<RuleType>, i: nat)
    requires i < |b| && forall t | t in b :: t in slots
    ensures forall t | t in b[..i] + b[i + 1..] :: t in slots
    ensures multiset(Messages(msgs, o, slots, b)) ==
            multiset(Messages(msgs, o, slots, b[..i] + b[i + 1..])) + multiset(TypeMessages(msgs, o, b[i], slots[b[i]]))
  {
    var front, rest := b[..i], b[i + 1..];
    assert b == (front + [b[i]]) + rest;
    MessagesOfLast(msgs, o, slots, front, b[i]);
    MessagesSplit(msgs, o, slots, front + [b[i]], rest);
    MessagesSplit(msgs, o, slots, front, rest);
  }

  lemma {:induction false} WithoutSame<T>(a: seq<T>, b: seq<T>, i: nat)
    requires a != [] && i < |b| && b[i] == a[|a| - 1] && multiset(a) == multiset(b)
    ensures multiset(a[..|a| - 1]) == multiset(b[..i] + b[i + 1..])
  {
    assert a == a[..|a| - 1] + [b[i]];
    assert b == b[..i] + [b[i]] + b[i + 1..];
    assert multiset(a[..|a| - 1]) == multiset(a) - multiset{b[i]};
    assert multiset(b[..i] + b[i + 1..]) == multiset(b) - multiset{b[i]};
  }

  /** The order in which Go walks the map of check types does not change which messages are found. */
  lemma {:induction false} MessagesIgnoreOrder(msgs: map<CheckRule, string>, o: Checkable, slots: Slots,
                                               a: seq<RuleType>, b: seq<RuleType>)
    requires multiset(a) == multiset(b)
    requires (forall t | t in a :: t in slots) && (forall t | t in b :: t in slots)
    ensures multiset(Messages(msgs, o, slots, a)) == multiset(Messages(msgs, o, slots, b))
    decreases |a|
  {
    assert |multiset(a)| == |a| && |multiset(b)| == |b|;
    if a == [] {
    } else {
      var x, k := a[|a| - 1], |a| - 1;
      assert x in multiset(b);
      var i :| 0 <= i < |b| && b[i] == x;
      WithoutSame(a, b, i);
      MessagesWithout(msgs, o, slots, b, i);
      MessagesIgnoreOrder(msgs, o, slots, a[..k], b[..i] + b[i + 1..]);
    }
  }

  /** Hence the sorted list of failure messages is a function of the tracker alone. */
  lemma {:induction false} SortedMessagesAreDetermined(msgs: map<CheckRule, string>, o: Checkable, slots: Slots,
                                                       a: seq<RuleType>, b: seq<RuleType>, x: seq<string>,
                                                       y: seq<string>)
    requires multiset(a) == multiset(b) && forall t | t in a :: t in slots
    requires forall t | t in b :: t in slots
    requires SortOf(StringLess, Messages(msgs, o, slots, a), x)
    requires SortOf(StringLess, Messages(msgs, o, slots, b), y)
    ensures x == y
  {
    MessagesIgnoreOrder(msgs, o, slots, a, b);
    StringsAreOrdered(set s | s in x);
    SortIsUnique(StringLess, x, y);
  }

  /** The failed check of the object that the message belongs to. */
  predicate Listed(msgs: map<CheckRule, string>, o: Checkable, slots: Slots, q: CheckRule) {
    && q.container == o && q.typ in slots && q.index < |slots[q.typ]| && slots[q.typ][q.index] == Fail
    && q in msgs && msgs[q] != ""
  }

  function TextOf(msgs: map<CheckRule, string>, q: CheckRule): string {
    if q in msgs then msgs[q] else ""
  }

  function Texts(msgs: map<CheckRule, string>, rules: seq<CheckRule>): seq<string> {
    seq(|rules|, i requires 0 <= i < |rules| => TextOf(msgs, rules[i]))
  }

  lemma {:induction false} TextsAppend(msgs: map<CheckRule, string>, a: seq<CheckRule>, b: seq<CheckRule>)
    ensures Texts(msgs, a + b) == Texts(msgs, a) + Texts(msgs, b)
  {
  }

  predicate Distinct<T(==)>(xs: seq<T>) {
    forall i, j | 0 <= i < j < |xs| :: xs[i] != xs[j]
  }

  lemma {:induction false} DistinctAppend<T>(a: seq<T>, b: seq<T>)
    requires Distinct(a) && Distinct(b) && forall x | x in a :: x !in b
    ensures Distinct(a + b)
  {
    forall i, j | 0 <= i < j < |a + b| ensures (a + b)[i] != (a + b)[j] {
      if i < |a| <= j {
        assert a[i] in a && b[j - |a|] in b;
      }
    }
  }

  lemma {:induction false} TypeMessagesAreListed(msgs: map<CheckRule, string>, o: Checkable, slots: Slots,
                                                 t: RuleType, checks: seq<Status>) returns (rules: seq<CheckRule>)
    requires t in slots && checks <= slots[t]
    ensures TypeMessages(msgs, o, t, checks) == Texts(msgs, rules)
    ensures forall q :: q in rules <==> Listed(msgs, o, slots, q) && q.typ == t && q.index < |checks|
    ensures Distinct(rules)
    decreases |checks|
  {
    if checks == [] {
      rules := [];
    } else {
      var n := |checks| - 1;
      var q := CheckRule(o, t, n);
      var init := TypeMessagesAreListed(msgs, o, slots, t, checks[..n]);
      var last := if Listed(msgs, o, slots, q) then [q] else [];
      rules := init + last;
      TextsAppend(msgs, init, last);
      DistinctAppend(init, last);
      forall p ensures p in rules <==> Listed(msgs, o, slots, p) && p.typ == t && p.index < |checks| {
        assert p in rules <==> p in init || p in last;
        assert p.container == o && p.typ == t && p.index == n ==> p == q;
      }
    }
  }

  /** The messages found are exactly those of the failed checks of the walked types that have one, each
      once. */
  lemma {:induction false} MessagesAreListed(msgs: map<CheckRule, string>, o: Checkable, slots: Slots,
                                             order: seq<RuleType>) returns (rules: seq<CheckRule>)
    requires Distinct(order) && forall t | t in order :: t in slots
    ensures Messages(msgs, o, slots, order) == Texts(msgs, rules)
    ensures forall q :: q in rules <==> Listed(msgs, o, slots, q) && q.typ in order
    ensures Distinct(rules)
    decreases |order|
  {
    if order == [] {
      rules := [];
    } else {
      var k := |order| - 1;
      var t := order[k];
      var init := MessagesAreListed(msgs, o, slots, order[..k]);
      var last := TypeMessagesAreListed(msgs, o, slots, t, slots[t]);
      rules := init + last;
      TextsAppend(msgs, init, last);
      assert t !in order[..k] && order == order[..k] + [t];
      DistinctAppend(init, last);
      assert forall p :: p in rules <==> p in init || p in last;
    }
  }

  /** A walk over the check types of an object meets each of them once. */
  lemma {:induction false} WalkIsDistinct(order: seq<RuleType>, types: set<RuleType>)
    requires multiset(order) == multiset(types)
    ensures Distinct(order) && forall t :: t in order <==> t in types
  {
    forall t ensures t in order <==> t in types {
      assert t in multiset(order) <==> t in multiset(types);
    }
    forall i, j | 0 <= i < j < |order| ensures order[i] != order[j] {
      assert order == order[..i] + [order[i]] + order[i + 1..j] + [order[j]] + order[j + 1..];
      assert multiset(order)[order[i]] >= if order[i] == order[j] then 2 else 1;
      assert multiset(types)[order[i]] <= 1;
    }
  }

  /** So what ObjectFailureMessages returns are, sorted, the messages of all failed checks of the
      object that have one, each once. */
  lemma {:induction false} FailureMessagesMeaning(msgs: map<CheckRule, string>, o: Checkable, slots: Slots,
                                                  order: seq<RuleType>, messages: seq<string>)
    returns (rules: seq<CheckRule>)
    requires multiset(order) == multiset(slots.Keys) && forall t | t in order :: t in slots
    requires SortOf(StringLess, Messages(msgs, o, slots, order), messages)
    ensures SortOf(StringLess, Texts(msgs, rules), messages)
    ensures Distinct(rules) && forall q :: q in rules <==> Listed(msgs, o, slots, q)
  {
    WalkIsDistinct(order, slots.Keys);
    rules := MessagesAreListed(msgs, o, slots, order);
  }

  // ---------- The object ----------

  class State {
    var statuses: map<ConfigCheckable, ConfigState>
    var failureMsgs: map<CheckRule, string>

    function Value(): Tracker reads this { Tracker(statuses, failureMsgs) }

    /** NewState: nothing is known yet about the declared configuration objects. */
    constructor (declared: map<ConfigCheckable, map<RuleType, nat>>)
      ensures Value() == NewTracker(declared)
    {
      statuses := map c | c in declared :: ConfigState(declared[c], None);
      failureMsgs := map[];
    }

    method ReportCheckableObjects(c: ConfigCheckable, objects: set<Checkable>)
      requires CanRegister(Value(), c, objects)
      modifies this
      ensures Value() == Registered(old(Value()), c, objects)
    {
      var cs := statuses[c];
      var table: map<Checkable, Slots> := map[];
      var todo := objects;
      while todo != {}
        invariant todo <= objects
        invariant table == map o | o in objects - todo :: Blank(cs.checkTypes)
        decreases todo
      {
        var o :| o in todo;
        var checks: Slots := map[];
        var types := cs.checkTypes.Keys;
        while types != {}
          invariant types <= cs.checkTypes.Keys
          invariant checks == map t | t in cs.checkTypes.Keys - types :: seq(cs.checkTypes[t], _ => Unknown)
          decreases types
        {
          var t :| t in types;
          checks := checks[t := seq(cs.checkTypes[t], _ => Unknown)];
          types := types - {t};
        }
        assert checks == Blank(cs.checkTypes);
        table := table[o := checks];
        todo := todo - {o};
      }
      assert table == map o | o in objects :: Blank(cs.checkTypes);
      statuses := statuses[c := cs.(objects := Some(table))];
    }

    method ReportCheckResult(q: CheckRule, status: Status)
      requires CanReport(Value(), q)
      modifies this
      ensures Value() == Reported(old(Value()), q, status)
    {
      var c := ConfigOf(q.container);
      var cs := statuses[c];
      var checks := cs.objects.value[q.container];
      checks := checks[q.typ := checks[q.typ][q.index := status]];
      statuses := statuses[c := cs.(objects := Some(cs.objects.value[q.container := checks]))];
    }

    method ReportCheckFailure(q: CheckRule, message: string)
      requires CanReport(Value(), q)
      modifies this
      ensures Value() == Failed(old(Value()), q, message)
    {
      ReportCheckResult(q, Fail);
      failureMsgs := failureMsgs[q := message];
    }

    /** The counting loop both status methods run over the checks of an object. */
    method CountStatuses(slots: Slots) returns (errors: nat, failures: nat, unknowns: nat)
      ensures errors > 0 <==> Has(slots, Error)
      ensures failures > 0 <==> Has(slots, Fail)
      ensures unknowns > 0 <==> Has(slots, Unknown)
    {
      errors, failures, unknowns := 0, 0, 0;
      var todo := slots.Keys;
      while todo != {}
        invariant todo <= slots.Keys
        invariant errors > 0 <==> exists t | t in slots.Keys - todo :: Error in slots[t]
        invariant failures > 0 <==> exists t | t in slots.Keys - todo :: Fail in slots[t]
        invariant unknowns > 0 <==> exists t | t in slots.Keys - todo :: Unknown in slots[t]
        decreases todo
      {
        var t :| t in todo;
        var checks := slots[t];
        var e, f, u := 0, 0, 0;
        for i := 0 to |checks|
          invariant e >= 0 && f >= 0 && u >= 0
          invariant e > 0 <==> Error in checks[..i]
          invariant f > 0 <==> Fail in checks[..i]
          invariant u > 0 <==> Unknown in checks[..i]
        {
          assert checks[..i + 1] == checks[..i] + [checks[i]];
          match checks[i] {
            case Pass =>
            case Fail => f := f + 1;
            case Error => e := e + 1;
            case Unknown => u := u + 1;
          }
        }
        assert checks[..|checks|] == checks;
        errors, failures, unknowns := errors + e, failures + f, unknowns + u;
        todo := todo - {t};
      }
    }

    method AggregateCheckStatus(c: ConfigCheckable) returns (status: Status)
      requires c in statuses
      ensures status == Aggregate(statuses[c])
    {
      if statuses[c].objects.None? {
        return Unknown;
      }
      var objects := statuses[c].objects.value;
      var errors, failures, unknowns := 0, 0, 0;
      var todo := objects.Keys;
      while todo != {}
        invariant todo <= objects.Keys && errors >= 0 && failures >= 0 && unknowns >= 0
        invariant errors > 0 <==> exists o | o in objects.Keys - todo :: Has(objects[o], Error)
        invariant failures > 0 <==> exists o | o in objects.Keys - todo :: Has(objects[o], Fail)
        invariant unknowns > 0 <==> exists o | o in objects.Keys - todo :: Has(objects[o], Unknown)
        decreases todo
      {
        var o :| o in todo;
        var e, f, u := CountStatuses(objects[o]);
        errors, failures, unknowns := errors + e, failures + f, unknowns + u;
        todo := todo - {o};
      }
      return Summarize(errors > 0, failures > 0, unknowns > 0);
    }

    method ObjectCheckStatus(o: Checkable) returns (status: Status)
      requires ConfigOf(o) in statuses && statuses[ConfigOf(o)].objects.Some?
      requires o in statuses[ConfigOf(o)].objects.value
      ensures status == ObjectStatus(statuses[ConfigOf(o)].objects.value[o])
    {
      var errors, failures, unknowns := CountStatuses(statuses[ConfigOf(o)].objects.value[o]);
      return Summarize(errors > 0, failures > 0, unknowns > 0);
    }

    /** order is the order in which Go happens to walk the map of check types. */
    method ObjectFailureMessages(o: Checkable, order: seq<RuleType>) returns (messages: seq<string>)
      requires ConfigOf(o) in statuses && statuses[ConfigOf(o)].objects.Some?
      requires o in statuses[ConfigOf(o)].objects.value
      requires multiset(order) == multiset(statuses[ConfigOf(o)].objects.value[o].Keys)
      ensures forall t | t in order :: t in statuses[ConfigOf(o)].objects.value[o]
      ensures SortOf(StringLess, Messages(failureMsgs, o, statuses[ConfigOf(o)].objects.value[o], order), messages)
    {
      var slots := statuses[ConfigOf(o)].objects.value[o];
      forall t | t in order ensures t in slots { assert t in multiset(order); }
      var ret := [];
      for k := 0 to |order|
        invariant ret == Messages(failureMsgs, o, slots, order[..k])
      {
        var t := order[k];
        var checks := slots[t];
        ghost var before := ret;
        for i := 0 to |checks|
          invariant ret == before + TypeMessages(failureMsgs, o, t, checks[..i])
        {
          assert checks[..i + 1][..i] == checks[..i];
          if checks[i] == Fail {
            var q := CheckRule(o, t, i);
            var msg := if q in failureMsgs then failureMsgs[q] else "";
            if msg != "" {
              ret := ret + [msg];
            }
          }
        }
        assert checks[..|checks|] == checks;
        assert order[..k + 1][..k] == order[..k];
      }
      assert order[..|order|] == order;
      messages := SortStrings(ret);
    }
  }

  function NewTracker(declared: map<ConfigCheckable, map<RuleType, nat>>): Tracker {
    Tracker(map c | c in declared :: ConfigState(declared[c], None), map[])
  }
}
