/** Whole runs of check reports: what every report keeps, what can no longer change, and that the
    order of the reports does not matter. */
module CheckRuns {
  import opened Addrs
  import opened Checks
  import opened Sorting

  datatype Report =
    | Register(c: ConfigCheckable, objects: set<Checkable>)
    | Result(q: CheckRule, status: Status)
    | Failure(q: CheckRule, message: string)

  /** No report of the source's three kinds panics. */
  predicate Enabled(tr: Tracker, e: Report) {
    match e
    case Register(c, objects) => CanRegister(tr, c, objects)
    case Result(q, _) => CanReport(tr, q)
    case Failure(q, _) => CanReport(tr, q)
  }

  function Next(tr: Tracker, e: Report): Tracker
    requires Enabled(tr, e)
  {
    match e
    case Register(c, objects) => Registered(tr, c, objects)
    case Result(q, status) => Reported(tr, q, status)
    case Failure(q, message) => Failed(tr, q, message)
  }

  ghost predicate PanicFree(tr: Tracker, run: seq<Report>)
    decreases |run|
  {
    run == [] || (Enabled(tr, run[0]) && PanicFree(Next(tr, run[0]), run[1..]))
  }

  ghost function After(tr: Tracker, run: seq<Report>): Tracker
    requires PanicFree(tr, run)
    decreases |run|
  {
    if run == [] then tr else After(Next(tr, run[0]), run[1..])
  }

  // ---------- The invariant ----------

  predicate ShapeOf(slots: Slots, checkTypes: map<RuleType, nat>) {
    slots.Keys == checkTypes.Keys && forall t | t in slots :: |slots[t]| == checkTypes[t]
  }

  ghost predicate WellShaped(tr: Tracker) {
    forall c | c in tr.statuses && tr.statuses[c].objects.Some? ::
      forall o | o in tr.statuses[c].objects.value ::
        ConfigOf(o) == c && ShapeOf(tr.statuses[c].objects.value[o], tr.statuses[c].checkTypes)
  }

  /** Every object sits under its own configuration address with exactly the declared checks, and
      every failure message belongs to a slot that failed. */
  ghost predicate Inv(tr: Tracker) {
    WellShaped(tr) && forall q | q in tr.failureMsgs :: SlotOf(tr, q) == Some(Fail)
  }

  lemma {:induction false} SlotAfterReported(tr: Tracker, q: CheckRule, status: Status, r: CheckRule)
    requires SlotOf(tr, q).Some?
    ensures SlotOf(Reported(tr, q, status), r) == if r == q then Some(status) else SlotOf(tr, r)
  {
  }

  lemma {:induction false} SlotAfterRegistered(tr: Tracker, c: ConfigCheckable, objects: set<Checkable>, r: CheckRule)
    requires CanRegister(tr, c, objects)
    ensures SlotOf(Registered(tr, c, objects), r) ==
            if ConfigOf(r.container) != c then SlotOf(tr, r)
            else if r.container in objects && r.typ in tr.statuses[c].checkTypes
                    && r.index < tr.statuses[c].checkTypes[r.typ]
            then Some(Unknown) else None
  {
  }

  /** What no report can undo: declarations, registered objects, results and messages. */
  ghost predicate Extends(a: Tracker, b: Tracker) {
    && a.statuses.Keys == b.statuses.Keys
    && (forall c | c in a.statuses ::
          && a.statuses[c].checkTypes == b.statuses[c].checkTypes
          && (a.statuses[c].objects.Some? ==>
                b.statuses[c].objects.Some? && a.statuses[c].objects.value.Keys == b.statuses[c].objects.value.Keys))
    && (forall q :: SlotOf(a, q).Some? && SlotOf(a, q) != Some(Unknown) ==> SlotOf(b, q) == SlotOf(a, q))
    && (forall q | q in a.failureMsgs :: q in b.failureMsgs && b.failureMsgs[q] == a.failureMsgs[q])
  }

  /** The report e is visible in tr. */
  ghost predicate Reflects(tr: Tracker, e: Report) {
    match e
    case Register(c, objects) =>
      c in tr.statuses && tr.statuses[c].objects.Some? && tr.statuses[c].objects.value.Keys == objects
    case Result(q, status) => status != Unknown ==> SlotOf(tr, q) == Some(status)
    case Failure(q, message) => SlotOf(tr, q) == Some(Fail) && q in tr.failureMsgs && tr.failureMsgs[q] == message
  }

  lemma {:induction false} ReportedObjectShape(tr: Tracker, q: CheckRule, status: Status, c: ConfigCheckable,
                                               o: Checkable)
    requires WellShaped(tr) && SlotOf(tr, q).Some?
    requires c in tr.statuses && tr.statuses[c].objects.Some? && o in tr.statuses[c].objects.value
    ensures var cs := Reported(tr, q, status).statuses[c];
            cs.objects.Some? && o in cs.objects.value && ConfigOf(o) == c && ShapeOf(cs.objects.value[o], cs.checkTypes)
  {
    assert ShapeOf(tr.statuses[c].objects.value[o], tr.statuses[c].checkTypes);
  }

  lemma {:induction false} ReportedKeepsShape(tr: Tracker, q: CheckRule, status: Status)
    requires WellShaped(tr) && SlotOf(tr, q).Some?
    ensures WellShaped(Reported(tr, q, status))
  {
    var tr' := Reported(tr, q, status);
    forall c, o | c in tr'.statuses && tr'.statuses[c].objects.Some? && o in tr'.statuses[c].objects.value
      ensures ConfigOf(o) == c && ShapeOf(tr'.statuses[c].objects.value[o], tr'.statuses[c].checkTypes)
    {
      assert o in tr.statuses[c].objects.value;
      ReportedObjectShape(tr, q, status, c, o);
    }
  }

  lemma {:induction false} RegisterStep(tr: Tracker, c: ConfigCheckable, objects: set<Checkable>)
    requires Inv(tr) && CanRegister(tr, c, objects)
    ensures var tr' := Registered(tr, c, objects);
            Inv(tr') && Extends(tr, tr') && Reflects(tr', Register(c, objects))
  {
    var tr' := Registered(tr, c, objects);
    forall q ensures SlotOf(tr, q).Some? ==> SlotOf(tr', q) == SlotOf(tr, q) {
      SlotAfterRegistered(tr, c, objects, q);
    }
  }

  /** A new result touches no other slot, and no declaration or registration. */
  lemma {:induction false} ReportedExtends(tr: Tracker, q: CheckRule, status: Status)
    requires CanReport(tr, q)
    ensures Extends(tr, Reported(tr, q, status))
  {
    var tr' := Reported(tr, q, status);
    forall r | SlotOf(tr, r).Some? && SlotOf(tr, r) != Some(Unknown) ensures SlotOf(tr', r) == SlotOf(tr, r) {
      SlotAfterReported(tr, q, status, r);
    }
  }

  lemma {:induction false} ReportStep(tr: Tracker, q: CheckRule, status: Status)
    requires Inv(tr) && CanReport(tr, q)
    ensures var tr' := Reported(tr, q, status);
            Inv(tr') && Extends(tr, tr') && SlotOf(tr', q) == Some(status)
  {
    var tr' := Reported(tr, q, status);
    ReportedKeepsShape(tr, q, status);
    ReportedExtends(tr, q, status);
    SlotAfterReported(tr, q, status, q);
    assert forall r | r in tr'.failureMsgs :: SlotOf(tr', r) == SlotOf(tr, r);
  }

  lemma {:induction false} FailStep(tr: Tracker, q: CheckRule, message: string)
    requires Inv(tr) && CanReport(tr, q)
    ensures var tr' := Failed(tr, q, message);
            Inv(tr') && Extends(tr, tr') && Reflects(tr', Failure(q, message))
  {
    var tr', tr1 := Failed(tr, q, message), Reported(tr, q, Fail);
    ReportStep(tr, q, Fail);
    assert tr'.statuses == tr1.statuses && q !in tr.failureMsgs;
    forall r ensures SlotOf(tr', r) == SlotOf(tr1, r) {}
    assert WellShaped(tr');
  }

  /** One report keeps the invariant, undoes nothing, and is visible afterwards. */
  lemma {:induction false} StepKeepsInv(tr: Tracker, e: Report)
    requires Inv(tr) && Enabled(tr, e)
    ensures Inv(Next(tr, e)) && Extends(tr, Next(tr, e)) && Reflects(Next(tr, e), e)
  {
    match e {
      case Register(c, objects) => RegisterStep(tr, c, objects);
      case Result(q, status) => ReportStep(tr, q, status);
      case Failure(q, message) => FailStep(tr, q, message);
    }
  }

  lemma {:induction false} NewTrackerIsInv(declared: map<ConfigCheckable, map<RuleType, nat>>)
    ensures Inv(NewTracker(declared))
  {
  }

  lemma {:induction false} ExtendsTransitive(a: Tracker, b: Tracker, c: Tracker)
    requires Extends(a, b) && Extends(b, c)
    ensures Extends(a, c)
  {
  }

  lemma {:induction false} ReflectionStays(a: Tracker, b: Tracker, e: Report)
    requires Extends(a, b) && Reflects(a, e)
    ensures Reflects(b, e)
  {
  }

  /** Over a whole run: the invariant holds, nothing is undone (in particular a slot leaves Unknown
      at most once), and every report made is still visible at the end. */
  lemma {:induction false} RunKeepsInv(tr: Tracker, run: seq<Report>)
    requires Inv(tr) && PanicFree(tr, run)
    ensures Inv(After(tr, run)) && Extends(tr, After(tr, run))
    ensures forall e | e in run :: Reflects(After(tr, run), e)
    decreases |run|
  {
    if run == [] {
    } else {
      var tr' := Next(tr, run[0]);
      StepKeepsInv(tr, run[0]);
      RunKeepsInv(tr', run[1..]);
      ExtendsTransitive(tr, tr', After(tr, run));
      ReflectionStays(tr', After(tr, run), run[0]);
      assert forall e | e in run :: e == run[0] || e in run[1..];
    }
  }

  /** Every run from a new tracker: the declarations stay as they were, objects sit under their own
      configuration address with exactly the declared checks, a message means a failed slot, and
      every report made is visible. */
  lemma {:induction false} RunsFromNewAreSound(declared: map<ConfigCheckable, map<RuleType, nat>>, run: seq<Report>)
    requires PanicFree(NewTracker(declared), run)
    ensures var tr := After(NewTracker(declared), run);
            && tr.statuses.Keys == declared.Keys
            && (forall c | c in declared :: tr.statuses[c].checkTypes == declared[c])
            && Inv(tr)
            && (forall e | e in run :: Reflects(tr, e))
  {
    NewTrackerIsInv(declared);
    RunKeepsInv(NewTracker(declared), run);
  }

  // ---------- Terminal aggregates ----------

  /** Some check of an object registered under c has the status. */
  ghost predicate SlotWith(tr: Tracker, c: ConfigCheckable, status: Status) {
    exists q: CheckRule :: ConfigOf(q.container) == c && SlotOf(tr, q) == Some(status)
  }

  lemma {:induction false} AnyHasIsSlot(tr: Tracker, c: ConfigCheckable, status: Status)
    requires WellShaped(tr) && c in tr.statuses && tr.statuses[c].objects.Some?
    ensures AnyHas(tr.statuses[c].objects.value, status) <==> SlotWith(tr, c, status)
  {
    var objects := tr.statuses[c].objects.value;
    if AnyHas(objects, status) {
      var o :| o in objects && Has(objects[o], status);
      var t :| t in objects[o] && status in objects[o][t];
      var i :| 0 <= i < |objects[o][t]| && objects[o][t][i] == status;
      assert ConfigOf(o) == c && SlotOf(tr, CheckRule(o, t, i)) == Some(status);
      assert ConfigOf(CheckRule(o, t, i).container) == c;
    }
    if SlotWith(tr, c, status) {
      var q: CheckRule :| ConfigOf(q.container) == c && SlotOf(tr, q) == Some(status);
      assert status in objects[q.container][q.typ];
      assert Has(objects[q.container], status);
    }
  }

  predicate SameObjects(a: Tracker, b: Tracker, c: ConfigCheckable) {
    && c in a.statuses && c in b.statuses
    && a.statuses[c].checkTypes == b.statuses[c].checkTypes
    && a.statuses[c].objects.Some? && b.statuses[c].objects.Some?
    && a.statuses[c].objects.value.Keys == b.statuses[c].objects.value.Keys
  }

  /** Slots exist in the same places, whatever their status. */
  lemma {:induction false} SlotExistence(a: Tracker, b: Tracker, q: CheckRule)
    requires WellShaped(a) && WellShaped(b) && SlotOf(a, q).Some?
    requires SameObjects(a, b, ConfigOf(q.container))
    ensures SlotOf(b, q).Some?
  {
    var c := ConfigOf(q.container);
    assert ShapeOf(a.statuses[c].objects.value[q.container], a.statuses[c].checkTypes);
    assert ShapeOf(b.statuses[c].objects.value[q.container], b.statuses[c].checkTypes);
  }

  lemma {:induction false} ResultsStay(a: Tracker, b: Tracker, c: ConfigCheckable, status: Status)
    requires Extends(a, b) && status != Unknown && SlotWith(a, c, status)
    ensures SlotWith(b, c, status)
  {
    var q: CheckRule :| ConfigOf(q.container) == c && SlotOf(a, q) == Some(status);
    assert SlotOf(b, q) == Some(status);
  }

  lemma {:induction false} NoUnknownIsFinal(a: Tracker, b: Tracker, c: ConfigCheckable, status: Status)
    requires Inv(a) && Inv(b) && Extends(a, b) && c in a.statuses && a.statuses[c].objects.Some?
    requires !SlotWith(a, c, Unknown) && SlotWith(b, c, status)
    ensures SlotWith(a, c, status)
  {
    var q: CheckRule :| ConfigOf(q.container) == c && SlotOf(b, q) == Some(status);
    SlotExistence(b, a, q);
    assert SlotWith(a, c, SlotOf(a, q).value);
  }

  lemma {:induction false} AggregateOfSlots(tr: Tracker, c: ConfigCheckable)
    requires WellShaped(tr) && c in tr.statuses && tr.statuses[c].objects.Some?
    ensures Aggregate(tr.statuses[c]) ==
            Summarize(SlotWith(tr, c, Error), SlotWith(tr, c, Fail), SlotWith(tr, c, Unknown))
  {
    AnyHasIsSlot(tr, c, Error);
    AnyHasIsSlot(tr, c, Fail);
    AnyHasIsSlot(tr, c, Unknown);
  }

  /** The aggregate of a configuration object: Unknown until it is expanded, then decided by a single
      error, a single failure, a single unknown, in this order. */
  lemma {:induction false} AggregateMeaning(tr: Tracker, c: ConfigCheckable)
    requires WellShaped(tr) && c in tr.statuses
    ensures var a := Aggregate(tr.statuses[c]);
            if tr.statuses[c].objects.None? then a == Unknown
            else
              && (a == Error <==> SlotWith(tr, c, Error))
              && (a == Fail <==> SlotWith(tr, c, Fail) && !SlotWith(tr, c, Error))
              && (a == Unknown <==> SlotWith(tr, c, Unknown) && !SlotWith(tr, c, Fail) && !SlotWith(tr, c, Error))
  {
    if tr.statuses[c].objects.Some? {
      AggregateOfSlots(tr, c);
    }
  }

  /** The aggregate of a configuration object is final at Pass and Error, and from Fail it can only
      become Error. */
  lemma {:induction false} TerminalAggregates(tr: Tracker, run: seq<Report>, c: ConfigCheckable)
    requires Inv(tr) && PanicFree(tr, run) && c in tr.statuses && tr.statuses[c].objects.Some?
    ensures c in After(tr, run).statuses
    ensures var before, after := Aggregate(tr.statuses[c]), Aggregate(After(tr, run).statuses[c]);
            && (before == Pass ==> after == Pass)
            && (before == Error ==> after == Error)
            && (before == Fail ==> after == Fail || after == Error)
  {
    var tr' := After(tr, run);
    RunKeepsInv(tr, run);
    AggregateOfSlots(tr, c);
    AggregateOfSlots(tr', c);
    forall s | s != Unknown && SlotWith(tr, c, s) ensures SlotWith(tr', c, s) { ResultsStay(tr, tr', c, s); }
    forall s | !SlotWith(tr, c, Unknown) && SlotWith(tr', c, s) ensures SlotWith(tr, c, s) {
      NoUnknownIsFinal(tr, tr', c, s);
    }
  }

  // ---------- Confluence ----------

  ghost predicate SlotCaused(tr: Tracker, run: seq<Report>, q: CheckRule, status: Status) {
    || SlotOf(tr, q) == Some(status)
    || Result(q, status) in run
    || (status == Fail && exists m :: Failure(q, m) in run)
  }

  ghost predicate MessageCaused(tr: Tracker, run: seq<Report>, q: CheckRule, m: string) {
    (q in tr.failureMsgs && tr.failureMsgs[q] == m) || Failure(q, m) in run
  }

  /** Everything visible in b was in a already or was reported in the run. */
  ghost predicate Caused(a: Tracker, run: seq<Report>, b: Tracker) {
    && (forall q | SlotOf(b, q).Some? && SlotOf(b, q) != Some(Unknown) :: SlotCaused(a, run, q, SlotOf(b, q).value))
    && (forall q | q in b.failureMsgs :: MessageCaused(a, run, q, b.failureMsgs[q]))
    && (forall c | c in b.statuses && b.statuses[c].objects.Some? && c in a.statuses && a.statuses[c].objects.None? ::
          Register(c, b.statuses[c].objects.value.Keys) in run)
  }

  lemma {:induction false} StepIsCaused(tr: Tracker, e: Report)
    requires Inv(tr) && Enabled(tr, e)
    ensures Caused(tr, [e], Next(tr, e))
  {
    var tr' := Next(tr, e);
    assert e in [e];
    match e {
      case Register(c, objects) =>
        forall q | SlotOf(tr', q).Some? && SlotOf(tr', q) != Some(Unknown)
          ensures SlotCaused(tr, [e], q, SlotOf(tr', q).value)
        {
          SlotAfterRegistered(tr, c, objects, q);
        }
        assert tr'.statuses[c].objects.value.Keys == objects;
      case Result(q, status) =>
        forall r | SlotOf(tr', r).Some? ensures SlotCaused(tr, [e], r, SlotOf(tr', r).value) {
          SlotAfterReported(tr, q, status, r);
        }
      case Failure(q, m) =>
        forall r | SlotOf(tr', r).Some? ensures SlotCaused(tr, [e], r, SlotOf(tr', r).value) {
          SlotAfterReported(tr, q, Fail, r);
          assert SlotOf(tr', r) == SlotOf(Reported(tr, q, Fail), r);
        }
    }
  }

  lemma {:induction false} CausedCompose(a: Tracker, e: Report, b: Tracker, run: seq<Report>, c: Tracker)
    requires Caused(a, [e], b) && Caused(b, run, c) && Extends(a, b) && Extends(b, c)
    ensures Caused(a, [e] + run, c)
  {
    var all := [e] + run;
    assert forall x :: x in all <==> x in [e] || x in run;
    forall q | SlotOf(c, q).Some? && SlotOf(c, q) != Some(Unknown)
      ensures SlotCaused(a, all, q, SlotOf(c, q).value)
    {
      assert SlotCaused(b, run, q, SlotOf(c, q).value);
      if SlotOf(b, q) == SlotOf(c, q) {
        assert SlotCaused(a, [e], q, SlotOf(b, q).value);
      }
    }
    forall q | q in c.failureMsgs ensures MessageCaused(a, all, q, c.failureMsgs[q]) {
      assert MessageCaused(b, run, q, c.failureMsgs[q]);
      if q in b.failureMsgs && b.failureMsgs[q] == c.failureMsgs[q] {
        assert MessageCaused(a, [e], q, b.failureMsgs[q]);
      }
    }
  }

  lemma {:induction false} NothingIsCaused(tr: Tracker)
    ensures Caused(tr, [], tr)
  {
  }

  lemma {:induction false} RunIsCaused(tr: Tracker, run: seq<Report>)
    requires Inv(tr) && PanicFree(tr, run)
    ensures Caused(tr, run, After(tr, run))
    decreases |run|
  {
    if run == [] {
      NothingIsCaused(tr);
    } else {
      var e, rest, tr' := run[0], run[1..], Next(tr, run[0]);
      assert run == [e] + rest;
      StepKeepsInv(tr, e);
      StepIsCaused(tr, e);
      RunKeepsInv(tr', rest);
      RunIsCaused(tr', rest);
      CausedCompose(tr, e, tr', rest, After(tr', rest));
    }
  }

  ghost predicate SameReports(a: seq<Report>, b: seq<Report>) {
    forall e :: e in a <==> e in b
  }

  /** Every result, message and registration of a is in b. */
  ghost predicate Shows(a: Tracker, b: Tracker) {
    && (forall q | SlotOf(a, q).Some? && SlotOf(a, q) != Some(Unknown) :: SlotOf(b, q) == SlotOf(a, q))
    && (forall q | q in a.failureMsgs :: q in b.failureMsgs && b.failureMsgs[q] == a.failureMsgs[q])
    && (forall c | c in a.statuses && a.statuses[c].objects.Some? ::
          && c in b.statuses && b.statuses[c].objects.Some?
          && b.statuses[c].objects.value.Keys == a.statuses[c].objects.value.Keys)
  }

  /** With the same reports behind both, what one tracker shows the other shows too. */
  lemma {:induction false} ShownInBoth(tr: Tracker, x: seq<Report>, y: seq<Report>)
    requires Inv(tr) && PanicFree(tr, x) && PanicFree(tr, y) && SameReports(x, y)
    ensures Shows(After(tr, x), After(tr, y))
  {
    var a, b := After(tr, x), After(tr, y);
    RunKeepsInv(tr, x);
    RunKeepsInv(tr, y);
    RunIsCaused(tr, x);
    forall q | SlotOf(a, q).Some? && SlotOf(a, q) != Some(Unknown) ensures SlotOf(b, q) == SlotOf(a, q) {
      var s := SlotOf(a, q).value;
      assert SlotCaused(tr, x, q, s);
      if Result(q, s) in x {
        assert Reflects(b, Result(q, s));
      } else if SlotOf(tr, q) != Some(s) {
        var m :| Failure(q, m) in x;
        assert Reflects(b, Failure(q, m));
      }
    }
    forall q | q in a.failureMsgs ensures q in b.failureMsgs && b.failureMsgs[q] == a.failureMsgs[q] {
      assert MessageCaused(tr, x, q, a.failureMsgs[q]);
      if Failure(q, a.failureMsgs[q]) in x {
        assert Reflects(b, Failure(q, a.failureMsgs[q]));
      }
    }
    forall c | c in a.statuses && a.statuses[c].objects.Some?
      ensures c in b.statuses && b.statuses[c].objects.Some?
      ensures b.statuses[c].objects.value.Keys == a.statuses[c].objects.value.Keys
    {
      if tr.statuses[c].objects.None? {
        assert Reflects(b, Register(c, a.statuses[c].objects.value.Keys));
      }
    }
  }

  lemma {:induction false} SlotAt(tr: Tracker, o: Checkable, t: RuleType, i: nat)
    requires WellShaped(tr) && ConfigOf(o) in tr.statuses && tr.statuses[ConfigOf(o)].objects.Some?
    requires o in tr.statuses[ConfigOf(o)].objects.value
    requires t in tr.statuses[ConfigOf(o)].checkTypes && i < tr.statuses[ConfigOf(o)].checkTypes[t]
    ensures var slots := tr.statuses[ConfigOf(o)].objects.value[o];
            t in slots && i < |slots[t]| && SlotOf(tr, CheckRule(o, t, i)) == Some(slots[t][i])
  {
    assert ShapeOf(tr.statuses[ConfigOf(o)].objects.value[o], tr.statuses[ConfigOf(o)].checkTypes);
  }

  lemma {:induction false} SameSlotsSameObject(a: Tracker, b: Tracker, o: Checkable)
    requires WellShaped(a) && WellShaped(b) && SameObjects(a, b, ConfigOf(o))
    requires o in a.statuses[ConfigOf(o)].objects.value
    requires forall q: CheckRule | q.container == o :: SlotOf(a, q) == SlotOf(b, q)
    ensures a.statuses[ConfigOf(o)].objects.value[o] == b.statuses[ConfigOf(o)].objects.value[o]
  {
    var c := ConfigOf(o);
    var x, y, types := a.statuses[c].objects.value[o], b.statuses[c].objects.value[o], a.statuses[c].checkTypes;
    forall t, i: nat | t in types && i < types[t]
      ensures t in x && t in y && i < |x[t]| && i < |y[t]| && x[t][i] == y[t][i]
    {
      SlotAt(a, o, t, i);
      SlotAt(b, o, t, i);
      assert CheckRule(o, t, i).container == o;
    }
    SlotsEqual(x, y, types);
  }

  lemma {:induction false} SlotsEqual(x: Slots, y: Slots, types: map<RuleType, nat>)
    requires ShapeOf(x, types) && ShapeOf(y, types)
    requires forall t, i: nat | t in types && i < types[t] :: x[t][i] == y[t][i]
    ensures x == y
  {
    forall t | t in x ensures x[t] == y[t] {}
  }

  lemma {:induction false} SlotsDetermine(a: Tracker, b: Tracker)
    requires WellShaped(a) && WellShaped(b) && a.statuses.Keys == b.statuses.Keys
    requires forall c | c in a.statuses ::
      (a.statuses[c].objects.None? && a.statuses[c] == b.statuses[c]) || SameObjects(a, b, c)
    requires forall q :: SlotOf(a, q) == SlotOf(b, q)
    ensures a.statuses == b.statuses
  {
    forall c | c in a.statuses ensures a.statuses[c] == b.statuses[c] {
      if a.statuses[c].objects.Some? {
        var x, y := a.statuses[c].objects.value, b.statuses[c].objects.value;
        forall o | o in x ensures x[o] == y[o] { SameSlotsSameObject(a, b, o); }
        assert x == y;
      }
    }
  }

  lemma {:induction false} SlotsAgree(a: Tracker, b: Tracker, q: CheckRule)
    requires WellShaped(a) && WellShaped(b) && Shows(a, b) && Shows(b, a)
    requires forall c | c in a.statuses && c in b.statuses :: a.statuses[c].checkTypes == b.statuses[c].checkTypes
    ensures SlotOf(a, q) == SlotOf(b, q)
  {
    if SlotOf(a, q).Some? { SlotExistence(a, b, q); }
    if SlotOf(b, q).Some? { SlotExistence(b, a, q); }
  }

  lemma {:induction false} ShowingIsEquality(a: Tracker, b: Tracker)
    requires WellShaped(a) && WellShaped(b) && Shows(a, b) && Shows(b, a)
    requires a.statuses.Keys == b.statuses.Keys
    requires forall c | c in a.statuses :: a.statuses[c].checkTypes == b.statuses[c].checkTypes
    ensures a == b
  {
    forall q ensures SlotOf(a, q) == SlotOf(b, q) { SlotsAgree(a, b, q); }
    SlotsDetermine(a, b);
    assert a.failureMsgs == b.failureMsgs;
  }

  lemma {:induction false} SameDeclarations(tr: Tracker, a: Tracker, b: Tracker)
    requires Extends(tr, a) && Extends(tr, b)
    ensures a.statuses.Keys == b.statuses.Keys
    ensures forall c | c in a.statuses :: a.statuses[c].checkTypes == b.statuses[c].checkTypes
  {
  }

  /** Check reports are confluent: two panic-free runs that make the same reports in any orders end
      in the same tracker, and so in the same statuses and messages. */
  lemma {:induction false} ReportsAreConfluent(tr: Tracker, x: seq<Report>, y: seq<Report>)
    requires Inv(tr) && PanicFree(tr, x) && PanicFree(tr, y) && SameReports(x, y)
    ensures After(tr, x) == After(tr, y)
  {
    RunKeepsInv(tr, x);
    RunKeepsInv(tr, y);
    SameDeclarations(tr, After(tr, x), After(tr, y));
    ShownInBoth(tr, x, y);
    ShownInBoth(tr, y, x);
    ShowingIsEquality(After(tr, x), After(tr, y));
  }

  /** In particular for all reports made to a new tracker. */
  lemma {:induction false} ReportsToNewAreConfluent(declared: map<ConfigCheckable, map<RuleType, nat>>,
                                                    x: seq<Report>, y: seq<Report>)
    requires PanicFree(NewTracker(declared), x) && PanicFree(NewTracker(declared), y) && SameReports(x, y)
    ensures After(NewTracker(declared), x) == After(NewTracker(declared), y)
  {
    NewTrackerIsInv(declared);
    ReportsAreConfluent(NewTracker(declared), x, y);
  }

  ghost predicate WasRegistered(run: seq<Report>, o: Checkable) {
    exists objects :: Register(ConfigOf(o), objects) in run && o in objects
  }

  ghost predicate WasReported(run: seq<Report>, q: CheckRule) {
    || (exists m :: Failure(q, m) in run)
    || (exists s :: s != Unknown && Result(q, s) in run)
  }

  /** A registration is accepted exactly once for each declared configuration object, with objects of
      its own. */
  lemma {:induction false} RegistrationsAllowed(declared: map<ConfigCheckable, map<RuleType, nat>>,
                                                run: seq<Report>, c: ConfigCheckable, objects: set<Checkable>)
    requires PanicFree(NewTracker(declared), run)
    ensures Enabled(After(NewTracker(declared), run), Register(c, objects)) <==>
            && c in declared && (forall o | o in objects :: ConfigOf(o) == c)
            && !exists others :: Register(c, others) in run
  {
    var tr := After(NewTracker(declared), run);
    RunsFromNewAreSound(declared, run);
    NewTrackerIsInv(declared);
    RunIsCaused(NewTracker(declared), run);
    if others :| Register(c, others) in run {
      assert Reflects(tr, Register(c, others));
    }
  }

  lemma {:induction false} SlotsOfRun(declared: map<ConfigCheckable, map<RuleType, nat>>, run: seq<Report>,
                                      q: CheckRule)
    requires PanicFree(NewTracker(declared), run)
    ensures var c := ConfigOf(q.container);
            SlotOf(After(NewTracker(declared), run), q).Some? <==>
            WasRegistered(run, q.container) && c in declared && q.typ in declared[c] && q.index < declared[c][q.typ]
  {
    var tr, c := After(NewTracker(declared), run), ConfigOf(q.container);
    RunsFromNewAreSound(declared, run);
    NewTrackerIsInv(declared);
    RunIsCaused(NewTracker(declared), run);
    if c in tr.statuses && tr.statuses[c].objects.Some? && q.container in tr.statuses[c].objects.value {
      assert Register(c, tr.statuses[c].objects.value.Keys) in run;
      assert ShapeOf(tr.statuses[c].objects.value[q.container], tr.statuses[c].checkTypes);
    }
    if objects :| Register(c, objects) in run && q.container in objects {
      assert Reflects(tr, Register(c, objects));
    }
  }

  /** A result is accepted exactly for a declared check of a registered object that has none yet. */
  lemma {:induction false} ResultsAllowed(declared: map<ConfigCheckable, map<RuleType, nat>>, run: seq<Report>,
                                          q: CheckRule, status: Status)
    requires PanicFree(NewTracker(declared), run)
    ensures var c := ConfigOf(q.container);
            Enabled(After(NewTracker(declared), run), Result(q, status)) <==>
            && WasRegistered(run, q.container) && c in declared && q.typ in declared[c] && q.index < declared[c][q.typ]
            && !WasReported(run, q)
  {
    var start, tr := NewTracker(declared), After(NewTracker(declared), run);
    SlotsOfRun(declared, run, q);
    RunsFromNewAreSound(declared, run);
    NewTrackerIsInv(declared);
    RunIsCaused(start, run);
    if m :| Failure(q, m) in run {
      assert Reflects(tr, Failure(q, m));
    } else if s :| s != Unknown && Result(q, s) in run {
      assert Reflects(tr, Result(q, s));
    }
    assert SlotOf(start, q) == None;
    assert SlotOf(tr, q).Some? && SlotOf(tr, q) != Some(Unknown) ==> SlotCaused(start, run, q, SlotOf(tr, q).value);
  }

  /** So two such runs also report the same failure messages in the same order, however Go walks
      its maps. */
  lemma {:induction false} MessagesAreConfluent(tr: Tracker, x: seq<Report>, y: seq<Report>, o: Checkable,
                                                order: seq<RuleType>, order': seq<RuleType>, m: seq<string>,
                                                m': seq<string>)
    requires Inv(tr) && PanicFree(tr, x) && PanicFree(tr, y) && SameReports(x, y)
    requires Reports(After(tr, x), o, order, m) && Reports(After(tr, y), o, order', m')
    ensures m == m'
  {
    var c := ConfigOf(o);
    ReportsAreConfluent(tr, x, y);
    var slots := After(tr, x).statuses[c].objects.value[o];
    SortedMessagesAreDetermined(After(tr, x).failureMsgs, o, slots, order, order', m, m');
  }

  /** What ObjectFailureMessages promises to return. */
  ghost predicate Reports(tr: Tracker, o: Checkable, order: seq<RuleType>, messages: seq<string>) {
    var c := ConfigOf(o);
    && c in tr.statuses && tr.statuses[c].objects.Some? && o in tr.statuses[c].objects.value
    && var slots := tr.statuses[c].objects.value[o];
    && multiset(order) == multiset(slots.Keys) && (forall t | t in order :: t in slots)
    && SortOf(StringLess, Messages(tr.failureMsgs, o, slots, order), messages)
  }
}
