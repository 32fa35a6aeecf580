/** Many state managers sharing one workspace, their calls interleaved in any way. */
module CloudRuns {
  import opened Addrs
  import opened CloudState

  // ---------- Many managers, one workspace ----------

  /** Where a manager is in Lock, RefreshState, (WriteState, PersistState)*, Unlock. Kept: its one
      Unlock call is over but the workspace lock was not released. */
  datatype Phase = Idle | Held | Ready | Released | Kept {
    predicate Holding() { Held? || Ready? || Kept? }
  }

  datatype Client = Client(m: Manager, phase: Phase)
  datatype System = System(remote: Remote, clients: seq<Client>)

  datatype Action =
    | DoLock(id: string, reachable: bool)
    | DoRefresh(reachable: bool)
    | DoWrite(c: Option<Content>)
    | DoPersist(env: Environment)
    | DoUnlock(reachable: bool)

  datatype Event = Event(who: nat, act: Action)

  predicate Enabled(s: System, e: Event) {
    e.who < |s.clients| &&
    var phase := s.clients[e.who].phase;
    match e.act
    case DoLock(_, _) => phase == Idle
    case DoRefresh(_) => phase == Held
    case DoWrite(_) => phase == Ready
    case DoPersist(_) => phase == Ready
    case DoUnlock(_) => phase == Held || phase == Ready
  }

  /** The new manager, remote and phase of the client that acts, and the call's success. */
  function Effect(m: Manager, phase: Phase, r: Remote, act: Action): (Client, Remote, bool) {
    match act
    case DoLock(id, reachable) =>
      var (m', r', ok) := Locked(m, r, id, reachable);
      (Client(m', if ok then Held else Idle), r', ok)
    case DoRefresh(reachable) =>
      (if reachable then Client(Refreshed(m, r), Ready) else Client(m, Held), r, reachable)
    case DoWrite(c) => (Client(m.(content := c), Ready), r, true)
    case DoPersist(env) =>
      var (m', r', ok) := Persisted(m, r, env);
      (Client(m', Ready), r', ok)
    case DoUnlock(reachable) =>
      var id := if m.lockId.Some? then m.lockId.value else "";
      var (m', r', ok) := Unlocked(m, r, id, "", reachable);
      (Client(m', if r'.locked then Kept else Released), r', ok)
  }

  function Next(s: System, e: Event): System
    requires Enabled(s, e)
  {
    var c := s.clients[e.who];
    var (c', r', _) := Effect(c.m, c.phase, s.remote, e.act);
    System(r', s.clients[e.who := c'])
  }

  function Succeeds(s: System, e: Event): bool
    requires Enabled(s, e)
  {
    var c := s.clients[e.who];
    Effect(c.m, c.phase, s.remote, e.act).2
  }

  ghost predicate Possible(s: System, run: seq<Event>)
    decreases |run|
  {
    run == [] || (Enabled(s, run[0]) && Possible(Next(s, run[0]), run[1..]))
  }

  ghost function After(s: System, run: seq<Event>): System
    requires Possible(s, run)
    decreases |run|
  {
    if run == [] then s else After(Next(s, run[0]), run[1..])
  }

  /** A call that does not reach the server leaves its client and the workspace as they were, except
      that Unlock is not called again. */
  lemma {:induction false} UnreachableCallsChangeNothing(s: System, who: nat, act: Action)
    requires Enabled(s, Event(who, act))
    requires (act.DoLock? || act.DoRefresh? || act.DoUnlock?) && !act.reachable
    ensures var s', c := Next(s, Event(who, act)), s.clients[who];
            && s'.remote == s.remote && s'.clients[who].m == c.m
            && s'.clients[who].phase == if act.DoUnlock? then (if s.remote.locked then Kept else Released) else c.phase
  {
  }

  // ---------- What every interleaving keeps ----------

  predicate ClientInv(c: Client, versions: seq<Version>) {
    && (c.phase.Ready? ==> ReadIsCurrent(c.m, versions))
    && (c.phase.Holding() || c.phase.Released? ==> c.m.lockId.Some?)
    && (c.m.stateUploadErr ==> c.phase.Ready? || c.phase.Kept?)
  }

  predicate Exclusive(s: System) {
    forall i, j | 0 <= i < |s.clients| && 0 <= j < |s.clients| ::
      s.clients[i].phase.Holding() && s.clients[j].phase.Holding() ==> i == j
  }

  ghost predicate Inv(s: System) {
    && OneLineage(s.remote.versions)
    && (forall i | 0 <= i < |s.clients| :: ClientInv(s.clients[i], s.remote.versions))
    && (forall i | 0 <= i < |s.clients| :: s.clients[i].phase.Holding() ==> s.remote.locked)
    && Exclusive(s)
  }

  /** Every step of every manager keeps the invariant, and versions are only ever appended. */
  lemma {:induction false} StepKeepsInv(s: System, e: Event)
    requires Inv(s) && Enabled(s, e)
    ensures Inv(Next(s, e)) && s.remote.versions <= Next(s, e).remote.versions
  {
    var c, s' := s.clients[e.who], Next(s, e);
    var versions, versions' := s.remote.versions, s'.remote.versions;
    if e.act.DoPersist? {
      PersistStep(c.m, s.remote, e.act.env);
      forall i | 0 <= i < |s.clients| ensures ClientInv(s'.clients[i], versions') {
        assert i != e.who ==> s'.clients[i] == s.clients[i] && !s.clients[i].phase.Holding();
      }
    } else {
      assert versions' == versions;
      assert ClientInv(s'.clients[e.who], versions);
      assert forall i | 0 <= i < |s.clients| && i != e.who :: s'.clients[i] == s.clients[i];
    }
  }

  ghost predicate Initial(s: System) {
    && OneLineage(s.remote.versions) && !s.remote.locked
    && forall i | 0 <= i < |s.clients| :: s.clients[i] == Client(FRESH, Idle)
  }

  lemma {:induction false} RunKeepsInv(s: System, run: seq<Event>)
    requires Inv(s) && Possible(s, run)
    ensures Inv(After(s, run)) && |After(s, run).clients| == |s.clients|
    ensures s.remote.versions <= After(s, run).remote.versions
    decreases |run|
  {
    if run == [] {
    } else {
      StepKeepsInv(s, run[0]);
      RunKeepsInv(Next(s, run[0]), run[1..]);
    }
  }

  /** In every interleaving at most one manager is between Lock and Unlock, the lineage never
      changes once there is one, and no version is ever lost. */
  lemma {:induction false} RunsAreSafe(s: System, run: seq<Event>)
    requires Initial(s) && Possible(s, run)
    ensures var s' := After(s, run);
            Exclusive(s') && OneLineage(s'.remote.versions) && s.remote.versions <= s'.remote.versions
  {
    RunKeepsInv(s, run);
  }

  /** Once an upload has failed, its manager keeps the workspace locked through every later run,
      so no other manager ever acquires it. */
  lemma {:induction false} FailedUploadKeepsLock(s: System, run: seq<Event>, who: nat)
    requires Inv(s) && Possible(s, run)
    requires who < |s.clients| && s.clients[who].m.stateUploadErr
    ensures var s' := After(s, run);
            && s'.remote.locked && who < |s'.clients| && s'.clients[who].phase.Holding()
            && forall i | 0 <= i < |s'.clients| && i != who :: !s'.clients[i].phase.Holding()
    decreases |run|
  {
    if run == [] {
    } else {
      StepKeepsInv(s, run[0]);
      if run[0].act.DoPersist? {
        PersistStep(s.clients[run[0].who].m, s.remote, run[0].act.env);
      }
      FailedUploadKeepsLock(Next(s, run[0]), run[1..], who);
    }
  }

  /** From the start: after any run, a PersistState whose upload fails makes its manager keep the
      workspace locked for good. */
  lemma {:induction false} FailedPersistKeepsLock(s: System, run: seq<Event>, who: nat, env: Environment,
                                                  later: seq<Event>)
    requires Initial(s) && Possible(s, run) && Enabled(After(s, run), Event(who, DoPersist(env)))
    requires Attempts(After(s, run).clients[who].m, After(s, run).remote, env) && !env.uploadOk
    requires Possible(Next(After(s, run), Event(who, DoPersist(env))), later)
    ensures var s' := After(Next(After(s, run), Event(who, DoPersist(env))), later);
            && s'.remote.locked && who < |s'.clients| && s'.clients[who].phase.Holding()
            && forall i | 0 <= i < |s'.clients| && i != who :: !s'.clients[i].phase.Holding()
  {
    RunKeepsInv(s, run);
    var s1, e := After(s, run), Event(who, DoPersist(env));
    StepKeepsInv(s1, e);
    UploadErrorMeaning(s1.clients[who].m, s1.remote, env);
    FailedUploadKeepsLock(Next(s1, e), later, who);
  }

  // ---------- What a successful persist publishes ----------

  /** The argument of the last WriteState of a manager in a run. */
  function LastWritten(run: seq<Event>, who: nat): Option<Option<Content>> {
    if run == [] then None
    else
      match LastWritten(run[1..], who)
      case Some(c) => Some(c)
      case None => if run[0].who == who && run[0].act.DoWrite? then Some(run[0].act.c) else None
  }

  /** Whether an event loses what "who" wrote last: an unsafe persist that gets to refresh. */
  predicate LosesAt(s: System, e: Event, who: nat)
    requires Enabled(s, e)
  {
    e.who == who && e.act.DoPersist? && e.act.env.refreshOk && !Safe(s.clients[who].m, s.remote)
  }

  /** The same over a run, from the last WriteState on. */
  ghost predicate Lost(s: System, run: seq<Event>, who: nat, before: bool)
    requires Possible(s, run)
    decreases |run|
  {
    if run == [] then before
    else
      var e := run[0];
      var now := !(e.who == who && e.act.DoWrite?) && (before || LosesAt(s, e, who));
      Lost(Next(s, e), run[1..], who, now)
  }

  /** How the manager's state relates to the last one written. */
  predicate Holds(m: Manager, written: Option<Content>, lost: bool) {
    if lost then m.readContent.Some? && m.content.Some? && Stored(m.content) != Stored(written)
    else Stored(m.content) == Stored(written)
  }

  lemma {:induction false} HoldsThroughPersist(m: Manager, r: Remote, env: Environment,
                                               written: Option<Content>, lost: bool)
    requires ReadIsCurrent(m, r.versions) && Holds(m, written, lost)
    ensures Holds(Persisted(m, r, env).0, written, lost || (env.refreshOk && !Safe(m, r)))
  {
  }

  /** What "who" holds after one step, given what it held before; a first write sets the record. */
  lemma {:induction false} HoldsThroughStep(s: System, e: Event, who: nat, written: Option<Content>, lost: bool)
    requires Inv(s) && Enabled(s, e) && who < |s.clients|
    requires s.clients[who].phase.Ready? ==> Holds(s.clients[who].m, written, lost)
    requires s.clients[who].phase in {Ready, Released, Kept}
    ensures var s' := Next(s, e);
            var written' := if e.who == who && e.act.DoWrite? then e.act.c else written;
            var lost' := !(e.who == who && e.act.DoWrite?) && (lost || LosesAt(s, e, who));
            && s'.clients[who].phase in {Ready, Released, Kept}
            && (s'.clients[who].phase.Ready? ==> Holds(s'.clients[who].m, written', lost'))
  {
    var c := s.clients[who];
    if e.who == who && e.act.DoPersist? {
      HoldsThroughPersist(c.m, s.remote, e.act.env, written, lost);
    }
  }

  /** Starting right after a write. */
  lemma {:induction false} HoldsThroughRun(s: System, run: seq<Event>, who: nat, written: Option<Content>, lost: bool)
    requires Inv(s) && Possible(s, run) && who < |s.clients|
    requires s.clients[who].phase.Ready? ==> Holds(s.clients[who].m, written, lost)
    requires s.clients[who].phase in {Ready, Released, Kept}
    ensures |After(s, run).clients| == |s.clients|
    ensures var c := After(s, run).clients[who];
            var last := LastWritten(run, who);
            c.phase.Ready? ==> Holds(c.m, if last.Some? then last.value else written, Lost(s, run, who, lost))
    decreases |run|
  {
    if run == [] {
    } else {
      var e := run[0];
      var w := if e.who == who && e.act.DoWrite? then e.act.c else written;
      var now := !(e.who == who && e.act.DoWrite?) && (lost || LosesAt(s, e, who));
      StepKeepsInv(s, e);
      HoldsThroughStep(s, e, who, written, lost);
      HoldsThroughRun(Next(s, e), run[1..], who, w, now);
    }
  }

  /** The same from any state: before the first write the record does not matter. */
  lemma {:induction false} WrittenStateIsHeld(s: System, run: seq<Event>, who: nat, lost: bool)
    requires Inv(s) && Possible(s, run) && who < |s.clients| && LastWritten(run, who).Some?
    ensures |After(s, run).clients| == |s.clients|
    ensures var c := After(s, run).clients[who];
            c.phase.Ready? ==> Holds(c.m, LastWritten(run, who).value, Lost(s, run, who, lost))
    decreases |run|
  {
    var e := run[0];
    StepKeepsInv(s, e);
    if e.who == who && e.act.DoWrite? {
      HoldsThroughRun(Next(s, e), run[1..], who, e.act.c, false);
    } else {
      WrittenStateIsHeld(Next(s, e), run[1..], who, lost || LosesAt(s, e, who));
    }
  }

  /** After any run, a successful PersistState leaves the workspace holding what its manager last
      wrote if and only if neither this call nor one since that write was an unsafe persist. */
  lemma {:induction false} PersistPublishesLastWrite(s: System, run: seq<Event>, who: nat, env: Environment)
    requires Initial(s) && Possible(s, run) && LastWritten(run, who).Some?
    requires Enabled(After(s, run), Event(who, DoPersist(env)))
    requires Succeeds(After(s, run), Event(who, DoPersist(env)))
    ensures var s' := After(s, run);
            Current(Next(s', Event(who, DoPersist(env))).remote.versions, Stored(LastWritten(run, who).value)) <==>
            !Lost(s, run, who, false) && !LosesAt(s', Event(who, DoPersist(env)), who)
  {
    RunKeepsInv(s, run);
    var s' := After(s, run);
    var m, w := s'.clients[who].m, LastWritten(run, who).value;
    WrittenStateIsHeld(s, run, who, false);
    PersistPublishesExactly(m, s'.remote, env);
    PublishedByLoser(m, s'.remote, env, w);
  }

  /** A manager whose write was lost earlier publishes something else now. */
  lemma {:induction false} PublishedByLoser(m: Manager, r: Remote, env: Environment, written: Option<Content>)
    requires ReadIsCurrent(m, r.versions) && OneLineage(r.versions) && Persisted(m, r, env).2
    ensures Holds(m, written, true) ==> !Current(Persisted(m, r, env).1.versions, Stored(written))
    ensures !InStep(m, r.versions) ==> env.refreshOk
  {
    PersistPublishesExactly(m, r, env);
  }

  // ---------- Callers that always have a state ----------

  predicate HasState(s: System, e: Event)
    requires Enabled(s, e)
  {
    e.act.DoPersist? ==> s.clients[e.who].m.content.Some?
  }

  /** Every PersistState in the run is called on a manager that has a state. */
  ghost predicate Supplied(s: System, run: seq<Event>)
    requires Possible(s, run)
    decreases |run|
  {
    run == [] || (HasState(s, run[0]) && Supplied(Next(s, run[0]), run[1..]))
  }

  ghost predicate SyncInv(s: System) {
    Inv(s) && forall i | 0 <= i < |s.clients| :: s.clients[i].phase.Ready? ==> InStep(s.clients[i].m, s.remote.versions)
  }

  lemma {:induction false} SyncStep(s: System, e: Event)
    requires SyncInv(s) && Enabled(s, e) && HasState(s, e)
    ensures SyncInv(Next(s, e))
  {
    StepKeepsInv(s, e);
    if e.act.DoPersist? {
      StayingInStepNeedsAState(s.clients[e.who].m, s.remote);
      assert forall i | 0 <= i < |s.clients| && i != e.who :: !s.clients[i].phase.Holding();
    }
  }

  /** With a state at every PersistState nothing is ever lost. */
  lemma {:induction false} SuppliedRunsLoseNothing(s: System, run: seq<Event>, who: nat)
    requires SyncInv(s) && Possible(s, run) && Supplied(s, run)
    ensures SyncInv(After(s, run)) && !Lost(s, run, who, false)
    decreases |run|
  {
    if run == [] {
    } else {
      SyncStep(s, run[0]);
      SuppliedRunsLoseNothing(Next(s, run[0]), run[1..], who);
    }
  }

  // ---------- Serials ----------

  /** An upload that does not sort after all earlier ones. */
  predicate BreaksOrderAt(s: System, e: Event)
    requires Enabled(s, e)
  {
    e.act.DoPersist? && !KeepsOrder(s.clients[e.who].m, s.remote) && Unhindered(s.clients[e.who].m, e.act.env)
  }

  ghost predicate NeverBreaksOrder(s: System, run: seq<Event>)
    requires Possible(s, run)
    decreases |run|
  {
    run == [] || (!BreaksOrderAt(s, run[0]) && NeverBreaksOrder(Next(s, run[0]), run[1..]))
  }

  lemma {:induction false} OrderOverRun(s: System, run: seq<Event>)
    requires Inv(s) && Possible(s, run) && Increasing(s.remote.versions)
    ensures Increasing(After(s, run).remote.versions) <==> NeverBreaksOrder(s, run)
    decreases |run|
  {
    if run == [] {
    } else {
      var e, s' := run[0], Next(s, run[0]);
      StepKeepsInv(s, e);
      if e.act.DoPersist? {
        OrderAfterPersist(s.clients[e.who].m, s.remote, e.act.env);
      }
      if BreaksOrderAt(s, e) {
        RunKeepsInv(s', run[1..]);
        PrefixBreaksOrder(s'.remote.versions, After(s', run[1..]).remote.versions);
      } else {
        OrderOverRun(s', run[1..]);
      }
    }
  }

  lemma {:induction false} InitialIsInSync(s: System)
    requires Initial(s)
    ensures SyncInv(s)
  {
  }

  /** In every interleaving uploaded serials strictly increase if and only if no manager uploads when
      its next serial does not pass the one it read, or while out of step. */
  lemma {:induction false} SerialsIncrease(s: System, run: seq<Event>)
    requires Initial(s) && Increasing(s.remote.versions) && Possible(s, run)
    ensures Increasing(After(s, run).remote.versions) <==> NeverBreaksOrder(s, run)
  {
    InitialIsInSync(s);
    OrderOverRun(s, run);
  }

  /** No serial has passed the bound b, and no holder is behind what it read. */
  ghost predicate SerialInv(s: System, b: nat) {
    && (forall i | 0 <= i < |s.clients| ::
          s.clients[i].m.serial <= b && (s.clients[i].phase.Ready? ==> NotBehind(s.clients[i].m)))
    && (forall i | 0 <= i < |s.remote.versions| :: s.remote.versions[i].serial <= b)
  }

  /** Away from the end of the counter, only an upload while out of step breaks the order. */
  lemma {:induction false} SerialStep(s: System, e: Event, b: nat)
    requires Inv(s) && Enabled(s, e) && SerialInv(s, b) && b + 1 < WRAP
    ensures SerialInv(Next(s, e), b + 1)
    ensures BreaksOrderAt(s, e) ==> !InStep(s.clients[e.who].m, s.remote.versions)
  {
    var c, s' := s.clients[e.who], Next(s, e);
    if e.act.DoPersist? {
      PersistStep(c.m, s.remote, e.act.env);
      SerialOfPersist(c.m, s.remote, e.act.env, b);
    }
    assert s'.clients[e.who].m.serial <= b + 1;
    assert s'.clients[e.who].phase.Ready? ==> NotBehind(s'.clients[e.who].m);
    assert forall i | 0 <= i < |s.clients| && i != e.who :: s'.clients[i] == s.clients[i];
  }

  lemma {:induction false} ShortSuppliedRun(s: System, run: seq<Event>, b: nat)
    requires SyncInv(s) && Possible(s, run) && Supplied(s, run) && SerialInv(s, b) && b + |run| < WRAP
    ensures NeverBreaksOrder(s, run)
    decreases |run|
  {
    if run == [] {
    } else {
      SyncStep(s, run[0]);
      SerialStep(s, run[0], b);
      ShortSuppliedRun(Next(s, run[0]), run[1..], b + 1);
    }
  }

  /** The serial of the current version. */
  function CurrentSerial(r: Remote): nat {
    if r.versions == [] then 0 else r.versions[|r.versions| - 1].serial
  }

  /** Callers that always have a state: as long as the counter cannot be exhausted, uploaded serials
      strictly increase. */
  lemma {:induction false} SuppliedSerialsIncrease(s: System, run: seq<Event>)
    requires Initial(s) && Increasing(s.remote.versions) && Possible(s, run) && Supplied(s, run)
    requires CurrentSerial(s.remote) + |run| < WRAP
    ensures Increasing(After(s, run).remote.versions)
  {
    InitialIsInSync(s);
    ShortSuppliedRun(s, run, CurrentSerial(s.remote));
    SerialsIncrease(s, run);
  }

  /** And every success publishes the last write. */
  lemma {:induction false} SuppliedPersistsPublish(s: System, run: seq<Event>, who: nat, env: Environment)
    requires Initial(s) && Possible(s, run) && Supplied(s, run) && LastWritten(run, who).Some?
    requires Enabled(After(s, run), Event(who, DoPersist(env)))
    requires Succeeds(After(s, run), Event(who, DoPersist(env)))
    ensures Current(Next(After(s, run), Event(who, DoPersist(env))).remote.versions,
                    Stored(LastWritten(run, who).value))
  {
    InitialIsInSync(s);
    SuppliedRunsLoseNothing(s, run, who);
    PersistPublishesLastWrite(s, run, who, env);
  }

  // ---------- Where the protocol can go wrong ----------

  /** Persisting before anything was written stores the empty state, but the next state written is
      lost and the next version repeats the serial. */
  lemma {:induction false} NilPersistLosesTheNextWrite(c: Content, id: string, uuid: Uuid)
    ensures var env := Environment(true, Some(uuid), true, true);
            var s := System(Remote(false, []), [Client(FRESH, Idle)]);
            var run := [Event(0, DoLock(id, true)), Event(0, DoRefresh(true)), Event(0, DoPersist(env)),
                        Event(0, DoWrite(Some(c))), Event(0, DoPersist(env))];
            Possible(s, run) && After(s, run).remote.versions == [Version(uuid, 1, EMPTY), Version(uuid, 1, EMPTY)]
  {
    var env := Environment(true, Some(uuid), true, true);
    var s := System(Remote(false, []), [Client(FRESH, Idle)]);
    var e0, e1, e2 := Event(0, DoLock(id, true)), Event(0, DoRefresh(true)), Event(0, DoPersist(env));
    var e3, e4 := Event(0, DoWrite(Some(c))), Event(0, DoPersist(env));
    var s1 := Next(s, e0);
    var s2 := Next(s1, e1);
    var s3 := Next(s2, e2);
    assert s3.remote.versions == [Version(uuid, 1, EMPTY)] && s3.clients[0].m.readContent == None;
    var s4 := Next(s3, e3);
    var s5 := Next(s4, e4);
    Steps5(s, e0, e1, e2, e3, e4);
  }

  lemma {:induction false} Steps5(s: System, e0: Event, e1: Event, e2: Event, e3: Event, e4: Event)
    requires Enabled(s, e0) && Enabled(Next(s, e0), e1) && Enabled(Next(Next(s, e0), e1), e2)
    requires var s3 := Next(Next(Next(s, e0), e1), e2); Enabled(s3, e3) && Enabled(Next(s3, e3), e4)
    ensures var run := [e0, e1, e2, e3, e4];
            Possible(s, run) && After(s, run) == Next(Next(Next(Next(Next(s, e0), e1), e2), e3), e4)
  {
    var s1 := Next(s, e0);
    var s2 := Next(s1, e1);
    var s3 := Next(s2, e2);
    var s4 := Next(s3, e3);
    var run := [e0, e1, e2, e3, e4];
    assert run[1..] == [e1, e2, e3, e4] && [e1, e2, e3, e4][1..] == [e2, e3, e4];
    assert [e2, e3, e4][1..] == [e3, e4] && [e3, e4][1..] == [e4] && [e4][1..] == [];
    assert Possible(s4, [e4]) && After(s4, [e4]) == Next(s4, e4);
    assert Possible(s3, [e3, e4]) && After(s3, [e3, e4]) == Next(s4, e4);
    assert Possible(s2, [e2, e3, e4]) && After(s2, [e2, e3, e4]) == Next(s4, e4);
    assert Possible(s1, [e1, e2, e3, e4]);
  }

  /** When a manager's Unlock frees a lock that another manager holds. */
  lemma {:induction false} UnlockTakesAnothersLock(s: System, who: nat, other: nat, id: string, name: string,
                                                   reachable: bool)
    requires Inv(s) && who < |s.clients| && other < |s.clients|
    requires !s.clients[who].phase.Holding() && s.clients[other].phase.Holding()
    ensures var m := s.clients[who].m;
            !Unlocked(m, s.remote, id, name, reachable).1.locked <==>
            && reachable && !m.stateUploadErr
            && id == if m.lockId.Some? then m.lockId.value else name
  {
  }

  /** So after any run a second Unlock, by a manager that has already released the workspace,
      releases the lock of whichever manager holds it by then. */
  lemma {:induction false} SecondUnlockReleasesAnother(s: System, run: seq<Event>, who: nat, other: nat, name: string)
    requires Initial(s) && Possible(s, run) && who < |After(s, run).clients| && other < |After(s, run).clients|
    requires After(s, run).clients[who].phase.Released? && After(s, run).clients[other].phase.Holding()
    ensures var s' := After(s, run);
            var m := s'.clients[who].m;
            && m.lockId.Some? && s'.remote.locked
            && !Unlocked(m, s'.remote, m.lockId.value, name, true).1.locked
  {
    RunKeepsInv(s, run);
    var s' := After(s, run);
    UnlockTakesAnothersLock(s', who, other, s'.clients[who].m.lockId.value, name, true);
  }

  /** And there are such runs. */
  lemma {:induction false} SecondUnlockIsPossible(id: string, id': string)
    ensures var s := System(Remote(false, []), [Client(FRESH, Idle), Client(FRESH, Idle)]);
            var run := [Event(0, DoLock(id, true)), Event(0, DoUnlock(true)), Event(1, DoLock(id', true))];
            && Initial(s) && Possible(s, run) && |After(s, run).clients| == 2
            && After(s, run).clients[0].phase.Released? && After(s, run).clients[1].phase.Holding()
  {
    var s := System(Remote(false, []), [Client(FRESH, Idle), Client(FRESH, Idle)]);
    var e0, e1, e2 := Event(0, DoLock(id, true)), Event(0, DoUnlock(true)), Event(1, DoLock(id', true));
    var s1 := Next(s, e0);
    var s2 := Next(s1, e1);
    var s3 := Next(s2, e2);
    assert s2.clients[0].phase == Released && s3.clients[1].phase == Held;
    assert [e0, e1, e2][1..] == [e1, e2] && [e1, e2][1..] == [e2] && [e2][1..] == [];
    assert Possible(s3, []) && After(s3, []) == s3;
    assert Possible(s2, [e2]) && After(s2, [e2]) == s3;
    assert Possible(s1, [e1, e2]) && After(s1, [e1, e2]) == s3;
  }
}
