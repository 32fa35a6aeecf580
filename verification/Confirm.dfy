/** The confirmation race of a cloud apply: the operation and its prompt, the poller that watches
    the run, the lock-timeout goroutine and the stop signal, interleaved in any way. */
module Confirm {
  import opened Addrs

  datatype Err = Nil | Approved | Overridden | Discarded | Canceled | General
  datatype InputErr = NoInputErr | InputCanceled | InputFailed

  /** What does not change during the operation; opApply confirms with the keyword "yes". */
  datatype Config = Config(interactive: bool, input: bool, savedPlan: bool, keyword: string)

  /** The operation's goroutine: opApply, then confirm up to its receive, then opApply again. */
  datatype Main =
    | Starting
    | Planned
    | Deciding
    | Prompting
    | CheckingErr(err: InputErr)
    | CheckingDone
    | ReadingStopErr
    | Cancelling
    | Comparing
    | Rereading
    | Discarding
    | Sending(e: Err)
    | Receiving
    | Gate(e: Err)
    | Finished

  datatype Poller = NotStarted | Waiting | Polling | PollSending(e: Err) | PollCancelling | PollDone

  datatype Timer = Armed | TimerReading | TimerSetting | TimerDone

  /** doneCtx is canceled once canceled or stopped; typed is what the prompt returned. */
  datatype State = State(
    main: Main, poller: Poller, timer: Timer,
    channel: seq<Err>, canceled: bool, stopped: bool, autoApprove: bool,
    typed: Option<string>, applies: nat, discards: nat)
  {
    predicate Done() { canceled || stopped }
  }

  /** The stop signal and the lock-timeout goroutine. */
  datatype OutsideStep = Stop | TimerFire | TimerQuit | TimerRead(pending: bool) | TimerSet

  datatype PollerStep = Tick | Quit | Read(ok: bool, expected: bool, discarded: bool) | PollSend | PollCancel

  datatype ConfirmStep =
    | Input(v: string, err: InputErr) | CheckErr | CheckDone | ReadStopErr | Cancel | Compare
    | Reread(ok: bool, discardable: bool) | Discard(ok: bool)

  datatype ApplyStep =
    | Plan(goOn: bool) | CheckConfirmable(ok: bool, confirmable: bool) | Decide | Send | Receive | PassGate

  datatype Action = Outside(o: OutsideStep) | Poll(p: PollerStep) | Confirming(q: ConfirmStep) | Applying(a: ApplyStep)

  predicate Enabled(s: State, act: Action) {
    match act
    case Outside(o) => OutsideEnabled(s, o)
    case Poll(p) => PollerEnabled(s, p)
    case Confirming(q) => ConfirmEnabled(s, q)
    case Applying(a) => ApplyEnabled(s, a)
  }

  function Next(c: Config, s: State, act: Action): State
    requires Enabled(s, act)
  {
    match act
    case Outside(o) => OutsideNext(s, o)
    case Poll(p) => PollerNext(c, s, p)
    case Confirming(q) => ConfirmNext(c, s, q)
    case Applying(a) => ApplyNext(c, s, a)
  }

  predicate OutsideEnabled(s: State, o: OutsideStep) {
    match o
    case Stop => true
    case TimerFire => s.timer.Armed?
    case TimerQuit => s.timer.Armed? && s.stopped
    case TimerRead(_) => s.timer.TimerReading?
    case TimerSet => s.timer.TimerSetting?
  }

  function OutsideNext(s: State, o: OutsideStep): State
    requires OutsideEnabled(s, o)
  {
    match o
    case Stop => s.(stopped := true)
    case TimerFire => s.(timer := TimerReading)
    case TimerQuit => s.(timer := TimerDone)
    case TimerRead(pending) => s.(timer := if pending then TimerSetting else TimerDone)
    case TimerSet => s.(timer := TimerDone, autoApprove := true)
  }

  predicate PollerEnabled(s: State, p: PollerStep) {
    match p
    case Tick => s.poller.Waiting?
    case Quit => s.poller.Waiting? && s.Done()
    case Read(_, _, _) => s.poller.Polling?
    case PollSend => s.poller.PollSending? && |s.channel| < 2
    case PollCancel => s.poller.PollCancelling?
  }

  /** expected: the run is still confirmable (or still waiting for an override). */
  function Verdict(c: Config, ok: bool, expected: bool, discarded: bool): Option<Err> {
    if !ok then Some(General)
    else if expected || (c.keyword != "yes" && c.keyword != "override") then None
    else if discarded then Some(Discarded)
    else if c.keyword == "yes" then Some(Approved)
    else Some(Overridden)
  }

  function PollerNext(c: Config, s: State, p: PollerStep): State
    requires PollerEnabled(s, p)
  {
    match p
    case Tick => s.(poller := Polling)
    case Quit => s.(poller := PollCancelling)
    case Read(ok, expected, discarded) =>
      s.(poller := match Verdict(c, ok, expected, discarded) case Some(e) => PollSending(e) case None => Waiting)
    case PollSend => s.(poller := PollCancelling, channel := s.channel + [s.poller.e])
    case PollCancel => s.(poller := PollDone, canceled := true)
  }

  predicate ConfirmEnabled(s: State, q: ConfirmStep) {
    match q
    case Input(_, _) => s.main.Prompting?
    case CheckErr => s.main.CheckingErr?
    case CheckDone => s.main.CheckingDone?
    case ReadStopErr => s.main.ReadingStopErr?
    case Cancel => s.main.Cancelling?
    case Compare => s.main.Comparing? && s.typed.Some?
    case Reread(_, _) => s.main.Rereading?
    case Discard(_) => s.main.Discarding?
  }

  function ConfirmNext(c: Config, s: State, q: ConfirmStep): State
    requires ConfirmEnabled(s, q)
  {
    match q
    case Input(v, err) => s.(main := CheckingErr(err), typed := Some(v))
    case CheckErr =>
      s.(main := if s.main.err == InputFailed && !s.stopped then Sending(General) else CheckingDone)
    case CheckDone => s.(main := if s.Done() then ReadingStopErr else Cancelling)
    case ReadStopErr => s.(main := Sending(if s.stopped then Canceled else Nil))
    case Cancel => s.(main := Comparing, canceled := true)
    case Compare => s.(main := if s.typed.value == c.keyword then Sending(Nil) else Rereading)
    case Reread(ok, discardable) =>
      s.(main := if !ok then Sending(General) else if discardable then Discarding else Sending(Discarded))
    case Discard(ok) => s.(main := Sending(if ok then Discarded else General), discards := s.discards + 1)
  }

  predicate ApplyEnabled(s: State, a: ApplyStep) {
    match a
    case Plan(_) => s.main.Starting?
    case CheckConfirmable(_, _) => s.main.Planned?
    case Decide => s.main.Deciding?
    case Send => s.main.Sending? && |s.channel| < 2
    case Receive => s.main.Receiving? && |s.channel| > 0
    case PassGate => s.main.Gate?
  }

  function AfterPlan(c: Config, goOn: bool): Main {
    if !goOn then Finished else if c.savedPlan then Gate(Nil) else Planned
  }

  /** mustConfirm reads AutoApprove once. */
  function Decided(c: Config, s: State): State {
    var mustConfirm := c.interactive && !s.autoApprove;
    if mustConfirm && c.input then s.(main := Prompting, poller := Waiting)
    else if mustConfirm then s.(main := Finished)
    else s.(main := Gate(Nil))
  }

  function ApplyNext(c: Config, s: State, a: ApplyStep): State
    requires ApplyEnabled(s, a)
  {
    match a
    case Plan(goOn) => s.(main := AfterPlan(c, goOn))
    case CheckConfirmable(ok, confirmable) =>
      s.(main := if !ok || (!s.autoApprove && !confirmable) then Finished else Deciding)
    case Decide => Decided(c, s)
    case Send => s.(main := Receiving, channel := s.channel + [s.main.e])
    case Receive =>
      var e := s.channel[0];
      s.(main := if e == Nil || e == Approved then Gate(e) else Finished, channel := s.channel[1..])
    case PassGate =>
      if (!s.autoApprove || c.savedPlan) && s.main.e != Approved then s.(main := Finished, applies := s.applies + 1)
      else s.(main := Finished)
  }

  predicate Initial(s: State) {
    && s.main == Starting && s.poller == NotStarted && s.channel == []
    && !s.canceled && s.typed == None && s.applies == 0 && s.discards == 0
  }

  ghost predicate Possible(c: Config, s: State, run: seq<Action>)
    decreases |run|
  {
    run == [] || (Enabled(s, run[0]) && Possible(c, Next(c, s, run[0]), run[1..]))
  }

  ghost function After(c: Config, s: State, run: seq<Action>): State
    requires Possible(c, s, run)
    decreases |run|
  {
    if run == [] then s else After(c, Next(c, s, run[0]), run[1..])
  }

  // ---------- Invariant ----------

  predicate BeforeConfirm(m: Main) { m.Starting? || m.Planned? || m.Deciding? }

  /** confirm has not yet canceled its own context. */
  predicate BeforeCancel(m: Main) {
    m.Prompting? || m.CheckingErr? || m.CheckingDone? || m.ReadingStopErr? || m.Cancelling?
  }

  /** confirm still owes its one message. */
  predicate OwesMessage(m: Main) {
    BeforeCancel(m) || m.Comparing? || m.Rereading? || m.Discarding? || m.Sending?
  }

  predicate PollerMaySend(p: Poller) { p.Waiting? || p.Polling? || p.PollSending? }

  predicate ErrorFirst(s: State) { s.channel != [] && s.channel[0] != Nil }

  predicate Confirmed(c: Config, s: State) { s.typed == Some(c.keyword) }

  function Owed(s: State): nat {
    (if OwesMessage(s.main) then 1 else 0) + (if PollerMaySend(s.poller) then 1 else 0)
  }

  /** The channel has room for every message still owed, and holds one when confirm receives. */
  predicate QueueInv(s: State) {
    && |s.channel| + Owed(s) <= 2
    && (s.main.Receiving? ==> s.channel != [])
    && (BeforeConfirm(s.main) ==> s.poller == NotStarted && s.channel == [] && !s.canceled)
    && (s.poller.PollSending? ==> s.poller.e != Nil)
  }

  /** Only the poller, after sending its error, cancels before confirm does. */
  predicate CancelInv(s: State) {
    && (BeforeCancel(s.main) && (s.canceled || s.poller.PollCancelling?) ==> s.stopped || ErrorFirst(s))
    && (s.main.ReadingStopErr? ==> s.stopped || ErrorFirst(s))
    && (OwesMessage(s.main) ==> s.channel == [] || ErrorFirst(s))
  }

  /** What has to be true of the prompt's answer at each point. */
  predicate AnswerInv(c: Config, s: State) {
    && (s.main.Planned? || s.main.Deciding? ==> !c.savedPlan)
    && (OwesMessage(s.main) || s.main.Receiving? ==> c.interactive && !c.savedPlan)
    && (OwesMessage(s.main) && !s.main.Prompting? ==> s.typed.Some?)
    && (s.main == Sending(Nil) ==> Confirmed(c, s) || ErrorFirst(s))
    && (s.main.Receiving? && s.channel != [] && s.channel[0] == Nil ==> Confirmed(c, s))
  }

  /** What has to be true once requests go out. */
  predicate RequestInv(c: Config, s: State) {
    && (s.main.Gate? ==> s.main.e == Nil || s.main.e == Approved)
    && (s.main == Gate(Nil) ==> c.savedPlan || !c.interactive || s.autoApprove || Confirmed(c, s))
    && (s.main.Rereading? || s.main.Discarding? || s.discards > 0 ==>
          s.typed.Some? && !Confirmed(c, s) && c.interactive && !c.savedPlan)
    && (s.discards > 0 ==> !BeforeConfirm(s.main) && !BeforeCancel(s.main) && !s.main.Comparing?)
    && (s.applies > 0 ==> s.main == Finished && (c.savedPlan || !c.interactive || Confirmed(c, s)))
    && s.applies <= 1
  }

  predicate Inv(c: Config, s: State) {
    QueueInv(s) && CancelInv(s) && AnswerInv(c, s) && RequestInv(c, s)
  }

  /** The invariant does not mention the timer, and only gains from the two flags rising. */
  lemma {:induction false} FlagsKeepInv(c: Config, s: State, timer: Timer, stopped: bool, autoApprove: bool)
    requires Inv(c, s) && (s.stopped ==> stopped) && (s.autoApprove ==> autoApprove)
    ensures Inv(c, s.(timer := timer, stopped := stopped, autoApprove := autoApprove))
  {
    var s' := s.(timer := timer, stopped := stopped, autoApprove := autoApprove);
    assert QueueInv(s') && CancelInv(s') && AnswerInv(c, s');
  }

  lemma {:induction false} OutsideKeepsInv(c: Config, s: State, o: OutsideStep)
    requires Inv(c, s) && OutsideEnabled(s, o)
    ensures Inv(c, OutsideNext(s, o))
  {
    var s' := OutsideNext(s, o);
    FlagsKeepInv(c, s, s'.timer, s'.stopped, s'.autoApprove);
  }

  lemma {:induction false} PollerKeepsInv(c: Config, s: State, p: PollerStep)
    requires Inv(c, s) && PollerEnabled(s, p)
    ensures Inv(c, PollerNext(c, s, p))
  {
    var s' := PollerNext(c, s, p);
    assert QueueInv(s');
    assert CancelInv(s');
    assert AnswerInv(c, s');
  }

  lemma {:induction false} ConfirmKeepsInv(c: Config, s: State, q: ConfirmStep)
    requires Inv(c, s) && ConfirmEnabled(s, q)
    ensures Inv(c, ConfirmNext(c, s, q))
  {
    var s' := ConfirmNext(c, s, q);
    assert QueueInv(s');
    assert CancelInv(s');
    assert AnswerInv(c, s');
  }

  lemma {:induction false} ApplyKeepsInv(c: Config, s: State, a: ApplyStep)
    requires Inv(c, s) && ApplyEnabled(s, a)
    ensures Inv(c, ApplyNext(c, s, a))
  {
    var s' := ApplyNext(c, s, a);
    assert QueueInv(s');
    assert CancelInv(s');
    assert AnswerInv(c, s');
  }

  lemma {:induction false} StepKeepsInv(c: Config, s: State, act: Action)
    requires Inv(c, s) && Enabled(s, act)
    ensures Inv(c, Next(c, s, act))
  {
    match act {
      case Outside(o) => OutsideKeepsInv(c, s, o);
      case Poll(p) => PollerKeepsInv(c, s, p);
      case Confirming(q) => ConfirmKeepsInv(c, s, q);
      case Applying(a) => ApplyKeepsInv(c, s, a);
    }
  }

  /** AutoApprove and the stop signal only ever go from false to true. */
  lemma {:induction false} FlagsOnlyRise(c: Config, s: State, run: seq<Action>)
    requires Possible(c, s, run)
    ensures s.autoApprove ==> After(c, s, run).autoApprove
    ensures s.stopped ==> After(c, s, run).stopped
    decreases |run|
  {
    if run == [] {
    } else {
      FlagsOnlyRise(c, Next(c, s, run[0]), run[1..]);
    }
  }

  lemma {:induction false} RunKeepsInv(c: Config, s: State, run: seq<Action>)
    requires Inv(c, s) && Possible(c, s, run)
    ensures Inv(c, After(c, s, run))
    decreases |run|
  {
    if run == [] {
    } else {
      StepKeepsInv(c, s, run[0]);
      RunKeepsInv(c, Next(c, s, run[0]), run[1..]);
    }
  }

  // ---------- The race is harmless ----------

  /** The result channel holds two messages and no more. */
  lemma {:induction false} ChannelHoldsTwo(c: Config, s: State, run: seq<Action>)
    requires Initial(s) && Possible(c, s, run)
    ensures |After(c, s, run).channel| <= 2
    ensures forall t: State | |t.channel| >= 2 :: !Enabled(t, Applying(Send)) && !Enabled(t, Poll(PollSend))
  {
    RunKeepsInv(c, s, run);
  }

  /** In every interleaving neither goroutine ever blocks on the result channel. */
  lemma {:induction false} ChannelNeverBlocks(c: Config, s: State, run: seq<Action>)
    requires Initial(s) && Possible(c, s, run)
    ensures var s' := After(c, s, run);
            && (s'.main.Sending? ==> Enabled(s', Applying(Send)))
            && (s'.main.Receiving? ==> Enabled(s', Applying(Receive)))
            && (s'.poller.PollSending? ==> Enabled(s', Poll(PollSend)))
  {
    RunKeepsInv(c, s, run);
  }

  /** The operation's own next step, whatever the outside world answers. */
  function OwnStep(m: Main): Action {
    match m
    case Prompting => Confirming(Input("", NoInputErr))
    case CheckingErr(_) => Confirming(CheckErr)
    case CheckingDone => Confirming(CheckDone)
    case ReadingStopErr => Confirming(ReadStopErr)
    case Cancelling => Confirming(Cancel)
    case Comparing => Confirming(Compare)
    case Rereading => Confirming(Reread(true, true))
    case Discarding => Confirming(Discard(true))
    case Starting => Applying(Plan(true))
    case Planned => Applying(CheckConfirmable(true, true))
    case Deciding => Applying(Decide)
    case Sending(_) => Applying(Send)
    case Receiving => Applying(Receive)
    case _ => Applying(PassGate)
  }

  predicate Own(act: Action) { act.Confirming? || act.Applying? }

  /** The operation is never stuck: in every reachable state it is over or can take a step itself. */
  lemma {:induction false} OperationCanProceed(c: Config, s: State, run: seq<Action>)
    requires Initial(s) && Possible(c, s, run) && After(c, s, run).main != Finished
    ensures exists act :: Own(act) && Enabled(After(c, s, run), act)
  {
    RunKeepsInv(c, s, run);
    var act := OwnStep(After(c, s, run).main);
    assert Own(act) && Enabled(After(c, s, run), act);
  }

  /** How many own steps are left at most. */
  function StepsLeft(m: Main): nat {
    match m
    case Starting => 13
    case Planned => 12
    case Deciding => 11
    case Prompting => 10
    case CheckingErr(_) => 9
    case CheckingDone => 8
    case ReadingStopErr => 7
    case Cancelling => 7
    case Comparing => 6
    case Rereading => 5
    case Discarding => 4
    case Sending(_) => 3
    case Receiving => 2
    case Gate(_) => 1
    case Finished => 0
  }

  function OwnSteps(run: seq<Action>): nat {
    if run == [] then 0 else (if Own(run[0]) then 1 else 0) + OwnSteps(run[1..])
  }

  lemma {:induction false} OwnStepsCountDown(c: Config, s: State, act: Action)
    requires Enabled(s, act)
    ensures Own(act) ==> StepsLeft(Next(c, s, act).main) < StepsLeft(s.main)
    ensures !Own(act) ==> Next(c, s, act).main == s.main
  {
    match act {
      case Outside(_) =>
      case Poll(_) =>
      case Confirming(q) => ConfirmStepsCountDown(c, s, q);
      case Applying(a) => ApplyStepsCountDown(c, s, a);
    }
  }

  lemma {:induction false} ConfirmStepsCountDown(c: Config, s: State, q: ConfirmStep)
    requires ConfirmEnabled(s, q)
    ensures StepsLeft(ConfirmNext(c, s, q).main) < StepsLeft(s.main)
  {
  }

  lemma {:induction false} ApplyStepsCountDown(c: Config, s: State, a: ApplyStep)
    requires ApplyEnabled(s, a)
    ensures StepsLeft(ApplyNext(c, s, a).main) < StepsLeft(s.main)
  {
  }

  /** And it is soon over: no interleaving makes it take more than thirteen steps of its own. */
  lemma {:induction false} OperationEnds(c: Config, s: State, run: seq<Action>)
    requires Possible(c, s, run)
    ensures OwnSteps(run) + StepsLeft(After(c, s, run).main) <= StepsLeft(s.main) <= 13
    ensures (forall act | act in run :: Own(act)) ==> OwnSteps(run) == |run|
    decreases |run|
  {
    if run == [] {
    } else {
      OwnStepsCountDown(c, s, run[0]);
      assert run[0] in run && forall act | act in run[1..] :: act in run;
      OperationEnds(c, Next(c, s, run[0]), run[1..]);
    }
  }

  /** confirm returns nil only if the prompt returned the keyword. */
  lemma {:induction false} NilMeansConfirmed(c: Config, s: State, run: seq<Action>)
    requires Initial(s) && Possible(c, s, run) && Enabled(After(c, s, run), Applying(Receive))
    requires After(c, s, run).channel[0] == Nil
    ensures After(c, s, run).typed == Some(c.keyword)
  {
    RunKeepsInv(c, s, run);
  }

  /** On an interactive run without a saved plan the apply request is sent at most once, only after
      the user typed the keyword, and never together with a discard. */
  lemma {:induction false} AppliedOnlyIfConfirmed(c: Config, s: State, run: seq<Action>)
    requires Initial(s) && Possible(c, s, run)
    ensures var s' := After(c, s, run);
            && s'.applies <= 1
            && (s'.applies > 0 && c.interactive && !c.savedPlan ==> s'.typed == Some(c.keyword))
            && (s'.discards > 0 ==> s'.applies == 0)
  {
    RunKeepsInv(c, s, run);
  }

  /** The guarantee rests on AutoApprove never being cleared: whenever an interactive operation
      without a saved plan is at the gate unconfirmed, passing it sends an apply request exactly if
      AutoApprove is false there, and in every run it is true. */
  lemma {:induction false} UnconfirmedGateNeedsAutoApprove(c: Config, s: State, run: seq<Action>, autoApprove: bool)
    requires Initial(s) && Possible(c, s, run) && c.interactive && !c.savedPlan
    requires After(c, s, run).main == Gate(Nil) && !Confirmed(c, After(c, s, run))
    ensures var s' := After(c, s, run);
            && s'.autoApprove && s'.applies == 0
            && (ApplyNext(c, s'.(autoApprove := autoApprove), PassGate).applies > 0 <==> !autoApprove)
  {
    RunKeepsInv(c, s, run);
  }

  // ---------- What the operation does when nothing interferes ----------

  /** What the server and the user answer to the operation's own questions. */
  datatype Answers = Answers(goOn: bool, readOk: bool, confirmable: bool, typed: string, inputErr: InputErr,
                             rereadOk: bool, discardable: bool)

  /** An own step that gets these answers. */
  predicate Answered(a: Answers, act: Action) {
    match act
    case Applying(Plan(goOn)) => goOn == a.goOn
    case Applying(CheckConfirmable(ok, confirmable)) => ok == a.readOk && confirmable == a.confirmable
    case Confirming(Input(v, err)) => v == a.typed && err == a.inputErr
    case Confirming(Reread(ok, discardable)) => ok == a.rereadOk && discardable == a.discardable
    case _ => Own(act)
  }

  /** The requests to apply and to discard that follow from the answers, without any steps. */
  function Requests(c: Config, autoApprove: bool, a: Answers): (nat, nat) {
    if !a.goOn then (0, 0)
    else if c.savedPlan then (1, 0)
    else if !a.readOk || (!autoApprove && !a.confirmable) then (0, 0)
    else if autoApprove then (0, 0)
    else if !c.interactive then (1, 0)
    else if !c.input || a.inputErr == InputFailed then (0, 0)
    else if a.typed == c.keyword then (1, 0)
    else if a.rereadOk && a.discardable then (0, 1)
    else (0, 0)
  }

  /** The same seen from the middle of the operation. */
  function Outlook(c: Config, a: Answers, s: State): (nat, nat) {
    var typed := if a.typed == c.keyword then (1, 0) else if a.rereadOk && a.discardable then (0, 1) else (0, 0);
    match s.main
    case Starting => Requests(c, s.autoApprove, a)
    case Planned => Requests(c, s.autoApprove, a.(goOn := true))
    case Deciding => Requests(c, s.autoApprove, a.(goOn := true, readOk := true, confirmable := true))
    case Prompting => if a.inputErr == InputFailed then (0, 0) else typed
    case CheckingErr(err) => if err == InputFailed then (0, 0) else typed
    case CheckingDone => typed
    case Cancelling => typed
    case Comparing => typed
    case Rereading => (0, if a.rereadOk && a.discardable then 1 else 0)
    case Discarding => (0, 1)
    case Sending(e) => (if e == Nil then 1 else 0, s.discards)
    case Receiving => (if s.channel == [Nil] then 1 else 0, s.discards)
    case Gate(_) => (if !s.autoApprove || c.savedPlan then 1 else 0, 0)
    case ReadingStopErr => (0, 0)
    case Finished => (s.applies, s.discards)
  }

  /** What holds as long as neither the poller nor the outside world has taken a step. */
  predicate Quiet(s: State) {
    && !s.stopped && (s.poller.NotStarted? || s.poller.Waiting?)
    && (BeforeConfirm(s.main) || BeforeCancel(s.main) ==> !s.canceled && !s.main.ReadingStopErr?)
    && (BeforeConfirm(s.main) || OwesMessage(s.main) ==> s.channel == [])
    && (s.main.Receiving? ==> |s.channel| == 1 && s.channel[0] in {Nil, General, Discarded})
    && (s.main.Sending? ==> s.main.e in {Nil, General, Discarded})
    && (s.main.Gate? ==> s.main.e == Nil)
  }

  predicate Heard(c: Config, a: Answers, s: State) {
    && (s.main.Planned? || s.main.Deciding? ==> !c.savedPlan)
    && (OwesMessage(s.main) || s.main.Receiving? ==> !s.autoApprove && !c.savedPlan)
    && (s.main.CheckingErr? ==> s.main.err == a.inputErr)
    && (s.main.CheckingErr? || s.main.CheckingDone? || s.main.Cancelling? || s.main.Comparing? ==>
          s.typed == Some(a.typed))
  }

  predicate NothingSentEarly(s: State) {
    && (!s.main.Finished? ==> s.applies == 0)
    && (!s.main.Sending? && !s.main.Receiving? && !s.main.Finished? ==> s.discards == 0)
    && (s.main == Sending(Nil) || (s.main.Receiving? && s.channel == [Nil]) ==> s.discards == 0)
  }

  predicate Undisturbed(c: Config, a: Answers, s: State) {
    Quiet(s) && Heard(c, a, s) && NothingSentEarly(s)
  }

  lemma {:induction false} ConfirmKeepsOutlook(c: Config, a: Answers, s: State, q: ConfirmStep)
    requires Undisturbed(c, a, s) && ConfirmEnabled(s, q) && Answered(a, Confirming(q))
    ensures Undisturbed(c, a, ConfirmNext(c, s, q)) && Outlook(c, a, ConfirmNext(c, s, q)) == Outlook(c, a, s)
    ensures ConfirmNext(c, s, q).autoApprove == s.autoApprove
  {
  }

  lemma {:induction false} DecideKeepsOutlook(c: Config, a: Answers, s: State)
    requires Undisturbed(c, a, s) && s.main.Deciding?
    ensures Undisturbed(c, a, Decided(c, s)) && Outlook(c, a, Decided(c, s)) == Outlook(c, a, s)
    ensures Decided(c, s).autoApprove == s.autoApprove
  {
  }

  lemma {:induction false} MessageKeepsOutlook(c: Config, a: Answers, s: State, x: ApplyStep)
    requires Undisturbed(c, a, s) && ApplyEnabled(s, x) && (x.Send? || x.Receive?)
    ensures Undisturbed(c, a, ApplyNext(c, s, x)) && Outlook(c, a, ApplyNext(c, s, x)) == Outlook(c, a, s)
    ensures ApplyNext(c, s, x).autoApprove == s.autoApprove
  {
    if x.Receive? {
      assert s.channel == [s.channel[0]] && s.channel[1..] == [];
    } else {
      assert [] + [s.main.e] == [s.main.e];
    }
  }

  lemma {:induction false} ApplyKeepsOutlook(c: Config, a: Answers, s: State, x: ApplyStep)
    requires Undisturbed(c, a, s) && ApplyEnabled(s, x) && Answered(a, Applying(x))
    ensures Undisturbed(c, a, ApplyNext(c, s, x)) && Outlook(c, a, ApplyNext(c, s, x)) == Outlook(c, a, s)
    ensures ApplyNext(c, s, x).autoApprove == s.autoApprove
  {
    match x {
      case Plan(_) =>
      case CheckConfirmable(_, _) =>
      case Decide => DecideKeepsOutlook(c, a, s);
      case Send => MessageKeepsOutlook(c, a, s, x);
      case Receive => MessageKeepsOutlook(c, a, s, x);
      case PassGate =>
    }
  }

  ghost predicate AllAnswered(a: Answers, run: seq<Action>) {
    forall act | act in run :: Answered(a, act)
  }

  lemma {:induction false} OutlookStays(c: Config, a: Answers, s: State, run: seq<Action>)
    requires Undisturbed(c, a, s) && Possible(c, s, run) && AllAnswered(a, run)
    ensures Undisturbed(c, a, After(c, s, run)) && Outlook(c, a, After(c, s, run)) == Outlook(c, a, s)
    decreases |run|
  {
    if run == [] {
    } else {
      assert Answered(a, run[0]);
      match run[0] {
        case Confirming(q) => ConfirmKeepsOutlook(c, a, s, q);
        case Applying(x) => ApplyKeepsOutlook(c, a, s, x);
        case _ =>
      }
      OutlookStays(c, a, Next(c, s, run[0]), run[1..]);
    }
  }

  /** Undisturbed, a finished operation has sent exactly the requests that follow from the answers: in
      particular it prompts, and applies once the keyword is typed. */
  lemma {:induction false} UndisturbedOutcome(c: Config, a: Answers, s: State, run: seq<Action>)
    requires Initial(s) && !s.stopped && Possible(c, s, run) && AllAnswered(a, run)
    requires After(c, s, run).main == Finished
    ensures (After(c, s, run).applies, After(c, s, run).discards) == Requests(c, s.autoApprove, a)
  {
    OutlookStays(c, a, s, run);
  }

  // ---------- What interference can do ----------

  /** No interleaving lets an interactive operation end without an answer, unless the plan stops, the
      run cannot be confirmed, or AutoApprove gets set. */
  lemma {:induction false} NobodySkipsThePrompt(c: Config, s: State, run: seq<Action>)
    requires Initial(s) && c.interactive && c.input && !c.savedPlan && Possible(c, s, run)
    requires After(c, s, run).main == Finished && After(c, s, run).typed == None
    ensures || After(c, s, run).autoApprove
            || Applying(Plan(false)) in run
            || exists ok, confirmable :: Applying(CheckConfirmable(ok, confirmable)) in run && !(ok && confirmable)
  {
    if !After(c, s, run).autoApprove {
      AskedOrStopped(c, s, run);
    }
  }

  predicate Unasked(s: State) { BeforeConfirm(s.main) || s.main.Prompting? || s.typed.Some? }

  lemma {:induction false} AskedOrStopped(c: Config, s: State, run: seq<Action>)
    requires c.interactive && c.input && !c.savedPlan && Possible(c, s, run) && Unasked(s)
    requires !After(c, s, run).autoApprove
    ensures || Unasked(After(c, s, run))
            || Applying(Plan(false)) in run
            || exists ok, confirmable :: Applying(CheckConfirmable(ok, confirmable)) in run && !(ok && confirmable)
    decreases |run|
  {
    if run == [] {
    } else {
      FlagsOnlyRise(c, s, run);
      UnaskedStep(c, s, run[0]);
      if Unasked(Next(c, s, run[0])) {
        AskedOrStopped(c, Next(c, s, run[0]), run[1..]);
      } else {
        assert run[0] in run;
      }
    }
  }

  lemma {:induction false} UnaskedStep(c: Config, s: State, act: Action)
    requires c.interactive && c.input && !c.savedPlan && Enabled(s, act) && Unasked(s) && !s.autoApprove
    ensures || Unasked(Next(c, s, act))
            || act == Applying(Plan(false))
            || (act.Applying? && act.a.CheckConfirmable? && !(act.a.ok && act.a.confirmable))
  {
    if act.Applying? {
      match act.a {
        case Plan(_) =>
        case CheckConfirmable(_, _) =>
        case Decide =>
        case _ =>
      }
    }
  }

  /** After a stop signal that comes before the prompt's answer is examined. */
  predicate StoppedInTime(s: State) {
    && s.stopped && s.applies == 0 && Nil !in s.channel
    && (s.poller.PollSending? ==> s.poller.e != Nil)
    && match s.main
       case Prompting => true
       case CheckingErr(_) => true
       case CheckingDone => true
       case ReadingStopErr => true
       case Sending(e) => e != Nil
       case Receiving => true
       case Gate(e) => e == Approved
       case Finished => true
       case _ => false
  }

  lemma {:induction false} StopStepKeeps(c: Config, s: State, act: Action)
    requires StoppedInTime(s) && Enabled(s, act)
    ensures StoppedInTime(Next(c, s, act))
  {
    match act {
      case Outside(_) =>
      case Poll(p) => StopPollStep(c, s, p);
      case Confirming(q) => StopConfirmStep(c, s, q);
      case Applying(a) => StopApplyStep(c, s, a);
    }
  }

  lemma {:induction false} StopPollStep(c: Config, s: State, p: PollerStep)
    requires StoppedInTime(s) && PollerEnabled(s, p)
    ensures StoppedInTime(PollerNext(c, s, p))
  {
  }

  lemma {:induction false} StopConfirmStep(c: Config, s: State, q: ConfirmStep)
    requires StoppedInTime(s) && ConfirmEnabled(s, q)
    ensures StoppedInTime(ConfirmNext(c, s, q))
  {
  }

  lemma {:induction false} StopApplyStep(c: Config, s: State, a: ApplyStep)
    requires StoppedInTime(s) && ApplyEnabled(s, a)
    ensures StoppedInTime(ApplyNext(c, s, a))
  {
    if a.Receive? {
      assert s.channel[0] in s.channel && forall e | e in s.channel[1..] :: e in s.channel;
    }
  }

  lemma {:induction false} StopHolds(c: Config, s: State, run: seq<Action>)
    requires StoppedInTime(s) && Possible(c, s, run)
    ensures StoppedInTime(After(c, s, run))
    decreases |run|
  {
    if run == [] {
    } else {
      StopStepKeeps(c, s, run[0]);
      StopHolds(c, Next(c, s, run[0]), run[1..]);
    }
  }

  /** A stop signal that arrives while the operation is prompting keeps it from ever applying,
      whatever is typed and whatever else happens. */
  lemma {:induction false} StopWhilePromptingPreventsApply(c: Config, s: State, run: seq<Action>, later: seq<Action>)
    requires Initial(s) && Possible(c, s, run) && After(c, s, run).main == Prompting
    requires Possible(c, OutsideNext(After(c, s, run), Stop), later)
    ensures After(c, OutsideNext(After(c, s, run), Stop), later).applies == 0
  {
    RunKeepsInv(c, s, run);
    var s1 := After(c, s, run);
    PromptingChannel(c, s, run);
    StopHolds(c, OutsideNext(s1, Stop), later);
  }

  lemma {:induction false} PromptingChannel(c: Config, s: State, run: seq<Action>)
    requires Possible(c, s, run) && (BeforeConfirm(s.main) || s.main.Prompting? ==> Nil !in s.channel)
    requires s.poller.PollSending? ==> s.poller.e != Nil
    ensures var s' := After(c, s, run);
            BeforeConfirm(s'.main) || s'.main.Prompting? ==> Nil !in s'.channel
    decreases |run|
  {
    if run == [] {
    } else {
      var s' := Next(c, s, run[0]);
      match run[0] {
        case Outside(_) =>
        case Poll(_) =>
        case Confirming(q) => ConfirmStepsCountDown(c, s, q);
        case Applying(x) => ApplyStepsCountDown(c, s, x);
      }
      PromptingChannel(c, s', run[1..]);
    }
  }

  /** The poller can always take a step until it is done, and ends once confirm or a stop cancels it. */
  lemma {:induction false} PollerCanProceed(c: Config, s: State, run: seq<Action>)
    requires Initial(s) && Possible(c, s, run)
    requires var p := After(c, s, run).poller; !p.NotStarted? && !p.PollDone?
    ensures exists act: Action :: act.Poll? && Enabled(After(c, s, run), act)
    ensures After(c, s, run).poller.Waiting? && After(c, s, run).Done() ==> Enabled(After(c, s, run), Poll(Quit))
  {
    RunKeepsInv(c, s, run);
    var s' := After(c, s, run);
    var act := match s'.poller
      case Waiting => Poll(Tick)
      case Polling => Poll(Read(true, true, true))
      case PollSending(_) => Poll(PollSend)
      case _ => Poll(PollCancel);
    assert act.Poll? && Enabled(s', act);
  }

  /** What confirm reports: once its context is done, the stop signal if there was one and else nothing
      of its own; on any other answer that the run was discarded, unless a request failed. */
  lemma {:induction false} ConfirmReports(c: Config, s: State, ok: bool, discardable: bool)
    ensures s.main.ReadingStopErr? ==>
              ConfirmNext(c, s, ReadStopErr).main == Sending(if s.stopped then Canceled else Nil)
    ensures s.main.Rereading? && (!ok || !discardable) ==>
              ConfirmNext(c, s, Reread(ok, discardable)).main == Sending(if ok then Discarded else General)
    ensures s.main.Discarding? ==> ConfirmNext(c, s, Discard(ok)).main == Sending(if ok then Discarded else General)
  {
  }

  /** A run approved elsewhere is not applied again. */
  lemma {:induction false} ApprovedElsewhereIsNotApplied(c: Config, s: State, run: seq<Action>)
    requires Initial(s) && Possible(c, s, run) && After(c, s, run).main == Gate(Approved)
    ensures ApplyNext(c, After(c, s, run), PassGate).main == Finished
    ensures ApplyNext(c, After(c, s, run), PassGate).applies == 0
  {
    RunKeepsInv(c, s, run);
  }

  /** What the poller reports about the run: a failed read, that it was discarded, or that it was
      approved or overridden elsewhere; while it still awaits confirmation, nothing. */
  lemma {:induction false} PollerReports(c: Config, s: State, ok: bool, expected: bool, discarded: bool)
    requires s.poller.Polling?
    ensures var p := PollerNext(c, s, Read(ok, expected, discarded)).poller;
            && (!ok ==> p == PollSending(General))
            && (ok && expected ==> p == Waiting)
            && (ok && !expected && discarded && c.keyword in {"yes", "override"} ==> p == PollSending(Discarded))
            && (ok && !expected && !discarded && c.keyword == "yes" ==> p == PollSending(Approved))
            && (ok && !expected && !discarded && c.keyword == "override" ==> p == PollSending(Overridden))
            && (ok && c.keyword !in {"yes", "override"} ==> p == Waiting)
  {
  }

  /** The lock timeout sets AutoApprove exactly if the run is still pending then. */
  lemma {:induction false} TimeoutApprovesPendingRuns(c: Config, s: State, pending: bool)
    requires s.timer == Armed
    ensures var s1 := OutsideNext(s, TimerFire);
            var s2 := OutsideNext(s1, TimerRead(pending));
            && s2.autoApprove == s.autoApprove
            && (pending ==> OutsideNext(s2, TimerSet) == s.(timer := TimerDone, autoApprove := true))
            && (!pending ==> s2 == s.(timer := TimerDone))
  {
  }
}
