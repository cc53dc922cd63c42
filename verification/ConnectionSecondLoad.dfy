/** When a simulator process that took a LoadLibrary thread can get a second one. */
module ConnectionSecondLoads {
  import Queue = ConnectQueue
  import opened LaunchRetries
  import Launcher
  import opened Connection
  import opened ConnectionSafety
  import opened ConnectionLoads

  // ----- Reachability -----

  ghost predicate Reaches(s: State, t: State) {
    exists steps :: Possible(s, steps) && Run(s, steps) == t
  }

  lemma ReachesItself(s: State)
    ensures Reaches(s, s)
  {
    Ended(s);
  }

  lemma ReachesNext(s: State, t: State, step: Step)
    requires Reaches(s, t) && Enabled(t, step)
    ensures Reaches(s, Next(t, step))
  {
    hide Next, Enabled;
    var steps :| Possible(s, steps) && Run(s, steps) == t;
    Ended(Next(t, step));
    Led(t, step, []);
    assert [step] + [] == [step];
    Appended(s, steps, [step]);
  }

  lemma ReachesOn(s: State, t: State, u: State)
    requires Reaches(s, t) && Reaches(t, u)
    ensures Reaches(s, u)
  {
    hide Next, Enabled;
    var a :| Possible(s, a) && Run(s, a) == t;
    var b :| Possible(t, b) && Run(t, b) == u;
    Appended(s, a, b);
  }

  // ----- What every reachable state keeps -----

  // With a handle, the attached process ID means the process attached to.
  ghost predicate HandleAims(s: State) {
    var w := s.worker;
    w.attached != 0 && w.handle ==>
      && w.target in s.born
      && forall p :: p in s.simulator ==> (p.pid == w.attached <==> p.serial == w.target)
  }

  ghost predicate Sane(s: State) {
    Named(s) && HandleAims(s) && Attending(s.worker) && (s.worker.loadStarted ==> s.worker.attached != 0)
  }

  lemma SameKeepsAim(s: State, t: State)
    requires Same(s, t) && Named(s) && HandleAims(s)
    ensures Named(t) && HandleAims(t)
  {
  }

  lemma MovesKeepAim(s: State, step: Step)
    requires Enabled(s, step) && Moves(step) && Named(s) && HandleAims(s)
        && (s.worker.loadStarted ==> s.worker.attached != 0)
    requires Attending(s.worker)
    ensures
      var t := Next(s, step);
      Named(t) && HandleAims(t) && (t.worker.loadStarted ==> t.worker.attached != 0)
  {
    hide OutcomeOf, MayRetry, Scheduled, MayRecover, Recovered;
  }

  lemma StepKeepsSane(s: State, step: Step)
    requires Sane(s) && Enabled(s, step)
    ensures Sane(Next(s, step))
  {
    StepKeepsAttending(s, step);
    if Moves(step) {
      MovesKeepAim(s, step);
    } else {
      OthersMoveNothing(s, step);
      SameKeepsAim(s, Next(s, step));
    }
    hide Next, Enabled, Named, HandleAims, Attending;
  }

  lemma {:induction false} ReachedIsSane(s: State, steps: seq<Step>)
    requires Sane(s) && Possible(s, steps)
    ensures Sane(Run(s, steps))
    decreases |steps|
  {
    hide Next, Enabled, Sane;
    if steps != [] {
      StepKeepsSane(s, steps[0]);
      ReachedIsSane(Next(s, steps[0]), steps[1..]);
    }
  }

  lemma ReachableIsSane(s: State, t: State)
    requires Initial(s) && Reaches(s, t)
    ensures Sane(t)
  {
    var steps :| Possible(s, steps) && Run(s, steps) == t;
    assert Sane(s);
    hide Next, Enabled, Sane;
    ReachedIsSane(s, steps);
  }

  // ----- The question -----

  // The worker is attached to this running process; it took a LoadLibrary thread, and does not show
  // the bridge.
  ghost predicate Taken(s: State, p: Process) {
    && p in s.simulator && s.worker.attached == p.pid && s.worker.loadStarted
    && p.serial in s.loads && p.serial !in s.bridged
  }

  // The next step creates a LoadLibrary thread in this process.
  ghost predicate Loading(s: State, p: Process, answers: Launcher.Answers) {
    && Enabled(s, LoadBridge(answers, p.serial, 0)) && OutcomeOf(answers, s.worker.loadStarted).started
  }

  // Some continuation creates another LoadLibrary thread in this process.
  ghost predicate LoadedAgain(s: State, p: Process) {
    exists t, answers :: Reaches(s, t) && Loading(t, p, answers)
  }

  // ----- With a handle, never -----

  ghost predicate Guarded(s: State, p: Process) {
    && Sane(s) && p.serial in s.born
    && (Runs(s, p.serial) ==>
          p in s.simulator && s.worker.handle && s.worker.attached == p.pid && s.worker.target == p.serial
            && s.worker.loadStarted)
  }

  lemma StepKeepsGuarded(s: State, p: Process, step: Step)
    requires Guarded(s, p) && Enabled(s, step)
    ensures Guarded(Next(s, step), p)
  {
    var t := Next(s, step);
    StepKeepsSane(s, step);
    if Moves(step) {
      MovesKeepGuarded(s, p, step);
    } else {
      OthersMoveNothing(s, step);
      hide Next, Enabled, Sane;
      assert Runs(t, p.serial) == Runs(s, p.serial);
    }
  }

  lemma MovesKeepGuarded(s: State, p: Process, step: Step)
    requires Guarded(s, p) && Enabled(s, step) && Moves(step)
    ensures
      var t := Next(s, step);
      && p.serial in t.born
      && (Runs(t, p.serial) ==>
            p in t.simulator && t.worker.handle && t.worker.attached == p.pid && t.worker.target == p.serial
              && t.worker.loadStarted)
  {
    var t := Next(s, step);
    hide OutcomeOf, MayRetry, Scheduled, MayRecover, Recovered;
    if Runs(t, p.serial) {
      var q :| q in t.simulator && q.serial == p.serial;
      if !step.SimulatorStarts? {
        assert q in s.simulator;
      }
      assert Runs(s, p.serial);
    }
  }

  lemma {:induction false} GuardedNeverLoads(s: State, p: Process, steps: seq<Step>)
    requires Guarded(s, p) && Possible(s, steps)
    ensures Guarded(Run(s, steps), p)
    decreases |steps|
  {
    hide Next, Enabled, Guarded;
    if steps != [] {
      StepKeepsGuarded(s, p, steps[0]);
      GuardedNeverLoads(Next(s, steps[0]), p, steps[1..]);
    }
  }

  lemma GuardedNotLoading(s: State, p: Process, answers: Launcher.Answers)
    requires Guarded(s, p)
    ensures !Loading(s, p, answers)
  {
    if Loading(s, p, answers) {
      LoadsAreFirst(s, answers, p.serial, 0);
      Launcher.LoadsAreFresh(answers, !s.worker.loadStarted);
      assert Process(s.worker.attached, p.serial) in s.simulator;
      assert Runs(s, p.serial);
      assert false;
    }
  }

  // ----- Without a profile request left, never -----

  ghost predicate Exhausted(s: State) {
    && Sane(s) && s.current.profileRequest == NO_PROFILE_REQUESTS_LEFT
    && ((s.worker.attached != 0 && s.worker.loadStarted) || Idle(s))
  }

  lemma StepKeepsExhausted(s: State, step: Step)
    requires Exhausted(s) && Enabled(s, step)
    ensures Exhausted(Next(s, step))
  {
    StepKeepsSane(s, step);
    StepLosesNothing(s, step);
    if Moves(step) {
      hide OutcomeOf, MayRetry, Scheduled, MayRecover, Recovered, Sane;
    } else {
      OthersMoveNothing(s, step);
      if Idle(s) {
        ExhaustedMoves(s, step);
      }
      hide Next, Enabled, Sane;
    }
  }

  // Neither asked for nor on the way to a load.
  predicate Idle(s: State) {
    !s.requested && s.worker.place !in {Open, PublishFirst, Load}
  }

  lemma ExhaustedMoves(s: State, step: Step)
    requires Enabled(s, step) && !Moves(step) && s.current.profileRequest == NO_PROFILE_REQUESTS_LEFT && Idle(s)
    ensures Idle(Next(s, step))
  {
    if FromWindow(step) {
      WindowLeavesWorker(s, step);
      hide Published, Applied, Begun, Queue.Absorb;
    } else if step.TakeCommand? || step.Authorized? || step.LookStale? || step.UpdateStatus? {
      EffectsStayIdle(s, if step.LookStale? then step.now else 0);
      hide TakenBy, AuthorizedBy, LookedStale, StatusBy;
    } else {
      OthersStayIdle(s, step);
    }
  }

  lemma EffectsStayIdle(s: State, now: nat)
    requires s.current.profileRequest == NO_PROFILE_REQUESTS_LEFT && Idle(s)
    ensures Idle(TakenBy(s)) && Idle(LookedStale(s, now)) && Idle(StatusBy(s))
    ensures s.worker.place == Authorize ==> Idle(AuthorizedBy(s))
  {
    hide Applied;
  }

  lemma OthersStayIdle(s: State, step: Step)
    requires Enabled(s, step) && !Moves(step) && !FromWindow(step) && Idle(s)
    requires !step.TakeCommand? && !step.Authorized? && !step.LookStale? && !step.UpdateStatus?
    ensures Idle(Next(s, step))
  {
    hide TakenBy, AuthorizedBy, OpenedBy, LoadedBy, LookedStale, StatusBy, Published, Applied, Begun, ShouldAttempt,
      Ready;
  }

  lemma {:induction false} ExhaustedStays(s: State, steps: seq<Step>)
    requires Exhausted(s) && Possible(s, steps)
    ensures Exhausted(Run(s, steps))
    decreases |steps|
  {
    hide Next, Enabled, Exhausted;
    if steps != [] {
      StepKeepsExhausted(s, steps[0]);
      ExhaustedStays(Next(s, steps[0]), steps[1..]);
    }
  }

  lemma ExhaustedNotLoading(s: State, p: Process, answers: Launcher.Answers)
    requires Exhausted(s)
    ensures !Loading(s, p, answers)
  {
    Launcher.LoadsAreFresh(answers, !s.worker.loadStarted);
  }

  lemma NeverAgain(s: State, p: Process)
    requires Sane(s) && Taken(s, p)
    requires s.worker.handle || s.current.profileRequest == NO_PROFILE_REQUESTS_LEFT
    ensures !LoadedAgain(s, p)
  {
    forall t, answers | Reaches(s, t) ensures !Loading(t, p, answers) {
      var steps :| Possible(s, steps) && Run(s, steps) == t;
      if s.worker.handle {
        assert Guarded(s, p);
        hide Next, Enabled, Guarded, Loading;
        GuardedNeverLoads(s, p, steps);
        GuardedNotLoading(t, p, answers);
      } else {
        assert Exhausted(s);
        hide Next, Enabled, Exhausted, Loading;
        ExhaustedStays(s, steps);
        ExhaustedNotLoading(t, p, answers);
      }
    }
  }

  // ----- Without a handle, with a profile request left, always -----

  // Disconnected, the Disconnect waiting to be taken, and the process as it was.
  ghost predicate Calm(s: State, p: Process, place: Place, profile: Counter) {
    && s.disconnected && s.window == Queue.NoCommand && s.pending == Queue.Disconnect
    && s.worker.place == place && s.worker.attached == p.pid && p.pid != 0 && !s.worker.handle
    && p in s.simulator && p.serial !in s.bridged && s.current.profileRequest == profile
  }

  // The window thread gets there from anywhere.
  lemma Calms(s: State, p: Process)
    requires Sane(s) && Taken(s, p) && !s.worker.handle
    ensures exists t :: Reaches(s, t) && Calm(t, p, s.worker.place, s.current.profileRequest)
  {
    ReachesItself(s);
    var s1 := s;
    if s.window != Queue.NoCommand {
      s1 := Next(s, QueueCommand);
      ReachesNext(s, s, QueueCommand);
    }
    var s2 := Next(s1, PressDisconnect(false));
    ReachesNext(s, s1, PressDisconnect(false));
    ReachesNext(s, s2, QueueCommand);
    hide Reaches, Sane;
    assert Calm(Next(s2, QueueCommand), p, s.worker.place, s.current.profileRequest);
  }

  // How far the worker is from the top of its loop.
  function Rank(place: Place): nat {
    match place
    case Top => 0
    case Disconnecting => 1
    case Poll => 1
    case Authorize => 1
    case ReadStatus => 2
    case PollWrite => 2
    case Publish => 2
    case ConfirmStale => 3
    case CheckStale => 4
    case Decide => 5
    case Load => 5
    case Scan => 6
    case PublishFirst => 6
    case Open => 7
  }

  const PROCESS_GONE := Launcher.Answers(
    false, false, false, 0, false, false, false, false, false, false, false, Launcher.Pending,
    0, false, false, false, false, Launcher.Pending, false, 0)

  // The step that leads on from a place, where the process cannot be opened and nothing is written.
  function Onward(place: Place): Step
    requires place != Top
  {
    match place
    case Disconnecting => AfterDisconnect(false, 0)
    case Scan => KeepAttached
    case Decide => MakeDecision(false, 0)
    case Authorize => Authorized
    case Open => OpenMailbox(false, 0)
    case PublishFirst => WriteFirst(false, 0)
    case Load => LoadBridge(PROCESS_GONE, 0, 0)
    case CheckStale => LookStale(0)
    case ConfirmStale => SetStale
    case Publish => Exchange(false, 0, 0, 0)
    case ReadStatus => UpdateStatus
    case Poll => EndRound
    case PollWrite => PollOnce(false, 0)
  }

  // It can be taken, brings the worker nearer to the top and leaves the calm.
  ghost predicate LeadsOn(s: State, p: Process, place: Place, profile: Counter)
    requires place != Top
  {
    var step := Onward(place);
    && Enabled(s, step)
    && Rank(Next(s, step).worker.place) < Rank(place) && Calm(Next(s, step), p, Next(s, step).worker.place, profile)
  }

  lemma CalmCall(s: State, p: Process, place: Place, profile: Counter)
    requires Calm(s, p, place, profile) && (place == Load || place == Open || place == Authorize)
    ensures LeadsOn(s, p, place, profile)
  {
    hide MayRetry, Scheduled, MayRecover, Recovered, Applied, Begun;
  }

  lemma CalmStep(s: State, p: Process, place: Place, profile: Counter)
    requires Calm(s, p, place, profile) && place != Top
    ensures LeadsOn(s, p, place, profile)
  {
    if place == Load || place == Open || place == Authorize {
      CalmCall(s, p, place, profile);
    } else {
      hide LoadedBy, OpenedBy, AuthorizedBy, TakenBy, Detached, AttachedTo, Published, Applied, Begun, Confirms, Ready;
    }
  }

  lemma {:induction false} CalmToTop(s: State, p: Process, place: Place, profile: Counter)
    requires Calm(s, p, place, profile)
    ensures exists t :: Reaches(s, t) && Calm(t, p, Top, profile)
    decreases Rank(place)
  {
    ReachesItself(s);
    if place != Top {
      CalmStep(s, p, place, profile);
      var next := Next(s, Onward(place));
      ReachesNext(s, s, Onward(place));
      hide Next, Enabled, Reaches, Calm, Rank;
      CalmToTop(next, p, next.worker.place, profile);
      var t :| Reaches(next, t) && Calm(t, p, Top, profile);
      ReachesOn(s, next, t);
    }
  }

  // Nothing attached and no command waiting, while the process runs.
  ghost predicate Missed(s: State, p: Process) {
    && s.worker.place == Scan && s.worker.attached == 0 && !s.worker.loadStarted && s.worker.command == Queue.NoCommand
    && p in s.simulator && p.pid != 0 && p.serial !in s.bridged && s.window == Queue.NoCommand
    && s.current.profileRequest != NO_PROFILE_REQUESTS_LEFT
  }

  // A scan that misses the running process detaches from it.
  lemma Misses(s: State, p: Process)
    requires exists profile :: profile != NO_PROFILE_REQUESTS_LEFT && Calm(s, p, Top, profile)
    ensures exists t :: Reaches(s, t) && Missed(t, p)
  {
    var s1 := Next(s, TakeCommand);
    var s2 := Next(s1, AfterDisconnect(false, 0));
    var s3 := Next(s2, TakeCommand);
    assert Missed(Next(s3, Detach), p) && Enabled(s3, Detach);
    ReachesItself(s);
    hide Reaches;
    ReachesNext(s, s, TakeCommand);
    ReachesNext(s, s1, AfterDisconnect(false, 0));
    ReachesNext(s, s2, TakeCommand);
    ReachesNext(s, s3, Detach);
  }

  // The thread is created, and 30 seconds later the module still does not show.
  const PENDING_LOAD := Launcher.Answers(
    true, true, true, 0, false, true, false, true, true, true, true, Launcher.Pending,
    0, false, false, false, false, Launcher.Pending, false, 0)

  lemma PendingLoadLoads(allow: bool)
    ensures Launcher.Suitable(PENDING_LOAD) && !Launcher.Present(PENDING_LOAD, allow)
        && Launcher.Loads(PENDING_LOAD, allow) == allow
    ensures OutcomeOf(PENDING_LOAD, !allow) == Outcome(allow, false, !allow)
  {
  }

  // Attached again without a handle, and about to load.
  ghost predicate OnTheWay(s: State, p: Process, place: Place) {
    && s.worker.place == place && s.worker.attached == p.pid && !s.worker.handle && !s.worker.loadStarted
    && p in s.simulator && p.serial !in s.bridged && !s.disconnected
  }

  // And the next attachment loads, where a Connect was pressed.
  lemma LoadsAfterMiss(s: State, p: Process)
    requires Missed(s, p)
    ensures exists t ::
        Reaches(s, t) && OnTheWay(t, p, Load) && t.current.profileRequest == s.current.profileRequest + 1
  {
    PressAndAttach(s, p);
    hide Reaches, Next, Enabled, OnTheWay, Missed;
    var a :| Reaches(s, a) && OnTheWay(a, p, Authorize) && a.requested
      && a.current.profileRequest == s.current.profileRequest + 1;
    AuthorizesAndOpens(a, p);
    var t :| Reaches(a, t) && OnTheWay(t, p, Load) && t.current.profileRequest == a.current.profileRequest;
    ReachesOn(s, a, t);
  }

  lemma PressAndAttach(s: State, p: Process)
    requires Missed(s, p)
    ensures exists t ::
        && Reaches(s, t) && OnTheWay(t, p, Authorize) && t.requested
        && t.current.profileRequest == s.current.profileRequest + 1
  {
    var s1 := Next(s, Press(Queue.Connect));
    var s2 := Next(s1, Attach(p, false));
    var s3 := Next(s2, MakeDecision(true, 0));
    assert OnTheWay(s3, p, Authorize) && s3.requested && s3.current.profileRequest == s.current.profileRequest + 1;
    ReachesItself(s);
    hide Reaches;
    ReachesNext(s, s, Press(Queue.Connect));
    ReachesNext(s, s1, Attach(p, false));
    ReachesNext(s, s2, MakeDecision(true, 0));
  }

  lemma AuthorizesAndOpens(s: State, p: Process)
    requires OnTheWay(s, p, Authorize) && s.requested
    ensures exists t :: Reaches(s, t) && OnTheWay(t, p, Load) && t.current.profileRequest == s.current.profileRequest
  {
    var s1 := Next(s, Authorized);
    var s2 := Next(s1, OpenMailbox(true, 0));
    var s3 := Next(s2, WriteFirst(false, 0));
    assert OnTheWay(s3, p, Load) && s3.current.profileRequest == s.current.profileRequest;
    ReachesItself(s);
    hide Reaches;
    ReachesNext(s, s, Authorized);
    ReachesNext(s, s1, OpenMailbox(true, 0));
    ReachesNext(s, s2, WriteFirst(false, 0));
  }

  lemma AtLoad(s: State, p: Process)
    requires OnTheWay(s, p, Load)
    ensures Loading(s, p, PENDING_LOAD)
  {
    PendingLoadLoads(true);
    assert p == Process(p.pid, p.serial);
    hide OutcomeOf;
  }

  lemma Again(s: State, p: Process)
    requires Sane(s) && Taken(s, p) && !s.worker.handle && s.current.profileRequest != NO_PROFILE_REQUESTS_LEFT
    ensures LoadedAgain(s, p)
  {
    Calms(s, p);
    var profile := s.current.profileRequest;
    hide Reaches, Next, Enabled, Calm, Missed, OnTheWay, Loading;
    var a :| Reaches(s, a) && Calm(a, p, s.worker.place, profile);
    CalmToTop(a, p, s.worker.place, profile);
    var b :| Reaches(a, b) && Calm(b, p, Top, profile);
    ReachesOn(s, a, b);
    Misses(b, p);
    var c :| Reaches(b, c) && Missed(c, p);
    ReachesOn(s, b, c);
    LoadsAfterMiss(c, p);
    var d :| Reaches(c, d) && OnTheWay(d, p, Load);
    ReachesOn(s, c, d);
    AtLoad(d, p);
  }

  // From any reachable state attached to a running process that took a LoadLibrary thread and does not
  // show the bridge, some continuation loads it again if and only if no handle to it is held and a
  // profile request is left.
  lemma SecondLoadExactly(s: State, t: State, p: Process)
    requires Initial(s) && Reaches(s, t) && Taken(t, p)
    ensures LoadedAgain(t, p) <==> !t.worker.handle && t.current.profileRequest != NO_PROFILE_REQUESTS_LEFT
  {
    ReachableIsSane(s, t);
    hide Reaches, Sane, Taken, LoadedAgain;
    if t.worker.handle || t.current.profileRequest == NO_PROFILE_REQUESTS_LEFT {
      NeverAgain(t, p);
    } else {
      Again(t, p);
    }
  }

  lemma LoadsGrow(s: State, step: Step)
    requires Enabled(s, step)
    ensures s.loads <= Next(s, step).loads
  {
    if !Moves(step) {
      OthersMoveNothing(s, step);
      hide Next;
    } else {
      hide OutcomeOf, MayRetry, Scheduled, MayRecover, Recovered;
    }
  }

  lemma {:induction false} LoadsStay(s: State, steps: seq<Step>)
    requires Possible(s, steps)
    ensures s.loads <= Run(s, steps).loads
    decreases |steps|
  {
    hide Next, Enabled;
    if steps != [] {
      LoadsGrow(s, steps[0]);
      LoadsStay(Next(s, steps[0]), steps[1..]);
    }
  }

  // So it happens from a fresh start: the first load is still pending when a scan misses the process.
  lemma TwoLoadsWithoutHandle(s: State)
    requires Initial(s) && s.current.profileRequest == 0
    ensures exists t :: Reaches(s, t) && !Distinct(t.loads)
  {
    var p := Process(7, 1);
    var s1 := Next(s, SimulatorStarts(p));
    var s2 := Next(s1, TakeCommand);
    assert Missed(s2, p) && s2.current.profileRequest == 0;
    ReachesItself(s);
    ReachesNext(s, s, SimulatorStarts(p));
    ReachesNext(s, s1, TakeCommand);
    LoadsAfterMiss(s2, p);
    hide Reaches, Possible, Run;
    var a :| Reaches(s2, a) && OnTheWay(a, p, Load) && a.current.profileRequest == 1;
    ReachesOn(s, s2, a);
    AtLoad(a, p);
    LoadsPending(a, p);
    var b := Next(a, LoadBridge(PENDING_LOAD, 1, 0));
    ReachesNext(s, a, LoadBridge(PENDING_LOAD, 1, 0));
    ReachableIsSane(s, b);
    hide Next, Enabled, Sane, OnTheWay;
    Again(b, p);
    var c, answers :| Reaches(b, c) && Loading(c, p, answers);
    ReachesOn(s, b, c);
    LoadsSecond(s, b, c, p, answers);
  }

  lemma LoadsPending(s: State, p: Process)
    requires OnTheWay(s, p, Load) && Loading(s, p, PENDING_LOAD)
    ensures
      var t := Next(s, LoadBridge(PENDING_LOAD, p.serial, 0));
      Taken(t, p) && !t.worker.handle && t.current == s.current && t.loads == s.loads + [p.serial]
  {
    PendingLoadLoads(true);
    hide OutcomeOf;
  }

  lemma LoadsSecond(s: State, b: State, c: State, p: Process, answers: Launcher.Answers)
    requires Reaches(s, c) && Reaches(b, c) && p.serial in b.loads && Loading(c, p, answers)
    ensures exists t :: Reaches(s, t) && !Distinct(t.loads)
  {
    var t := Next(c, LoadBridge(answers, p.serial, 0));
    ReachesNext(s, c, LoadBridge(answers, p.serial, 0));
    assert t.loads == c.loads + [p.serial];
    var steps :| Possible(b, steps) && Run(b, steps) == c;
    LoadsStay(b, steps);
    var i :| 0 <= i < |b.loads| && b.loads[i] == p.serial;
    assert t.loads[i] == b.loads[i] && t.loads[|c.loads|] == p.serial;
    hide Next, Enabled;
    assert !Distinct(t.loads);
  }
}
