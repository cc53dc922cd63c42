/** How often the bridge is loaded within one attachment, and within one simulator process to which a
    handle is held. */
module ConnectionLoads {
  import Queue = ConnectQueue
  import opened LaunchRetries
  import Launcher
  import opened Connection
  import opened ConnectionSafety

  // ----- Loads -----

  // Between resets the policy grants at most 1259 retries, and an attachment sees at most one load.
  lemma RetriesBounded(s: State, steps: seq<Step>, i: nat)
    requires Initial(s) && Possible(s, steps) && i <= |steps|
    ensures Before(s, steps, i).grants <= 1259 && Before(s, steps, i).loadsHere <= 1
  {
    SafeAt(s, steps, i);
  }

  // A retry is granted only after a call that created no thread.
  lemma RetryMeansNotLoaded(s: State, answers: Launcher.Answers, serial: nat, now: nat)
    requires Enabled(s, LoadBridge(answers, serial, now))
    ensures
      var t := Next(s, LoadBridge(answers, serial, now));
      t.grants > s.grants ==> t.loads == s.loads && !t.worker.attempted
  {
    if Launcher.Passing(answers, !s.worker.loadStarted) {
      Launcher.RetryLeavesNothing(answers, !s.worker.loadStarted);
    }
    hide Launcher.Passing, Launcher.Loads, Launcher.Succeeds, Launcher.Present, Launcher.Suitable;
  }

  // A LoadLibrary thread is created only in a running process that does not show the bridge, by a
  // worker that knows of no load in this attachment.
  lemma LoadsAreFirst(s: State, answers: Launcher.Answers, serial: nat, now: nat)
    requires Enabled(s, LoadBridge(answers, serial, now))
    ensures
      var t := Next(s, LoadBridge(answers, serial, now));
      t.loads != s.loads ==>
        && t.loads == s.loads + [serial] && !s.worker.loadStarted && t.worker.loadStarted
        && Process(s.worker.attached, serial) in s.simulator && serial !in s.bridged
  {
    Launcher.LoadsAreFresh(answers, !s.worker.loadStarted);
    assert Launcher.Loads(answers, !s.worker.loadStarted) ==> Launcher.Suitable(answers);
    hide Launcher.Passing, Launcher.Loads, Launcher.Succeeds, Launcher.Present, Launcher.Suitable;
  }

  predicate StartsLoad(s: State, step: Step) {
    step.LoadBridge? && OutcomeOf(step.answers, s.worker.loadStarted).started
  }

  // Only an attached worker gets as far as a load.
  predicate Attending(w: Worker) {
    w.place in {Authorize, Open, PublishFirst, Load} ==> w.attached != 0
  }

  // The worker knows of a load, or has detached since.
  predicate Known(w: Worker) {
    w.loadStarted || w.attached == 0
  }

  lemma StepKeepsAttending(s: State, step: Step)
    requires Enabled(s, step) && Attending(s.worker)
    ensures Attending(Next(s, step).worker)
  {
    if step.OpenMailbox? {
      OpenedAttends(s, step.opens, step.now);
    } else if step.LoadBridge? {
      LoadedAttends(s, step.answers, step.serial, step.now);
    } else if step.TakeCommand? || step.Authorized? || step.LookStale? || step.UpdateStatus? {
      EffectsAttend(s, if step.LookStale? then step.now else 0);
    } else {
      OthersAttend(s, step);
    }
    hide TakenBy, AuthorizedBy, OpenedBy, LoadedBy, LookedStale, StatusBy;
  }

  lemma OthersAttend(s: State, step: Step)
    requires Enabled(s, step) && Attending(s.worker)
    requires !step.OpenMailbox? && !step.LoadBridge? && !step.TakeCommand? && !step.Authorized? && !step.LookStale?
        && !step.UpdateStatus?
    ensures Attending(Next(s, step).worker)
  {
    if FromWindow(step) {
      WindowLeavesWorker(s, step);
      hide Next;
    } else {
      hide TakenBy, AuthorizedBy, OpenedBy, LoadedBy, LookedStale, StatusBy, Published, Applied, Begun, ShouldAttempt,
        Ready;
    }
  }

  lemma WindowLeavesWorker(s: State, step: Step)
    requires Enabled(s, step) && FromWindow(step)
    ensures Next(s, step).worker == s.worker
  {
    hide Published, Applied, Begun, Queue.Absorb;
  }

  lemma EffectsAttend(s: State, now: nat)
    requires Attending(s.worker)
    ensures Attending(TakenBy(s).worker) && Attending(LookedStale(s, now).worker) && Attending(StatusBy(s).worker)
    ensures s.worker.place == Authorize ==> Attending(AuthorizedBy(s).worker)
  {
    hide Applied, Begun;
  }

  lemma OpenedAttends(s: State, opens: bool, now: nat)
    requires Attending(s.worker) && s.worker.place == Open
    ensures Attending(OpenedBy(s, opens, now).worker)
  {
    hide MayRetry, Scheduled, MayRecover, Recovered;
  }

  lemma LoadedAttends(s: State, answers: Launcher.Answers, serial: nat, now: nat)
    ensures
      var t, o := LoadedBy(s, answers, serial, now), OutcomeOf(answers, s.worker.loadStarted);
      && Attending(t.worker) && t.worker.attached == s.worker.attached
      && t.worker.loadStarted == (s.worker.loadStarted || o.started) && (o.started ==> !s.worker.loadStarted)
  {
    Launcher.LoadsAreFresh(answers, !s.worker.loadStarted);
    hide MayRetry, Scheduled, MayRecover, Recovered, Launcher.Loads, Launcher.Succeeds, Launcher.Present,
      Launcher.Passing;
  }

  lemma StepKeepsKnown(s: State, step: Step)
    requires Enabled(s, step) && Attending(s.worker)
    ensures Known(s.worker) && !step.Attach? ==> Known(Next(s, step).worker)
    ensures StartsLoad(s, step) ==> Known(Next(s, step).worker) && !Known(s.worker)
  {
    if step.LoadBridge? {
      hide LoadedBy;
      LoadedAttends(s, step.answers, step.serial, step.now);
    } else if !Moves(step) {
      OthersMoveNothing(s, step);
    }
  }

  lemma {:induction false} AttendingAt(s: State, steps: seq<Step>, i: nat)
    requires Attending(s.worker) && Possible(s, steps) && i <= |steps|
    ensures Attending(Before(s, steps, i).worker)
    decreases i
  {
    hide Next, Enabled, Attending;
    if i == 0 {
      assert steps[..0] == [];
    } else {
      AttendingAt(s, steps, i - 1);
      BeforeNext(s, steps, i - 1);
      StepKeepsAttending(Before(s, steps, i - 1), steps[i - 1]);
    }
  }

  lemma {:induction false} StaysKnown(s: State, steps: seq<Step>, i: nat, j: nat)
    requires Attending(s.worker) && Possible(s, steps) && i <= j <= |steps| && Known(Before(s, steps, i).worker)
    requires forall k :: i <= k < j ==> !steps[k].Attach?
    ensures Known(Before(s, steps, j).worker)
    decreases j - i
  {
    hide Next, Enabled, Attending, Known;
    if i < j {
      AttendingAt(s, steps, i);
      BeforeNext(s, steps, i);
      StepKeepsKnown(Before(s, steps, i), steps[i]);
      StaysKnown(s, steps, i + 1, j);
    }
  }

  // Between two LoadLibrary threads the worker attached anew: within one attachment at most one is
  // created, over all Connects, retries, recovery waves and stale-heartbeat recoveries.
  lemma OneLoadPerAttachment(s: State, steps: seq<Step>, i: nat, j: nat)
    requires Initial(s) && Possible(s, steps) && i < j < |steps|
    requires StartsLoad(Before(s, steps, i), steps[i]) && StartsLoad(Before(s, steps, j), steps[j])
    ensures exists k :: i < k < j && steps[k].Attach?
  {
    hide Next, Enabled;
    AttendingAt(s, steps, i);
    AttendingAt(s, steps, j);
    BeforeNext(s, steps, i);
    BeforeNext(s, steps, j);
    StepKeepsKnown(Before(s, steps, i), steps[i]);
    StepKeepsKnown(Before(s, steps, j), steps[j]);
    if forall k :: i + 1 <= k < j ==> !steps[k].Attach? {
      StaysKnown(s, steps, i + 1, j);
      assert false;
    }
  }

  // Every attachment so far got a handle to its process.
  predicate HandlesOpened(steps: seq<Step>) {
    forall i :: 0 <= i < |steps| && steps[i].Attach? ==> steps[i].opens
  }

  predicate Distinct(loads: seq<nat>) {
    forall i, j :: 0 <= i < j < |loads| ==> loads[i] != loads[j]
  }

  predicate Runs(s: State, serial: nat) {
    exists p :: p in s.simulator && p.serial == serial
  }

  // Process IDs and serials name running processes, and every process was born.
  ghost predicate Named(s: State) {
    && (forall p :: p in s.simulator ==> p.serial in s.born && p.pid != 0)
    && (forall p, q :: p in s.simulator && q in s.simulator && p.pid == q.pid ==> p == q)
    && (forall p, q :: p in s.simulator && q in s.simulator && p.serial == q.serial ==> p == q)
  }

  // With a handle held, the attached process ID means the process attached to.
  ghost predicate Aimed(s: State) {
    var w := s.worker;
    && (w.loadStarted ==> w.attached != 0)
    && (w.attached != 0 ==> w.handle && w.target in s.born)
    && (w.attached != 0 ==> forall p :: p in s.simulator ==> (p.pid == w.attached <==> p.serial == w.target))
  }

  // A process that took a load is gone, unless it is the one attached to and the worker knows.
  ghost predicate Spent(s: State) {
    var w := s.worker;
    && Distinct(s.loads)
    && (forall n :: n in s.loads ==> n in s.born)
    && (forall n :: n in s.loads ==> !Runs(s, n) || (w.attached != 0 && n == w.target && w.loadStarted))
  }

  ghost predicate Held(s: State) {
    Named(s) && Aimed(s) && Spent(s)
  }

  // What Held reads.
  predicate Same(s: State, t: State) {
    && t.simulator == s.simulator && t.born == s.born && t.loads == s.loads
    && t.worker.attached == s.worker.attached && t.worker.target == s.worker.target
    && t.worker.handle == s.worker.handle && t.worker.loadStarted == s.worker.loadStarted
  }

  predicate Moves(step: Step) {
    step.SimulatorStarts? || step.SimulatorExits? || step.Attach? || step.Detach? || step.LoadBridge?
  }

  lemma EffectsMoveNothing(s: State, opens: bool, now: nat)
    ensures Same(s, TakenBy(s)) && Same(s, AuthorizedBy(s)) && Same(s, OpenedBy(s, opens, now))
  {
    hide Applied, Begun, MayRetry, MayRecover, Scheduled, Recovered;
  }

  lemma LooksMoveNothing(s: State, now: nat)
    ensures Same(s, LookedStale(s, now)) && Same(s, StatusBy(s))
  {
  }

  lemma OthersMoveNothing(s: State, step: Step)
    requires Enabled(s, step) && !Moves(step)
    ensures Same(s, Next(s, step))
  {
    hide TakenBy, AuthorizedBy, OpenedBy, LookedStale, StatusBy, Published, Applied, Begun, ShouldAttempt, Ready;
    match step
    case OpenMailbox(opens, now) => EffectsMoveNothing(s, opens, now);
    case TakeCommand => EffectsMoveNothing(s, false, 0);
    case Authorized => EffectsMoveNothing(s, false, 0);
    case LookStale(now) => LooksMoveNothing(s, now);
    case UpdateStatus => LooksMoveNothing(s, 0);
    case _ =>
  }

  lemma SameKeepsHeld(s: State, t: State)
    requires Held(s) && Same(s, t)
    ensures Held(t)
  {
    assert forall n :: Runs(s, n) == Runs(t, n);
  }

  lemma StartKeepsHeld(s: State, p: Process)
    requires Held(s) && Enabled(s, SimulatorStarts(p))
    ensures Held(Next(s, SimulatorStarts(p)))
  {
    var t := Next(s, SimulatorStarts(p));
    forall n | n in s.loads && Runs(t, n) ensures Runs(s, n) {
    }
  }

  lemma ExitKeepsHeld(s: State, p: Process)
    requires Held(s) && Enabled(s, SimulatorExits(p))
    ensures Held(Next(s, SimulatorExits(p)))
  {
    var t := Next(s, SimulatorExits(p));
    forall n | Runs(t, n) ensures Runs(s, n) {
    }
  }

  lemma AttachKeepsHeld(s: State, p: Process)
    requires Held(s) && Enabled(s, Attach(p, true))
    ensures Held(Next(s, Attach(p, true)))
  {
    var t := Next(s, Attach(p, true));
    assert forall n :: Runs(s, n) == Runs(t, n);
  }

  // Detaching means the held handle showed the exit: the process loaded into is gone.
  lemma DetachKeepsHeld(s: State)
    requires Held(s) && Enabled(s, Detach)
    ensures Held(Next(s, Detach))
  {
    var t := Next(s, Detach);
    assert forall n :: Runs(s, n) == Runs(t, n);
    var gone := Process(s.worker.attached, s.worker.target);
    assert forall p :: p in s.simulator && p.serial == s.worker.target ==> p == gone;
  }

  lemma LoadKeepsHeld(s: State, answers: Launcher.Answers, serial: nat, now: nat)
    requires Held(s) && Enabled(s, LoadBridge(answers, serial, now))
    ensures Held(Next(s, LoadBridge(answers, serial, now)))
  {
    var t := LoadedBy(s, answers, serial, now);
    assert forall n :: Runs(s, n) == Runs(t, n);
    Launcher.LoadsAreFresh(answers, !s.worker.loadStarted);
    hide Launcher.Loads, Launcher.Succeeds, Launcher.Present, Launcher.Passing, Launcher.Suitable;
    if OutcomeOf(answers, s.worker.loadStarted).started {
      assert Process(s.worker.attached, serial) in s.simulator;
      assert Runs(s, serial);
      assert serial == s.worker.target && s.worker.attached != 0;
      assert serial !in s.loads;
    }
  }

  lemma StepKeepsHeld(s: State, step: Step)
    requires Held(s) && Enabled(s, step) && (step.Attach? ==> step.opens)
    ensures Held(Next(s, step))
  {
    hide Held, Next, Enabled;
    match step
    case SimulatorStarts(p) => StartKeepsHeld(s, p);
    case SimulatorExits(p) => ExitKeepsHeld(s, p);
    case Attach(p, opens) => AttachKeepsHeld(s, p);
    case Detach => DetachKeepsHeld(s);
    case LoadBridge(answers, serial, now) => LoadKeepsHeld(s, answers, serial, now);
    case _ =>
      OthersMoveNothing(s, step);
      SameKeepsHeld(s, Next(s, step));
  }

  // With a handle to every attached process, no simulator process gets a second LoadLibrary
  // thread, whatever detaches and attaches in between.
  lemma {:induction false} OneLoadPerProcess(s: State, steps: seq<Step>)
    requires Held(s) && Possible(s, steps) && HandlesOpened(steps)
    ensures Held(Run(s, steps))
    decreases |steps|
  {
    if steps != [] {
      StepKeepsHeld(s, steps[0]);
      OneLoadPerProcess(Next(s, steps[0]), steps[1..]);
    }
  }

  lemma LoadsDistinct(s: State, steps: seq<Step>)
    requires Initial(s) && Possible(s, steps) && HandlesOpened(steps)
    ensures Distinct(Run(s, steps).loads)
  {
    OneLoadPerProcess(s, steps);
  }
}
