/** The order of the worker's steps, and the recovery of a bridge whose beat went stale. */
module ConnectionOrder {
  import Queue = ConnectQueue
  import opened LaunchRetries
  import opened Connection
  import opened ConnectionSafety
  import opened ConnectionFields
  import Launcher

  // ----- Which step of the worker follows which -----

  predicate FromEnvironment(step: Step) {
    step.SimulatorStarts? || step.SimulatorExits? || step.BridgeAppears?
  }

  predicate OfWorker(step: Step) {
    !FromWindow(step) && !FromEnvironment(step)
  }

  predicate Scans(step: Step) {
    step.KeepAttached? || step.FindNothing? || step.Detach? || step.Attach?
  }

  predicate Polls(step: Step) {
    step.LookConnected? || step.EndRound?
  }

  // A simulator is attached, nobody disconnected, this round's command or an attempt that is due asks for
  // a connection, and the retry policy has waited long enough.
  predicate Connects(t: State, autoOn: bool, now: nat) {
    && t.worker.attached != 0 && !t.disconnected && t.worker.command != Queue.Disconnect
    && (|| t.worker.command == Queue.Connect || t.worker.command == Queue.Reset
        || (!t.worker.attempted && (autoOn || t.worker.manualArmed)))
    && now >= t.worker.retry.next
  }

  // A healthy bridge that was heard of, but not for more than fifteen seconds.
  predicate Stale(t: State, now: nat) {
    && t.worker.attached != 0 && t.worker.bridgeOk && t.worker.attempted && t.worker.mailboxOpen && !t.disconnected
    && t.heartbeat != 0 && now > t.heartbeat + 15000
  }

  // What the worker may do next once it did `step` in state t.
  predicate Follows(t: State, step: Step, next: Step) {
    match step
    case TakeCommand => if t.pending == Queue.Disconnect then next.AfterDisconnect? else Scans(next)
    case AfterDisconnect(_, _) => next.TakeCommand?
    case Detach => next.FindNothing? || next.Attach?
    case KeepAttached => next.MakeDecision?
    case FindNothing => next.MakeDecision?
    case Attach(_, _) => next.MakeDecision?
    case MakeDecision(autoOn, now) => if Connects(t, autoOn, now) then next.Authorized? else next.LookStale?
    case Authorized =>
      if t.disconnected || (!t.requested && t.current.profileRequest == MOST) then next.TakeCommand?
        else next.OpenMailbox?
    case OpenMailbox(opens, _) => if opens || t.worker.mailboxOpen then next.WriteFirst? else next.LookStale?
    case WriteFirst(_, _) => next.LoadBridge?
    case LoadBridge(_, _, _) => next.LookStale?
    case LookStale(now) => if Stale(t, now) then next.SetStale? else next.Exchange?
    case SetStale => next.Exchange?
    case Exchange(written, _, _, _) => if written then next.UpdateStatus? else Polls(next)
    case UpdateStatus => Polls(next)
    case LookConnected => if t.disconnected then Polls(next) else next.PollOnce?
    case PollOnce(_, _) => Polls(next)
    case EndRound => next.TakeCommand?
    case _ => true
  }

  // ----- One step -----

  lemma OthersKeepWorker(s: State, step: Step)
    requires Enabled(s, step) && !OfWorker(step)
    ensures Next(s, step).worker == s.worker
  {
    hide LoadedBy, OutcomeOf, OpenedBy, TakenBy, Detached, AttachedTo, AuthorizedBy, LookedStale, StatusBy, Published,
      Applied, Begun, ShouldAttempt, Ready, Queue.Absorb;
  }

  predicate InRound(step: Step) {
    step.MakeDecision? || step.Authorized? || step.OpenMailbox? || step.WriteFirst? || step.LoadBridge?
  }

  lemma RoundLeads(t: State, step: Step, u: State, next: Step)
    requires Enabled(t, step) && InRound(step) && u.worker == Next(t, step).worker && Enabled(u, next) && OfWorker(next)
    ensures Follows(t, step, next)
  {
    PlaceAfterRound(t, step);
    hide Next;
    PlaceAllows(u, next);
    hide Enabled;
  }

  // What place a step needs.
  predicate Fits(place: Place, next: Step) {
    match place
    case Top => next.TakeCommand?
    case Disconnecting => next.AfterDisconnect?
    case Scan => Scans(next)
    case Decide => next.MakeDecision?
    case Authorize => next.Authorized?
    case Open => next.OpenMailbox?
    case PublishFirst => next.WriteFirst?
    case Load => next.LoadBridge?
    case CheckStale => next.LookStale?
    case ConfirmStale => next.SetStale?
    case Publish => next.Exchange?
    case ReadStatus => next.UpdateStatus?
    case Poll => Polls(next)
    case PollWrite => next.PollOnce?
  }

  lemma PlaceAllows(u: State, next: Step)
    requires Enabled(u, next) && OfWorker(next)
    ensures Fits(u.worker.place, next)
    ensures u.worker.attached == 0 ==> !next.KeepAttached? && !next.Detach?
  {
  }

  lemma PlaceAfterRound(t: State, step: Step)
    requires Enabled(t, step) && InRound(step)
    ensures
      var place := Next(t, step).worker.place;
      match step
      case MakeDecision(autoOn, now) => place == if Connects(t, autoOn, now) then Authorize else CheckStale
      case Authorized =>
        place == if t.disconnected || (!t.requested && t.current.profileRequest == MOST) then Top else Open
      case OpenMailbox(opens, _) => place == if opens || t.worker.mailboxOpen then PublishFirst else CheckStale
      case WriteFirst(_, _) => place == Load
      case _ => place == CheckStale
  {
    hide OutcomeOf, MayRetry, MayRecover, Scheduled, Recovered, Begun, Applied, Launcher.Present;
  }

  lemma PlaceAfter(t: State, step: Step)
    requires Enabled(t, step) && OfWorker(step) && !InRound(step)
    ensures
      var place := Next(t, step).worker.place;
      match step
      case TakeCommand => place == if t.pending == Queue.Disconnect then Disconnecting else Scan
      case AfterDisconnect(_, _) => place == Top
      case Detach => place == Scan && Next(t, step).worker.attached == 0
      case LookStale(now) => place == if Stale(t, now) then ConfirmStale else Publish
      case SetStale => place == Publish
      case Exchange(written, _, _, _) => place == if written then ReadStatus else Poll
      case LookConnected => place == if t.disconnected then Poll else PollWrite
      case UpdateStatus => place == Poll
      case PollOnce(_, _) => place == Poll
      case EndRound => place == Top
      case _ => place == Decide
  {
    hide LoadedBy, OutcomeOf, OpenedBy, AuthorizedBy, Published, Applied, Begun, ShouldAttempt, Ready, Queue.Absorb;
  }

  lemma Leads(t: State, step: Step, u: State, next: Step)
    requires Enabled(t, step) && OfWorker(step) && u.worker == Next(t, step).worker
    requires Enabled(u, next) && OfWorker(next)
    ensures Follows(t, step, next)
  {
    if InRound(step) {
      RoundLeads(t, step, u, next);
    } else {
      PlaceAfter(t, step);
      hide Next;
      PlaceAllows(u, next);
      hide Enabled;
    }
  }

  // ----- Over any run -----

  // Steps i and j are the worker's, and none between them is.
  ghost predicate Consecutive(steps: seq<Step>, i: nat, j: nat) {
    && i < j < |steps| && OfWorker(steps[i]) && OfWorker(steps[j])
    && forall k :: i < k < j ==> !OfWorker(steps[k])
  }

  lemma {:induction false} WorkerWaits(s: State, steps: seq<Step>, i: nat, j: nat)
    requires Possible(s, steps) && i <= j <= |steps| && forall k :: i <= k < j ==> !OfWorker(steps[k])
    ensures Before(s, steps, j).worker == Before(s, steps, i).worker
    decreases j - i
  {
    hide Next, Enabled, Before;
    if i < j {
      WorkerWaits(s, steps, i, j - 1);
      BeforeNext(s, steps, j - 1);
      OthersKeepWorker(Before(s, steps, j - 1), steps[j - 1]);
    }
  }

  // The worker goes through its rounds in the source's order, whatever comes in between.
  lemma WorkerOrder(s: State, steps: seq<Step>, i: nat, j: nat)
    requires Possible(s, steps) && Consecutive(steps, i, j)
    ensures Follows(Before(s, steps, i), steps[i], steps[j])
  {
    hide Next, Enabled, Before, Follows, OfWorker;
    BeforeNext(s, steps, i);
    BeforeNext(s, steps, j);
    WorkerWaits(s, steps, i + 1, j);
    Leads(Before(s, steps, i), steps[i], Before(s, steps, j), steps[j]);
  }

  // What the scan of a round may do: with a handle to the attached process it is kept exactly as long as it
  // runs; without one it may be kept or missed; an attachment with a handle is to a running process.
  lemma ScanExactly(t: State, p: Process, opens: bool)
    requires t.worker.place == Scan
    ensures
      var w := t.worker;
      var runs := Process(w.attached, w.target) in t.simulator;
      && (Enabled(t, KeepAttached) <==> w.attached != 0 && (runs || !w.handle))
      && (Enabled(t, Detach) <==> w.attached != 0 && !(runs && w.handle))
      && (Enabled(t, FindNothing) <==> w.attached == 0)
      && (Enabled(t, Attach(p, opens)) <==> w.attached == 0 && p.pid != 0 && (!opens || p in t.simulator))
  {
  }

  // A run begins with the connection off, nothing on its way, nothing attached, and every retry left.
  lemma StartsFresh(s: State)
    requires Initial(s)
    ensures
      var w := s.worker;
      && !s.requested && !s.current.enabled && s.heartbeat == 0 && s.pending == Queue.NoCommand
      && w.place == Top && w.attached == 0 && !w.handle && !w.attempted && !w.manualArmed && !w.bridgeOk
      && !w.mailboxOpen && !w.loadStarted && w.ignoreThrough == 0 && w.retry == Retry(0, 0, 0)
  {
  }

  // The worker is never stuck, whatever it is answered; it writes to its mailbox where that is open. First
  // up to the load of a round, then from there on.
  lemma NeverStuck(t: State, b: bool, now: nat, serial: nat, answers: Launcher.Answers)
    ensures
      var w := t.worker;
      match w.place
      case Top => Enabled(t, TakeCommand)
      case Disconnecting => Enabled(t, AfterDisconnect(b && w.mailboxOpen, now))
      case Scan => w.attached != 0 ==> Enabled(t, KeepAttached) || Enabled(t, Detach)
      case Decide => Enabled(t, MakeDecision(b, now))
      case Authorize => Enabled(t, Authorized)
      case Open => Enabled(t, OpenMailbox(b, now))
      case PublishFirst => Enabled(t, WriteFirst(b && w.mailboxOpen, now))
      case Load =>
        && (!answers.opens ==> Enabled(t, LoadBridge(answers, serial, now)))
        && (Process(w.attached, serial) in t.simulator && (answers.bridgePresent <==> serial in t.bridged) ==>
              Enabled(t, LoadBridge(answers, serial, now)))
      case _ => true
  {
    hide Launcher.Suitable;
    if t.worker.place == Load {
      LoadNeverStuck(t, now, serial, answers);
    }
  }

  lemma NeverStuckLater(t: State, b: bool, now: nat, heartbeat: nat, serial: nat)
    ensures
      var w := t.worker;
      match w.place
      case CheckStale => Enabled(t, LookStale(now))
      case ConfirmStale => Enabled(t, SetStale)
      case Publish => Enabled(t, Exchange(b && w.mailboxOpen, now, heartbeat, serial))
      case ReadStatus => Enabled(t, UpdateStatus)
      case Poll => Enabled(t, LookConnected) && Enabled(t, EndRound)
      case PollWrite => Enabled(t, PollOnce(b && w.mailboxOpen, now))
      case _ => true
  {
  }

  lemma LoadNeverStuck(t: State, now: nat, serial: nat, answers: Launcher.Answers)
    requires t.worker.place == Load
    ensures !answers.opens ==> Enabled(t, LoadBridge(answers, serial, now))
    ensures Process(t.worker.attached, serial) in t.simulator && (answers.bridgePresent <==> serial in t.bridged) ==>
      Enabled(t, LoadBridge(answers, serial, now))
  {
  }

  // Nor is the window: between two commands it may do anything, and it queues the one before it.
  lemma WindowNeverStuck(t: State, command: Command, draft: Settings, id: nat, written: bool)
    ensures t.window != Queue.NoCommand ==> Enabled(t, QueueCommand)
    ensures t.window == Queue.NoCommand ==>
      && Enabled(t, PressDisconnect(written)) && Enabled(t, PublishDraft(draft)) && Enabled(t, RequestSnapshot(id))
      && (command == Queue.Connect || command == Queue.Reset ==> Enabled(t, Press(command)))
  {
  }

  // The worker's last step before step j, if there was one.
  lemma {:induction false} LastOfWorker(steps: seq<Step>, j: nat) returns (i: nat)
    requires j <= |steps|
    ensures i <= j && (i < j ==> OfWorker(steps[i])) && forall k :: i < k < j ==> !OfWorker(steps[k])
    ensures i == j ==> forall k :: 0 <= k < j ==> !OfWorker(steps[k])
  {
    if j == 0 {
      return 0;
    }
    if OfWorker(steps[j - 1]) {
      return j - 1;
    }
    i := LastOfWorker(steps, j - 1);
    if i == j - 1 {
      i := j;
    }
  }

  // ----- Recovery of a stale bridge -----

  // What a confirmed recovery leaves: no beat, no attempt, and the beat h is to be ignored.
  predicate ToBeRestarted(t: State, h: nat) {
    && t.heartbeat == 0 && !t.worker.bridgeOk && !t.worker.attempted && t.worker.manualArmed
    && t.worker.ignoreThrough == h
  }

  lemma ConfirmedLeaves(t: State)
    requires Enabled(t, SetStale) && !t.disconnected
    ensures ToBeRestarted(Next(t, SetStale), t.worker.sample)
  {
  }

  lemma LookRemembers(t: State, now: nat)
    requires Enabled(t, LookStale(now)) && Stale(t, now)
    ensures Next(t, LookStale(now)).worker.sample == t.heartbeat
  {
  }

  // Whoever looks at a stale beat comes to the recovery next, and unless it is disconnected then, the
  // bridge is to be started again by a newer beat.
  lemma StaleIsRecovered(s: State, steps: seq<Step>, i: nat, j: nat)
    requires Possible(s, steps) && Consecutive(steps, i, j)
    requires steps[i].LookStale? && Stale(Before(s, steps, i), steps[i].now)
    ensures steps[j].SetStale?
    ensures !Before(s, steps, j).disconnected ==>
      ToBeRestarted(Before(s, steps, j + 1), Before(s, steps, i).heartbeat)
  {
    WorkerOrder(s, steps, i, j);
    BeforeNext(s, steps, i);
    BeforeNext(s, steps, j);
    WorkerWaits(s, steps, i + 1, j);
    hide Next, Enabled, Before, Stale, ToBeRestarted, OfWorker;
    LookRemembers(Before(s, steps, i), steps[i].now);
    if !Before(s, steps, j).disconnected {
      ConfirmedLeaves(Before(s, steps, j));
    }
  }

  // And nobody else comes to it: the worker's step before it looked at a stale beat.
  lemma RecoveredIsStale(s: State, steps: seq<Step>, j: nat) returns (i: nat)
    requires Initial(s) && Possible(s, steps) && j < |steps| && steps[j].SetStale?
    ensures Consecutive(steps, i, j) && steps[i].LookStale? && Stale(Before(s, steps, i), steps[i].now)
    ensures !Before(s, steps, j).disconnected ==>
      ToBeRestarted(Before(s, steps, j + 1), Before(s, steps, i).heartbeat)
  {
    i := LastOfWorker(steps, j);
    BeforeNext(s, steps, j);
    if i == j {
      WorkerWaits(s, steps, 0, j);
      AtStart(s, steps);
      NotAtStart(s, Before(s, steps, j));
    } else {
      hide Next, Enabled, Before, Stale, ToBeRestarted, OfWorker;
      assert OfWorker(steps[j]) by { SetStaleIsWorkers(steps[j]); }
      WorkerOrder(s, steps, i, j);
      OnlyLooks(Before(s, steps, i), steps[i], steps[j]);
      StaleIsRecovered(s, steps, i, j);
    }
  }

  lemma SetStaleIsWorkers(step: Step)
    requires step.SetStale?
    ensures OfWorker(step)
  {
  }

  lemma NotAtStart(s: State, t: State)
    requires Initial(s) && t.worker == s.worker && Enabled(t, SetStale)
    ensures false
  {
  }

  lemma OnlyLooks(t: State, step: Step, next: Step)
    requires OfWorker(step) && Follows(t, step, next) && next.SetStale?
    ensures step.LookStale? && Stale(t, step.now)
  {
  }
}
