/** What every field of the connection remembers: over any run it is what the last step to write it made it.
    The steps and the values are written out here step by step, field by field. */
module ConnectionFields {
  import Queue = ConnectQueue
  import opened LaunchRetries
  import opened Connection
  import opened ConnectionSafety
  import Launcher

  // ----- The last step to write -----

  ghost predicate LastWrites(s: State, steps: seq<Step>, k: nat, i: nat, writes: (State, Step) -> bool)
    requires Possible(s, steps) && k <= |steps|
  {
    && i < k && writes(Before(s, steps, i), steps[i])
    && forall j :: i < j < k ==> !writes(Before(s, steps, j), steps[j])
  }

  ghost predicate NoneWrites(s: State, steps: seq<Step>, k: nat, writes: (State, Step) -> bool)
    requires Possible(s, steps) && k <= |steps|
  {
    forall j :: 0 <= j < k ==> !writes(Before(s, steps, j), steps[j])
  }

  // After k steps the field is what the last of them to write it made it, or what it was at the start.
  ghost predicate Remembers<T(!new)>(s: State, steps: seq<Step>, k: nat, get: State -> T, writes: (State, Step) -> bool,
                                     value: (State, Step) -> T)
    requires Possible(s, steps) && k <= |steps|
  {
    || (NoneWrites(s, steps, k, writes) && get(Before(s, steps, k)) == get(s))
    || (exists i: nat ::
          LastWrites(s, steps, k, i, writes) && get(Before(s, steps, k)) == value(Before(s, steps, i), steps[i]))
  }

  ghost predicate WritesJust<T(!new)>(get: State -> T, writes: (State, Step) -> bool, value: (State, Step) -> T) {
    forall s, step :: Enabled(s, step) ==>
      get(Next(s, step)) == if writes(s, step) then value(s, step) else get(s)
  }

  lemma {:induction false} LastWriteTells<T(!new)>(s: State, steps: seq<Step>, k: nat, get: State -> T,
                                                   writes: (State, Step) -> bool, value: (State, Step) -> T)
    requires Possible(s, steps) && k <= |steps| && WritesJust(get, writes, value)
    ensures Remembers(s, steps, k, get, writes, value)
    decreases k
  {
    hide Next, Enabled, Before;
    if k == 0 {
      assert Before(s, steps, 0) == s by { AtStart(s, steps); }
    } else {
      LastWriteTells(s, steps, k - 1, get, writes, value);
      BeforeNext(s, steps, k - 1);
      var t, step := Before(s, steps, k - 1), steps[k - 1];
      assert get(Before(s, steps, k)) == if writes(t, step) then value(t, step) else get(t);
      if writes(t, step) {
        assert LastWrites(s, steps, k, k - 1, writes);
      } else if i: nat :| LastWrites(s, steps, k - 1, i, writes) && get(t) == value(Before(s, steps, i), steps[i]) {
        assert LastWrites(s, steps, k, i, writes);
      }
    }
  }

  lemma AtStart(s: State, steps: seq<Step>)
    requires Possible(s, steps)
    ensures Before(s, steps, 0) == s
  {
    assert steps[..0] == [];
  }

  // ----- What steps do, in the source's words -----

  const MOST: nat := 0xFFFF_FFFF_FFFF_FFFF

  // A Connect or Reset of the user, while a profile request is left.
  predicate Presses(s: State, step: Step) {
    step.Press? && s.current.profileRequest < MOST
  }

  // The worker begins or goes on with the connection.
  predicate Authorizes(s: State, step: Step) {
    step.Authorized? && !s.disconnected && (s.requested || s.current.profileRequest < MOST)
  }

  // The worker takes a Connect or a Reset.
  predicate TakesConnect(s: State, step: Step) {
    step.TakeCommand? && (s.pending == Queue.Connect || s.pending == Queue.Reset)
  }

  // A stale beat is confirmed: the bridge is to be started again.
  predicate Recovers(s: State, step: Step) {
    step.SetStale? && !s.disconnected
  }

  predicate StartsOver(s: State, step: Step) {
    TakesConnect(s, step) || step.AfterDisconnect? || step.Detach? || step.Attach? || Recovers(s, step)
  }

  predicate OpenFails(s: State, step: Step) {
    step.OpenMailbox? && !step.opens && !s.worker.mailboxOpen
  }

  // A retry of the wave, a second later, or a new wave, fifteen seconds later.
  predicate RetriesInWave(r: Retry, now: nat) {
    r.retries < 59 && now <= MOST - 1000
  }

  predicate BeginsWave(r: Retry, now: nat) {
    r.recoveries < 20 && now <= MOST - 15000
  }

  predicate Offers(s: State, step: Step) {
    OpenFails(s, step) || (step.LoadBridge? && Launcher.Passing(step.answers, !s.worker.loadStarted))
  }

  predicate Retries(s: State, step: Step) {
    && Offers(s, step) && (step.OpenMailbox? || step.LoadBridge?)
    && (RetriesInWave(s.worker.retry, step.now) || BeginsWave(s.worker.retry, step.now))
  }

  predicate Loaded(s: State, step: Step) {
    step.LoadBridge? && Launcher.Succeeds(step.answers, !s.worker.loadStarted)
  }

  // A beat newer than any that went stale.
  predicate Confirmed(s: State, step: Step) {
    step.UpdateStatus? && !s.disconnected && s.worker.sample != 0 && s.worker.sample > s.worker.ignoreThrough
  }

  // ----- Disconnected: from a Disconnect to the next Connect -----

  predicate DisconnectedOf(s: State) {
    s.disconnected
  }

  predicate WritesDisconnected(s: State, step: Step) {
    Presses(s, step) || step.PressDisconnect?
  }

  predicate NewDisconnected(s: State, step: Step) {
    step.PressDisconnect?
  }

  // ----- Requested: from a Connect or an authorization to the next Disconnect or the end of the simulator -----

  predicate RequestedOf(s: State) {
    s.requested
  }

  predicate WritesRequested(s: State, step: Step) {
    Presses(s, step) || step.PressDisconnect? || step.Detach? || Authorizes(s, step)
  }

  predicate NewRequested(s: State, step: Step) {
    step.Press? || step.Authorized?
  }

  // ----- Attempted: from an authorization until something starts over or a retry is granted -----

  predicate AttemptedOf(s: State) {
    s.worker.attempted
  }

  predicate WritesAttempted(s: State, step: Step) {
    StartsOver(s, step) || (step.Authorized? && !s.disconnected) || OpenFails(s, step) || step.LoadBridge?
  }

  predicate NewAttempted(s: State, step: Step) {
    !StartsOver(s, step) && (step.Authorized? || !Retries(s, step))
  }

  // ----- ManualArmed: from a Connect, or a stale beat, until the attempt is over -----

  predicate ManualArmedOf(s: State) {
    s.worker.manualArmed
  }

  predicate WritesManualArmed(s: State, step: Step) {
    StartsOver(s, step) || Loaded(s, step) || ((OpenFails(s, step) || step.LoadBridge?) && !Retries(s, step))
  }

  predicate NewManualArmed(s: State, step: Step) {
    TakesConnect(s, step) || Recovers(s, step)
    || (step.Attach? && (s.worker.manualArmed || s.worker.command == Queue.Connect || s.worker.command == Queue.Reset))
  }

  // ----- BridgeOk: from a load that succeeds, or a new beat, until something starts over -----

  predicate BridgeOkOf(s: State) {
    s.worker.bridgeOk
  }

  predicate WritesBridgeOk(s: State, step: Step) {
    StartsOver(s, step) || step.LoadBridge? || Confirmed(s, step)
  }

  predicate NewBridgeOk(s: State, step: Step) {
    Confirmed(s, step) || (Loaded(s, step) && s.worker.ignoreThrough == 0)
  }

  // ----- IgnoreThrough: the beat that went stale, until a newer one -----

  function IgnoreThroughOf(s: State): nat {
    s.worker.ignoreThrough
  }

  predicate WritesIgnoreThrough(s: State, step: Step) {
    StartsOver(s, step) || Confirmed(s, step)
  }

  function NewIgnoreThrough(s: State, step: Step): nat {
    if Recovers(s, step) then s.worker.sample else 0
  }

  // ----- Heartbeat: the last beat read, where it is not to be ignored -----

  function HeartbeatOf(s: State): nat {
    s.heartbeat
  }

  predicate WritesHeartbeat(s: State, step: Step) {
    step.PressDisconnect? || step.Detach? || Recovers(s, step) || (step.UpdateStatus? && !s.disconnected)
  }

  function NewHeartbeat(s: State, step: Step): nat {
    if Confirmed(s, step) then s.worker.sample else 0
  }

  // ----- StatusSerial: the snapshot last told -----

  function StatusSerialOf(s: State): nat {
    s.statusSerial
  }

  predicate WritesStatusSerial(s: State, step: Step) {
    step.PressDisconnect? || step.Detach? || (step.UpdateStatus? && !s.disconnected)
  }

  function NewStatusSerial(s: State, step: Step): nat {
    if step.UpdateStatus? then s.worker.sampleSerial else 0
  }

  // ----- LoadStarted: from a LoadLibrary thread to the next attachment -----

  predicate LoadStartedOf(s: State) {
    s.worker.loadStarted
  }

  predicate WritesLoadStarted(s: State, step: Step) {
    step.Detach? || step.Attach? || (step.LoadBridge? && Launcher.Loads(step.answers, !s.worker.loadStarted))
  }

  predicate NewLoadStarted(s: State, step: Step) {
    step.LoadBridge?
  }

  // ----- MailboxOpen: from its opening until something closes it -----

  predicate MailboxOpenOf(s: State) {
    s.worker.mailboxOpen
  }

  predicate WritesMailboxOpen(s: State, step: Step) {
    TakesConnect(s, step) || step.AfterDisconnect? || step.Detach? || (step.OpenMailbox? && step.opens)
  }

  predicate NewMailboxOpen(s: State, step: Step) {
    step.OpenMailbox?
  }

  // ----- Attached: the process attached to, and whether a handle to it is held -----

  function AttachedOf(s: State): (nat, nat, bool) {
    (s.worker.attached, s.worker.target, s.worker.handle)
  }

  predicate WritesAttached(s: State, step: Step) {
    step.Detach? || step.Attach?
  }

  function NewAttached(s: State, step: Step): (nat, nat, bool) {
    if step.Attach? then (step.process.pid, step.process.serial, step.opens) else (0, 0, false)
  }

  // ----- CommandTaken: the command of this round -----

  function CommandTakenOf(s: State): Command {
    s.worker.command
  }

  predicate WritesCommandTaken(s: State, step: Step) {
    step.TakeCommand?
  }

  function NewCommandTaken(s: State, step: Step): Command {
    s.pending
  }

  // ----- RetryPolicy: the retries and waves so far, and when the next may come -----

  function RetryPolicyOf(s: State): Retry {
    s.worker.retry
  }

  predicate WritesRetryPolicy(s: State, step: Step) {
    StartsOver(s, step) || Retries(s, step)
  }

  function NewRetryPolicy(s: State, step: Step): Retry {
    if StartsOver(s, step) || !Retries(s, step) then Retry(0, 0, 0)
    else if RetriesInWave(s.worker.retry, step.now)
      then Retry(s.worker.retry.retries + 1, s.worker.retry.recoveries, step.now + 1000)
    else Retry(0, s.worker.retry.recoveries + 1, step.now + 15000)
  }

  // ----- ProfileRequest: one more with every connection begun, and never fewer -----

  function ProfileRequestOf(s: State): nat {
    s.current.profileRequest
  }

  predicate WritesProfileRequest(s: State, step: Step) {
    Presses(s, step) || (Authorizes(s, step) && !s.requested)
    || (step.PublishDraft? && step.draft.profileRequest > s.current.profileRequest)
  }

  function NewProfileRequest(s: State, step: Step): nat {
    if step.PublishDraft? then step.draft.profileRequest else s.current.profileRequest + 1
  }

  // ----- Snapshot: the newest snapshot asked for -----

  function SnapshotOf(s: State): (nat, nat) {
    (s.current.snapshotRequest, s.current.snapshotId)
  }

  predicate WritesSnapshot(s: State, step: Step) {
    step.RequestSnapshot?
    || (step.PublishDraft? && step.draft.snapshotRequest > s.current.snapshotRequest)
  }

  function NewSnapshot(s: State, step: Step): (nat, nat) {
    if step.PublishDraft? then (step.draft.snapshotRequest, step.draft.snapshotId)
    else if !step.RequestSnapshot? then (0, 0)
    else if s.statusSerial > s.current.snapshotRequest then (s.statusSerial + 1, step.id)
    else (s.current.snapshotRequest + 1, step.id)
  }

  // ----- Rest: all other settings: those of the last draft published -----

  function RestOf(s: State): int {
    s.current.rest
  }

  predicate WritesRest(s: State, step: Step) {
    step.PublishDraft?
  }

  function NewRest(s: State, step: Step): int {
    if step.PublishDraft? then step.draft.rest else 0
  }

  // ----- Window: the command on its way to the queue -----

  function WindowOf(s: State): Command {
    s.window
  }

  predicate WritesWindow(s: State, step: Step) {
    Presses(s, step) || step.PressDisconnect? || step.QueueCommand?
  }

  function NewWindow(s: State, step: Step): Command {
    if step.Press? then step.command else if step.PressDisconnect? then Queue.Disconnect else Queue.NoCommand
  }

  // ----- Every step does that to every field -----

  ghost predicate StepTells(s: State, step: Step)
    requires Enabled(s, step)
  {
    var t := Next(s, step);
    && DisconnectedOf(t) == (if WritesDisconnected(s, step) then NewDisconnected(s, step) else DisconnectedOf(s))
    && RequestedOf(t) == (if WritesRequested(s, step) then NewRequested(s, step) else RequestedOf(s))
    && AttemptedOf(t) == (if WritesAttempted(s, step) then NewAttempted(s, step) else AttemptedOf(s))
    && ManualArmedOf(t) == (if WritesManualArmed(s, step) then NewManualArmed(s, step) else ManualArmedOf(s))
    && BridgeOkOf(t) == (if WritesBridgeOk(s, step) then NewBridgeOk(s, step) else BridgeOkOf(s))
    && IgnoreThroughOf(t) == (if WritesIgnoreThrough(s, step) then NewIgnoreThrough(s, step) else IgnoreThroughOf(s))
    && HeartbeatOf(t) == (if WritesHeartbeat(s, step) then NewHeartbeat(s, step) else HeartbeatOf(s))
    && StatusSerialOf(t) == (if WritesStatusSerial(s, step) then NewStatusSerial(s, step) else StatusSerialOf(s))
    && LoadStartedOf(t) == (if WritesLoadStarted(s, step) then NewLoadStarted(s, step) else LoadStartedOf(s))
    && MailboxOpenOf(t) == (if WritesMailboxOpen(s, step) then NewMailboxOpen(s, step) else MailboxOpenOf(s))
    && AttachedOf(t) == (if WritesAttached(s, step) then NewAttached(s, step) else AttachedOf(s))
    && CommandTakenOf(t) == (if WritesCommandTaken(s, step) then NewCommandTaken(s, step) else CommandTakenOf(s))
    && RetryPolicyOf(t) == (if WritesRetryPolicy(s, step) then NewRetryPolicy(s, step) else RetryPolicyOf(s))
    && ProfileRequestOf(t) == (if WritesProfileRequest(s, step) then NewProfileRequest(s, step)
      else ProfileRequestOf(s))
    && SnapshotOf(t) == (if WritesSnapshot(s, step) then NewSnapshot(s, step) else SnapshotOf(s))
    && RestOf(t) == (if WritesRest(s, step) then NewRest(s, step) else RestOf(s))
    && WindowOf(t) == (if WritesWindow(s, step) then NewWindow(s, step) else WindowOf(s))
  }

  // The fields that a call to load the bridge writes.
  lemma LoadWrites(s: State, answers: Launcher.Answers, serial: nat, now: nat)
    requires Enabled(s, LoadBridge(answers, serial, now))
    ensures
      var step := LoadBridge(answers, serial, now);
      var t := Next(s, step);
      && AttemptedOf(t) == NewAttempted(s, step) && BridgeOkOf(t) == NewBridgeOk(s, step)
      && ManualArmedOf(t) == (if WritesManualArmed(s, step) then NewManualArmed(s, step) else ManualArmedOf(s))
      && LoadStartedOf(t) == (if WritesLoadStarted(s, step) then NewLoadStarted(s, step) else LoadStartedOf(s))
      && RetryPolicyOf(t) == (if WritesRetryPolicy(s, step) then NewRetryPolicy(s, step) else RetryPolicyOf(s))
  {
    if Launcher.Passing(answers, !s.worker.loadStarted) {
      Launcher.RetryLeavesNothing(answers, !s.worker.loadStarted);
    }
    hide Launcher.Loads, Launcher.Succeeds, Launcher.Passing, Launcher.Present, Launcher.Suitable;
  }

  lemma LoadTells(s: State, answers: Launcher.Answers, serial: nat, now: nat)
    requires Enabled(s, LoadBridge(answers, serial, now))
    ensures StepTells(s, LoadBridge(answers, serial, now))
  {
    LoadWrites(s, answers, serial, now);
    hide Enabled, OutcomeOf, MayRetry, MayRecover, Scheduled, Recovered, RetriesInWave, BeginsWave;
    hide NewAttempted, NewBridgeOk, NewManualArmed, WritesManualArmed, WritesRetryPolicy, NewRetryPolicy,
      WritesLoadStarted, NewLoadStarted;
    hide Launcher.Loads, Launcher.Succeeds, Launcher.Passing, Launcher.Present, Launcher.Suitable;
  }

  lemma OpenTells(s: State, opens: bool, now: nat)
    requires Enabled(s, OpenMailbox(opens, now))
    ensures StepTells(s, OpenMailbox(opens, now))
  {
  }

  lemma TakeTells(s: State)
    requires Enabled(s, TakeCommand)
    ensures StepTells(s, TakeCommand)
  {
    hide LoadedBy, OpenedBy, Detached, AttachedTo, AuthorizedBy, LookedStale, StatusBy, Published, Applied, Begun,
      ShouldAttempt, Ready, Queue.Absorb;
    if s.pending == Queue.NoCommand {
    } else if s.pending == Queue.Disconnect {
    } else {
    }
  }

  lemma DetachTells(s: State)
    requires Enabled(s, Detach)
    ensures StepTells(s, Detach)
  {
  }

  lemma AttachTells(s: State, p: Process, opens: bool)
    requires Enabled(s, Attach(p, opens))
    ensures StepTells(s, Attach(p, opens))
  {
  }

  lemma OverTells(s: State, step: Step)
    requires Enabled(s, step) && (step.AfterDisconnect? || step.SetStale?)
    ensures StepTells(s, step)
  {
  }

  lemma AuthorizedTells(s: State)
    requires Enabled(s, Authorized)
    ensures StepTells(s, Authorized)
  {
  }

  lemma UpdateTells(s: State)
    requires Enabled(s, UpdateStatus)
    ensures StepTells(s, UpdateStatus)
  {
    hide LoadedBy, OutcomeOf, OpenedBy, TakenBy, Detached, AttachedTo, AuthorizedBy, LookedStale, ShouldAttempt, Ready;
    hide Launcher.Loads, Launcher.Succeeds, Launcher.Passing, Launcher.Present, Launcher.Suitable;
    hide Published, Applied, Begun, Queue.Absorb;
  }

  lemma LookTells(s: State, now: nat)
    requires Enabled(s, LookStale(now))
    ensures StepTells(s, LookStale(now))
  {
    hide ShouldAttempt, Ready;
  }

  lemma RoundTells(s: State, step: Step)
    requires Enabled(s, step) && (step.Exchange? || step.LookConnected? || step.MakeDecision?)
    ensures StepTells(s, step)
  {
    hide LoadedBy, OutcomeOf, OpenedBy, TakenBy, Detached, AttachedTo, AuthorizedBy, StatusBy, LookedStale, Published,
      Applied, Begun, ShouldAttempt, Ready;
  }

  lemma WindowStepTells(s: State, step: Step)
    requires Enabled(s, step) && FromWindow(step)
    ensures StepTells(s, step)
  {
    hide LoadedBy, OutcomeOf, OpenedBy, TakenBy, Detached, AttachedTo, AuthorizedBy, LookedStale, ShouldAttempt, Ready;
    hide Launcher.Loads, Launcher.Succeeds, Launcher.Passing, Launcher.Present, Launcher.Suitable;
    hide StatusBy;
  }

  lemma OthersTell(s: State, step: Step)
    requires Enabled(s, step) && !FromWindow(step) && !StartsOver(s, step) && !step.SetStale?
    requires !step.LoadBridge? && !step.OpenMailbox? && !step.TakeCommand? && !step.Authorized? && !step.UpdateStatus?
    requires !step.LookStale? && !step.Exchange? && !step.LookConnected? && !step.MakeDecision?
    ensures StepTells(s, step)
  {
    hide LoadedBy, OutcomeOf, OpenedBy, TakenBy, Detached, AttachedTo, AuthorizedBy, LookedStale, StatusBy, Published,
      Applied, Begun, ShouldAttempt, Ready;
    hide Launcher.Loads, Launcher.Succeeds, Launcher.Passing, Launcher.Present, Launcher.Suitable;
  }

  lemma StepTellsAll(s: State, step: Step)
    requires Enabled(s, step)
    ensures StepTells(s, step)
  {
    hide Next, Enabled, StepTells;
    if step.LoadBridge? {
      LoadTells(s, step.answers, step.serial, step.now);
    } else if step.OpenMailbox? {
      OpenTells(s, step.opens, step.now);
    } else if step.TakeCommand? {
      TakeTells(s);
    } else if step.Detach? {
      DetachTells(s);
    } else if step.Attach? {
      AttachTells(s, step.process, step.opens);
    } else if step.AfterDisconnect? || step.SetStale? {
      OverTells(s, step);
    } else if step.Authorized? {
      AuthorizedTells(s);
    } else if step.UpdateStatus? {
      UpdateTells(s);
    } else if step.LookStale? {
      LookTells(s, step.now);
    } else if step.Exchange? || step.LookConnected? || step.MakeDecision? {
      RoundTells(s, step);
    } else if FromWindow(step) {
      WindowStepTells(s, step);
    } else {
      OthersTell(s, step);
    }
  }

  // ----- Over any run -----

  lemma DisconnectedTells(s: State, steps: seq<Step>, k: nat)
    requires Possible(s, steps) && k <= |steps|
    ensures Remembers(s, steps, k, DisconnectedOf, WritesDisconnected, NewDisconnected)
  {
    forall t, step | Enabled(t, step)
      ensures DisconnectedOf(Next(t, step)) == if WritesDisconnected(t, step) then NewDisconnected(t, step)
          else DisconnectedOf(t)
    {
      StepTellsAll(t, step);
      hide Next, Enabled;
    }
    hide Next, Enabled, Remembers, DisconnectedOf, WritesDisconnected, NewDisconnected;
    LastWriteTells(s, steps, k, DisconnectedOf, WritesDisconnected, NewDisconnected);
  }

  lemma RequestedTells(s: State, steps: seq<Step>, k: nat)
    requires Possible(s, steps) && k <= |steps|
    ensures Remembers(s, steps, k, RequestedOf, WritesRequested, NewRequested)
  {
    forall t, step | Enabled(t, step)
      ensures RequestedOf(Next(t, step)) == if WritesRequested(t, step) then NewRequested(t, step) else RequestedOf(t)
    {
      StepTellsAll(t, step);
      hide Next, Enabled;
    }
    hide Next, Enabled, Remembers, RequestedOf, WritesRequested, NewRequested;
    LastWriteTells(s, steps, k, RequestedOf, WritesRequested, NewRequested);
  }

  lemma AttemptedTells(s: State, steps: seq<Step>, k: nat)
    requires Possible(s, steps) && k <= |steps|
    ensures Remembers(s, steps, k, AttemptedOf, WritesAttempted, NewAttempted)
  {
    forall t, step | Enabled(t, step)
      ensures AttemptedOf(Next(t, step)) == if WritesAttempted(t, step) then NewAttempted(t, step) else AttemptedOf(t)
    {
      StepTellsAll(t, step);
      hide Next, Enabled;
    }
    hide Next, Enabled, Remembers, AttemptedOf, WritesAttempted, NewAttempted;
    LastWriteTells(s, steps, k, AttemptedOf, WritesAttempted, NewAttempted);
  }

  lemma ManualArmedTells(s: State, steps: seq<Step>, k: nat)
    requires Possible(s, steps) && k <= |steps|
    ensures Remembers(s, steps, k, ManualArmedOf, WritesManualArmed, NewManualArmed)
  {
    forall t, step | Enabled(t, step)
      ensures ManualArmedOf(Next(t, step)) == if WritesManualArmed(t, step) then NewManualArmed(t, step)
          else ManualArmedOf(t)
    {
      StepTellsAll(t, step);
      hide Next, Enabled;
    }
    hide Next, Enabled, Remembers, ManualArmedOf, WritesManualArmed, NewManualArmed;
    LastWriteTells(s, steps, k, ManualArmedOf, WritesManualArmed, NewManualArmed);
  }

  lemma BridgeOkTells(s: State, steps: seq<Step>, k: nat)
    requires Possible(s, steps) && k <= |steps|
    ensures Remembers(s, steps, k, BridgeOkOf, WritesBridgeOk, NewBridgeOk)
  {
    forall t, step | Enabled(t, step)
      ensures BridgeOkOf(Next(t, step)) == if WritesBridgeOk(t, step) then NewBridgeOk(t, step) else BridgeOkOf(t)
    {
      StepTellsAll(t, step);
      hide Next, Enabled;
    }
    hide Next, Enabled, Remembers, BridgeOkOf, WritesBridgeOk, NewBridgeOk;
    LastWriteTells(s, steps, k, BridgeOkOf, WritesBridgeOk, NewBridgeOk);
  }

  lemma IgnoreThroughTells(s: State, steps: seq<Step>, k: nat)
    requires Possible(s, steps) && k <= |steps|
    ensures Remembers(s, steps, k, IgnoreThroughOf, WritesIgnoreThrough, NewIgnoreThrough)
  {
    forall t, step | Enabled(t, step)
      ensures IgnoreThroughOf(Next(t, step)) == if WritesIgnoreThrough(t, step) then NewIgnoreThrough(t, step)
          else IgnoreThroughOf(t)
    {
      StepTellsAll(t, step);
      hide Next, Enabled;
    }
    hide Next, Enabled, Remembers, IgnoreThroughOf, WritesIgnoreThrough, NewIgnoreThrough;
    LastWriteTells(s, steps, k, IgnoreThroughOf, WritesIgnoreThrough, NewIgnoreThrough);
  }

  lemma HeartbeatTells(s: State, steps: seq<Step>, k: nat)
    requires Possible(s, steps) && k <= |steps|
    ensures Remembers(s, steps, k, HeartbeatOf, WritesHeartbeat, NewHeartbeat)
  {
    forall t, step | Enabled(t, step)
      ensures HeartbeatOf(Next(t, step)) == if WritesHeartbeat(t, step) then NewHeartbeat(t, step) else HeartbeatOf(t)
    {
      StepTellsAll(t, step);
      hide Next, Enabled;
    }
    hide Next, Enabled, Remembers, HeartbeatOf, WritesHeartbeat, NewHeartbeat;
    LastWriteTells(s, steps, k, HeartbeatOf, WritesHeartbeat, NewHeartbeat);
  }

  lemma StatusSerialTells(s: State, steps: seq<Step>, k: nat)
    requires Possible(s, steps) && k <= |steps|
    ensures Remembers(s, steps, k, StatusSerialOf, WritesStatusSerial, NewStatusSerial)
  {
    forall t, step | Enabled(t, step)
      ensures StatusSerialOf(Next(t, step)) == if WritesStatusSerial(t, step) then NewStatusSerial(t, step)
          else StatusSerialOf(t)
    {
      StepTellsAll(t, step);
      hide Next, Enabled;
    }
    hide Next, Enabled, Remembers, StatusSerialOf, WritesStatusSerial, NewStatusSerial;
    LastWriteTells(s, steps, k, StatusSerialOf, WritesStatusSerial, NewStatusSerial);
  }

  lemma LoadStartedTells(s: State, steps: seq<Step>, k: nat)
    requires Possible(s, steps) && k <= |steps|
    ensures Remembers(s, steps, k, LoadStartedOf, WritesLoadStarted, NewLoadStarted)
  {
    forall t, step | Enabled(t, step)
      ensures LoadStartedOf(Next(t, step)) == if WritesLoadStarted(t, step) then NewLoadStarted(t, step)
          else LoadStartedOf(t)
    {
      StepTellsAll(t, step);
      hide Next, Enabled;
    }
    hide Next, Enabled, Remembers, LoadStartedOf, WritesLoadStarted, NewLoadStarted;
    LastWriteTells(s, steps, k, LoadStartedOf, WritesLoadStarted, NewLoadStarted);
  }

  lemma MailboxOpenTells(s: State, steps: seq<Step>, k: nat)
    requires Possible(s, steps) && k <= |steps|
    ensures Remembers(s, steps, k, MailboxOpenOf, WritesMailboxOpen, NewMailboxOpen)
  {
    forall t, step | Enabled(t, step)
      ensures MailboxOpenOf(Next(t, step)) == if WritesMailboxOpen(t, step) then NewMailboxOpen(t, step)
          else MailboxOpenOf(t)
    {
      StepTellsAll(t, step);
      hide Next, Enabled;
    }
    hide Next, Enabled, Remembers, MailboxOpenOf, WritesMailboxOpen, NewMailboxOpen;
    LastWriteTells(s, steps, k, MailboxOpenOf, WritesMailboxOpen, NewMailboxOpen);
  }

  lemma AttachedTells(s: State, steps: seq<Step>, k: nat)
    requires Possible(s, steps) && k <= |steps|
    ensures Remembers(s, steps, k, AttachedOf, WritesAttached, NewAttached)
  {
    forall t, step | Enabled(t, step)
      ensures AttachedOf(Next(t, step)) == if WritesAttached(t, step) then NewAttached(t, step) else AttachedOf(t)
    {
      StepTellsAll(t, step);
      hide Next, Enabled;
    }
    hide Next, Enabled, Remembers, AttachedOf, WritesAttached, NewAttached;
    LastWriteTells(s, steps, k, AttachedOf, WritesAttached, NewAttached);
  }

  lemma CommandTakenTells(s: State, steps: seq<Step>, k: nat)
    requires Possible(s, steps) && k <= |steps|
    ensures Remembers(s, steps, k, CommandTakenOf, WritesCommandTaken, NewCommandTaken)
  {
    forall t, step | Enabled(t, step)
      ensures CommandTakenOf(Next(t, step)) == if WritesCommandTaken(t, step) then NewCommandTaken(t, step)
          else CommandTakenOf(t)
    {
      StepTellsAll(t, step);
      hide Next, Enabled;
    }
    hide Next, Enabled, Remembers, CommandTakenOf, WritesCommandTaken, NewCommandTaken;
    LastWriteTells(s, steps, k, CommandTakenOf, WritesCommandTaken, NewCommandTaken);
  }

  lemma RetryPolicyTells(s: State, steps: seq<Step>, k: nat)
    requires Possible(s, steps) && k <= |steps|
    ensures Remembers(s, steps, k, RetryPolicyOf, WritesRetryPolicy, NewRetryPolicy)
  {
    forall t, step | Enabled(t, step)
      ensures RetryPolicyOf(Next(t, step)) == if WritesRetryPolicy(t, step) then NewRetryPolicy(t, step)
          else RetryPolicyOf(t)
    {
      StepTellsAll(t, step);
      hide Next, Enabled;
    }
    hide Next, Enabled, Remembers, RetryPolicyOf, WritesRetryPolicy, NewRetryPolicy;
    LastWriteTells(s, steps, k, RetryPolicyOf, WritesRetryPolicy, NewRetryPolicy);
  }

  lemma ProfileRequestTells(s: State, steps: seq<Step>, k: nat)
    requires Possible(s, steps) && k <= |steps|
    ensures Remembers(s, steps, k, ProfileRequestOf, WritesProfileRequest, NewProfileRequest)
  {
    forall t, step | Enabled(t, step)
      ensures ProfileRequestOf(Next(t, step)) == if WritesProfileRequest(t, step) then NewProfileRequest(t, step)
          else ProfileRequestOf(t)
    {
      StepTellsAll(t, step);
      hide Next, Enabled;
    }
    hide Next, Enabled, Remembers, ProfileRequestOf, WritesProfileRequest, NewProfileRequest;
    LastWriteTells(s, steps, k, ProfileRequestOf, WritesProfileRequest, NewProfileRequest);
  }

  lemma SnapshotTells(s: State, steps: seq<Step>, k: nat)
    requires Possible(s, steps) && k <= |steps|
    ensures Remembers(s, steps, k, SnapshotOf, WritesSnapshot, NewSnapshot)
  {
    forall t, step | Enabled(t, step)
      ensures SnapshotOf(Next(t, step)) == if WritesSnapshot(t, step) then NewSnapshot(t, step) else SnapshotOf(t)
    {
      StepTellsAll(t, step);
      hide Next, Enabled;
    }
    hide Next, Enabled, Remembers, SnapshotOf, WritesSnapshot, NewSnapshot;
    LastWriteTells(s, steps, k, SnapshotOf, WritesSnapshot, NewSnapshot);
  }

  lemma RestTells(s: State, steps: seq<Step>, k: nat)
    requires Possible(s, steps) && k <= |steps|
    ensures Remembers(s, steps, k, RestOf, WritesRest, NewRest)
  {
    forall t, step | Enabled(t, step)
      ensures RestOf(Next(t, step)) == if WritesRest(t, step) then NewRest(t, step) else RestOf(t)
    {
      StepTellsAll(t, step);
      hide Next, Enabled;
    }
    hide Next, Enabled, Remembers, RestOf, WritesRest, NewRest;
    LastWriteTells(s, steps, k, RestOf, WritesRest, NewRest);
  }

  lemma WindowTells(s: State, steps: seq<Step>, k: nat)
    requires Possible(s, steps) && k <= |steps|
    ensures Remembers(s, steps, k, WindowOf, WritesWindow, NewWindow)
  {
    forall t, step | Enabled(t, step)
      ensures WindowOf(Next(t, step)) == if WritesWindow(t, step) then NewWindow(t, step) else WindowOf(t)
    {
      StepTellsAll(t, step);
      hide Next, Enabled;
    }
    hide Next, Enabled, Remembers, WindowOf, WritesWindow, NewWindow;
    LastWriteTells(s, steps, k, WindowOf, WritesWindow, NewWindow);
  }
}
