/** The connection protocol: the window thread and the one connection worker, step by step at the
    granularity of the application lock, the command queue and the calls into Windows.

    Steps carry what the environment decides: what a scan finds, whether a call succeeds, what the
    bridge has published, the time. Any step whose guard holds may come next. */
module Connection {
  import Queue = ConnectQueue
  import opened LaunchRetries
  import Launcher

  type Command = Queue.Command

  const STALE_AFTER: nat := 15000

  // A 64-bit counter.
  type Counter = n: nat | n <= UINT64_MAX

  const NO_PROFILE_REQUESTS_LEFT: Counter := UINT64_MAX

  // The shared settings: the fields the protocol turns on, the temporary camera requests, and everything else.
  datatype Settings = Settings(
    enabled: bool, profileRequest: Counter, snapshotRequest: nat, snapshotId: nat, temporary: nat, rest: int)

  // A simulator process. Two processes may carry the same process ID one after the other.
  datatype Process = Process(pid: nat, serial: nat)

  datatype Place =
    | Top            // take a command
    | Disconnecting  // a Disconnect was taken: publish, then forget the attempt
    | Scan
    | Decide
    | Authorize
    | Open
    | PublishFirst
    | Load
    | CheckStale
    | ConfirmStale
    | Publish
    | ReadStatus
    | Poll           // the 50 ms steps between two rounds
    | PollWrite

  datatype Worker = Worker(
    place: Place,
    command: Command,
    attached: nat,              // process ID, 0 when none
    target: nat,                // serial of the process attached to
    handle: bool,               // a process handle is held
    attempted: bool,
    loadStarted: bool,
    bridgeOk: bool,
    manualArmed: bool,
    ignoreThrough: nat,
    retry: Retry,
    mailboxOpen: bool,
    sample: nat,                // heartbeat last read, from the status or the mailbox
    sampleSerial: nat)

  datatype State = State(
    current: Settings,
    requested: bool,            // connection_requested
    disconnected: bool,         // connection_disconnected
    heartbeat: nat,             // status.heartbeat, 0 when none
    statusSerial: nat,          // status.snapshot_serial
    pending: Command,           // the command queue's slot
    window: Command,            // the command the window thread is about to queue
    simulator: set<Process>,    // running simulator processes
    bridged: set<nat>,          // serials of the processes that show the bridge's module
    worker: Worker,
    // history
    born: set<nat>,             // serials of all processes so far
    loads: seq<nat>,            // serials LoadLibrary threads were created in
    loadsHere: nat,             // LoadLibrary threads created in the current attachment
    grants: nat)                // retries granted since the retry policy was last reset

  // What a mailbox write publishes.
  datatype Mail = Nothing | Mail(settings: Settings, ownerHeartbeat: nat)

  datatype Outcome = Outcome(started: bool, ok: bool, retryBeforeLoad: bool)

  datatype Step =
    // window thread
    | Press(command: Command)         // Connect or Reset
    | PressDisconnect(written: bool)
    | PublishDraft(draft: Settings)
    | RequestSnapshot(id: nat)
    | QueueCommand
    // environment
    | SimulatorStarts(process: Process)
    | SimulatorExits(process: Process)
    | BridgeAppears(process: Process) // a pending load finishes, or an earlier companion's bridge shows
    // worker, by its place
    | TakeCommand
    | AfterDisconnect(written: bool, now: nat)
    | KeepAttached
    | FindNothing
    | Detach
    | Attach(process: Process, opens: bool)
    | MakeDecision(autoOn: bool, now: nat)
    | Authorized
    | OpenMailbox(opens: bool, now: nat)
    | WriteFirst(written: bool, now: nat)
    | LoadBridge(answers: Launcher.Answers, serial: nat, now: nat)
    | LookStale(now: nat)
    | SetStale
    | Exchange(written: bool, now: nat, heartbeat: nat, serial: nat)
    | UpdateStatus
    | LookConnected
    | PollOnce(written: bool, now: nat)
    | EndRound

  function InitialWorker(): Worker {
    Worker(Top, Queue.NoCommand, 0, 0, false, false, false, false, false, 0, FRESH, false, 0, 0)
  }

  // ----- Small pieces of the source -----

  // apply_connection_command
  function Applied(settings: Settings, command: Command): Settings {
    if command == Queue.Connect || command == Queue.Reset then settings.(enabled := true)
    else if command == Queue.Disconnect then settings.(enabled := false, temporary := 0)
    else settings
  }

  // begin_connection, where profile requests are left
  function Begun(settings: Settings): Settings
    requires settings.profileRequest != NO_PROFILE_REQUESTS_LEFT
  {
    Applied(settings.(profileRequest := settings.profileRequest + 1, temporary := 0), Queue.Connect)
  }

  // publish: settings edits never override the connection state or withdraw a request
  function Published(current: Settings, value: Settings): Settings {
    var snapshot := if current.snapshotRequest >= value.snapshotRequest then current else value;
    value.(enabled := current.enabled,
           profileRequest := if current.profileRequest >= value.profileRequest then current.profileRequest
             else value.profileRequest,
           snapshotRequest := snapshot.snapshotRequest,
           snapshotId := snapshot.snapshotId)
  }

  // should_attempt_connect
  predicate ShouldAttempt(autoOn: bool, attempted: bool, command: Command, manualArmed: bool, disconnected: bool) {
    if command == Queue.Disconnect || disconnected then false
    else if command == Queue.Reset || command == Queue.Connect then true
    else if attempted then false
    else autoOn || manualArmed
  }

  // heartbeat_confirms_bridge
  predicate Confirms(sample: nat, ignoreThrough: nat) {
    sample != 0 && sample > ignoreThrough
  }

  // load_bridge, where a fresh load is allowed only while the worker knows of none
  function OutcomeOf(answers: Launcher.Answers, loadStarted: bool): Outcome {
    Outcome(Launcher.Loads(answers, !loadStarted), Launcher.Succeeds(answers, !loadStarted),
      Launcher.Passing(answers, !loadStarted))
  }

  // exchange_control: what it writes
  function Exchanged(s: State, now: nat): Mail {
    Mail(s.current, if s.requested then now else 0)
  }

  // The worker forgets the attempt in hand.
  function Forget(w: Worker): Worker {
    w.(attempted := false, bridgeOk := false, ignoreThrough := 0, retry := FRESH)
  }

  predicate Running(s: State, pid: nat, serial: nat) {
    Process(pid, serial) in s.simulator
  }

  // attached_alive: the held handle shows the process has not exited.
  predicate AttachedAlive(s: State) {
    s.worker.attached != 0 && s.worker.handle && Running(s, s.worker.attached, s.worker.target)
  }

  // ----- Guards -----

  predicate Enabled(s: State, step: Step) {
    var w := s.worker;
    match step
    // The window thread queues its command before it does anything else.
    case Press(command) => s.window == Queue.NoCommand && (command == Queue.Connect || command == Queue.Reset)
    case PressDisconnect(_) => s.window == Queue.NoCommand
    case PublishDraft(_) => s.window == Queue.NoCommand
    case RequestSnapshot(_) => s.window == Queue.NoCommand
    case QueueCommand => s.window != Queue.NoCommand
    // A process ID is not reused while a process with it runs or a handle to that process is held.
    case SimulatorStarts(p) =>
      && p.pid != 0 && p.serial !in s.born && !(w.handle && w.attached == p.pid)
      && forall q :: q in s.simulator ==> q.pid != p.pid
    case SimulatorExits(p) => p in s.simulator
    case BridgeAppears(p) => p in s.simulator
    case TakeCommand => w.place == Top
    case AfterDisconnect(written, _) => w.place == Disconnecting && (written ==> w.mailboxOpen)
    case KeepAttached => w.place == Scan && w.attached != 0 && (w.handle ==> AttachedAlive(s))
    case FindNothing => w.place == Scan && w.attached == 0
    // Without a handle the scan decides, and it may miss a running process.
    case Detach => w.place == Scan && w.attached != 0 && !AttachedAlive(s)
    // Without a handle, the process the scan named may be gone again.
    case Attach(p, opens) => w.place == Scan && w.attached == 0 && p.pid != 0 && (opens ==> p in s.simulator)
    case MakeDecision(_, _) => w.place == Decide
    case Authorized => w.place == Authorize
    case OpenMailbox(_, _) => w.place == Open
    case WriteFirst(written, _) => w.place == PublishFirst && (written ==> w.mailboxOpen)
    // load_bridge opens the process by its ID and finds the bridge's module there, or not.
    case LoadBridge(a, serial, _) =>
      && w.place == Load && (a.opens ==> Process(w.attached, serial) in s.simulator)
      && (Launcher.Suitable(a) ==> (a.bridgePresent <==> serial in s.bridged))
    case LookStale(_) => w.place == CheckStale
    case SetStale => w.place == ConfirmStale
    case Exchange(written, _, _, _) => w.place == Publish && (written ==> w.mailboxOpen)
    case UpdateStatus => w.place == ReadStatus
    case LookConnected => w.place == Poll
    case PollOnce(written, _) => w.place == PollWrite && (written ==> w.mailboxOpen)
    case EndRound => w.place == Poll
  }

  // ----- Effects -----

  function TakenBy(s: State): State {
    var w := s.worker.(command := s.pending);
    if s.pending == Queue.Disconnect then s.(pending := Queue.NoCommand, worker := w.(place := Disconnecting))
    else if s.pending == Queue.NoCommand then s.(worker := w.(place := Scan))
    else
      s.(pending := Queue.NoCommand, grants := 0,
         worker := Forget(w).(place := Scan, manualArmed := true, mailboxOpen := false))
  }

  function Detached(s: State): State {
    s.(current := s.current.(enabled := false), requested := false, heartbeat := 0, statusSerial := 0,
       loadsHere := 0, grants := 0,
       worker := Forget(s.worker).(attached := 0, target := 0, handle := false, loadStarted := false,
                                   manualArmed := false, mailboxOpen := false))
  }

  function AttachedTo(s: State, p: Process, opens: bool): State {
    var w := s.worker;
    s.(loadsHere := 0, grants := 0,
       worker := Forget(w).(place := Decide, attached := p.pid, target := p.serial, handle := opens,
                            loadStarted := false,
                            manualArmed := w.manualArmed || w.command == Queue.Connect || w.command == Queue.Reset))
  }

  function AuthorizedBy(s: State): State {
    var w := s.worker;
    if s.disconnected then s.(worker := w.(place := Top))
    else if !s.requested && s.current.profileRequest == NO_PROFILE_REQUESTS_LEFT
    then s.(worker := w.(place := Top, attempted := true))
    else
      var begun := if s.requested then s.current else Begun(s.current);
      s.(requested := true, current := Applied(begun, Queue.Connect), worker := w.(place := Open, attempted := true))
  }

  function OpenedBy(s: State, opens: bool, now: nat): State {
    var w := s.worker;
    if w.mailboxOpen || opens then s.(worker := w.(place := PublishFirst, mailboxOpen := true))
    else
      var again := MayRetry(w.retry, false, true, now);
      var wave := !again && MayRecover(w.retry, now);
      var retry := if again then Scheduled(w.retry, false, true, now) else Recovered(w.retry, now);
      s.(grants := if again || wave then s.grants + 1 else s.grants,
         worker := w.(place := CheckStale, retry := retry, attempted := !(again || wave),
                      manualArmed := w.manualArmed && (again || wave)))
  }

  function LoadedBy(s: State, answers: Launcher.Answers, serial: nat, now: nat): State {
    var w := s.worker;
    var o := OutcomeOf(answers, w.loadStarted);
    var again := MayRetry(w.retry, o.ok, o.retryBeforeLoad, now);
    var wave := !again && !o.ok && o.retryBeforeLoad && MayRecover(w.retry, now);
    var retry := if again then Scheduled(w.retry, o.ok, o.retryBeforeLoad, now)
                 else if wave then Recovered(w.retry, now) else w.retry;
    s.(bridged := if Launcher.Present(answers, !w.loadStarted) then s.bridged + {serial} else s.bridged,
       loads := if o.started then s.loads + [serial] else s.loads,
       loadsHere := if o.started then s.loadsHere + 1 else s.loadsHere,
       grants := if again || wave then s.grants + 1 else s.grants,
       worker := w.(place := CheckStale, loadStarted := w.loadStarted || o.started, retry := retry,
                    attempted := !(again || wave),
                    manualArmed := w.manualArmed && !o.ok && (again || wave),
                    bridgeOk := o.ok && w.ignoreThrough == 0))
  }

  // A beat more than 15 s old, read under the lock; the recovery itself takes the lock again.
  function LookedStale(s: State, now: nat): State {
    var w := s.worker;
    var stale := w.attached != 0 && w.bridgeOk && w.attempted && w.mailboxOpen && !s.disconnected
                 && s.heartbeat != 0 && now > s.heartbeat + STALE_AFTER;
    s.(worker := if stale then w.(place := ConfirmStale, sample := s.heartbeat) else w.(place := Publish))
  }

  function StatusBy(s: State): State {
    var w := s.worker.(place := Poll);
    if s.disconnected then s.(worker := w)
    else if !Confirms(w.sample, w.ignoreThrough) then s.(heartbeat := 0, statusSerial := w.sampleSerial, worker := w)
    else s.(heartbeat := w.sample, statusSerial := w.sampleSerial, worker := w.(bridgeOk := true, ignoreThrough := 0))
  }

  function Next(s: State, step: Step): State
    requires Enabled(s, step)
  {
    var w := s.worker;
    match step
    case Press(command) =>
      if s.current.profileRequest == NO_PROFILE_REQUESTS_LEFT then s
      else s.(current := Begun(s.current), disconnected := false, requested := true, window := command)
    case PressDisconnect(_) =>
      s.(current := Applied(s.current, Queue.Disconnect), disconnected := true, requested := false, heartbeat := 0,
         statusSerial := 0, window := Queue.Disconnect)
    case PublishDraft(draft) => s.(current := Published(s.current, draft))
    case RequestSnapshot(id) =>
      var last := if s.current.snapshotRequest >= s.statusSerial then s.current.snapshotRequest else s.statusSerial;
      s.(current := s.current.(snapshotRequest := last + 1, snapshotId := id))
    case QueueCommand => s.(pending := Queue.Absorb(s.pending, s.window), window := Queue.NoCommand)
    case SimulatorStarts(p) => s.(simulator := s.simulator + {p}, born := s.born + {p.serial})
    case SimulatorExits(p) => s.(simulator := s.simulator - {p})
    case BridgeAppears(p) => s.(bridged := s.bridged + {p.serial})
    case TakeCommand => TakenBy(s)
    case AfterDisconnect(_, _) =>
      s.(grants := 0, worker := Forget(w).(place := Top, manualArmed := false, mailboxOpen := false))
    case KeepAttached => s.(worker := w.(place := Decide))
    case FindNothing => s.(worker := w.(place := Decide))
    case Detach => Detached(s)
    case Attach(p, opens) => AttachedTo(s, p, opens)
    case MakeDecision(autoOn, now) =>
      var want := ShouldAttempt(autoOn, w.attempted, w.command, w.manualArmed, s.disconnected);
      s.(worker := w.(place := if w.attached != 0 && want && Ready(w.retry, now) then Authorize else CheckStale))
    case Authorized => AuthorizedBy(s)
    case OpenMailbox(opens, now) => OpenedBy(s, opens, now)
    case WriteFirst(_, _) => s.(worker := w.(place := Load))
    case LoadBridge(answers, serial, now) => LoadedBy(s, answers, serial, now)
    case LookStale(now) => LookedStale(s, now)
    case SetStale =>
      if s.disconnected then s.(worker := w.(place := Publish))
      else s.(heartbeat := 0, grants := 0,
              worker := Forget(w).(place := Publish, manualArmed := true, ignoreThrough := w.sample))
    case Exchange(written, _, heartbeat, serial) =>
      s.(worker := if written then w.(place := ReadStatus, sample := heartbeat, sampleSerial := serial)
        else w.(place := Poll))
    case UpdateStatus => StatusBy(s)
    case LookConnected => if s.disconnected then s else s.(worker := w.(place := PollWrite))
    case PollOnce(_, _) => s.(worker := w.(place := Poll))
    case EndRound => s.(worker := w.(place := Top))
  }

  // What the step writes into the simulator's mailbox. All writes happen under the application lock.
  function Written(s: State, step: Step): Mail {
    match step
    case PressDisconnect(written) => if written then Mail(Applied(s.current, Queue.Disconnect), 0) else Nothing
    case AfterDisconnect(written, now) => if written then Exchanged(s, now) else Nothing
    case WriteFirst(written, now) => if written then Exchanged(s, now) else Nothing
    case Exchange(written, now, _, _) => if written then Exchanged(s, now) else Nothing
    case PollOnce(written, now) => if written then Exchanged(s, now) else Nothing
    case _ => Nothing
  }

  // ----- Runs -----

  // Any settings but enabled ones, any queue of processes: nothing attached, nothing asked for.
  predicate Initial(s: State) {
    && !s.current.enabled && !s.requested && !s.disconnected && s.heartbeat == 0
    && s.pending == Queue.NoCommand && s.window == Queue.NoCommand
    && s.simulator == {} && s.bridged == {} && s.born == {} && s.loads == [] && s.loadsHere == 0 && s.grants == 0
    && s.worker == InitialWorker()
  }

  predicate Possible(s: State, steps: seq<Step>)
    decreases |steps|
  {
    steps == [] || (Enabled(s, steps[0]) && Possible(Next(s, steps[0]), steps[1..]))
  }

  function Run(s: State, steps: seq<Step>): State
    requires Possible(s, steps)
    decreases |steps|
  {
    if steps == [] then s else Run(Next(s, steps[0]), steps[1..])
  }

  lemma {:induction false} Prefix(s: State, steps: seq<Step>, i: nat)
    requires Possible(s, steps) && i <= |steps|
    ensures Possible(s, steps[..i]) && Possible(Run(s, steps[..i]), steps[i..])
    decreases |steps|
  {
    hide Next, Enabled;
    if i > 0 {
      var first, rest := steps[0], steps[1..];
      Prefix(Next(s, first), rest, i - 1);
      assert steps[..i][1..] == rest[..i - 1];
      assert steps[i..] == rest[i - 1..];
    } else {
      assert steps[0..] == steps;
    }
  }

  lemma Ended(s: State)
    ensures Possible(s, []) && Run(s, []) == s
  {
  }

  lemma Led(s: State, step: Step, rest: seq<Step>)
    requires Enabled(s, step) && Possible(Next(s, step), rest)
    ensures Possible(s, [step] + rest) && Run(s, [step] + rest) == Run(Next(s, step), rest)
  {
    assert ([step] + rest)[1..] == rest;
  }

  lemma {:induction false} Appended(s: State, before: seq<Step>, after: seq<Step>)
    requires Possible(s, before) && Possible(Run(s, before), after)
    ensures Possible(s, before + after) && Run(s, before + after) == Run(Run(s, before), after)
    decreases |before|
  {
    hide Next, Enabled;
    if before == [] {
      assert before + after == after;
    } else {
      Appended(Next(s, before[0]), before[1..], after);
      assert (before + after)[1..] == before[1..] + after;
    }
  }
}
