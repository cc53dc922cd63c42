/** The one-slot command queue between the window and the connection worker: compare-and-swap
    requests and exchange takes, interleaved step by step. */
module ConnectQueue {
  datatype Command = NoCommand | Connect | Reset | Disconnect

  // ----- The queue as one operation at a time -----

  // What is pending once a command arrives: the newest, except that a Connect is lost in a Reset.
  function Absorb(pending: Command, command: Command): Command {
    if command == NoCommand || (pending == Reset && command == Connect) then pending else command
  }

  function Fold(pending: Command, commands: seq<Command>): Command {
    if commands == [] then pending else Absorb(Fold(pending, commands[..|commands| - 1]), commands[|commands| - 1])
  }

  // ----- The concurrent queue -----

  // Where a requesting thread stands. Absorbed: it has seen a Reset that absorbs its Connect and
  // is about to return.
  datatype Phase = Quiet | Deciding(command: Command, seen: Command) | Absorbed

  datatype Op = Requested(thread: nat, command: Command) | Taken(result: Command)

  // `log` holds the operations in the order they take effect; `started` counts each thread's requests.
  datatype State = State(pending: Command, phases: map<nat, Phase>, log: seq<Op>, started: map<nat, nat>)

  datatype Step =
    | Start(thread: nat, command: Command)   // load
    | Swap(thread: nat)                      // compare_exchange_weak succeeds
    | Retry(thread: nat)                     // it fails, spuriously or not, and reloads
    | Return(thread: nat)                    // return without a write
    | Take                                   // exchange

  const INIT := State(NoCommand, map[], [], map[])

  function PhaseOf(s: State, thread: nat): Phase {
    if thread in s.phases then s.phases[thread] else Quiet
  }

  function StartedBy(s: State, thread: nat): nat {
    if thread in s.started then s.started[thread] else 0
  }

  predicate Enabled(s: State, step: Step) {
    match step
    case Start(t, command) => PhaseOf(s, t).Quiet? && command != NoCommand
    case Swap(t) => PhaseOf(s, t).Deciding? && PhaseOf(s, t).seen == s.pending
    case Retry(t) => PhaseOf(s, t).Deciding?
    case Return(t) => PhaseOf(s, t).Absorbed?
    case Take => true
  }

  // The value just read decides whether the thread returns or tries to write.
  function Observe(s: State, thread: nat, command: Command): State {
    if s.pending == Reset && command == Connect
    then s.(phases := s.phases[thread := Absorbed], log := s.log + [Requested(thread, command)])
    else s.(phases := s.phases[thread := Deciding(command, s.pending)])
  }

  function Next(s: State, step: Step): State
    requires Enabled(s, step)
  {
    match step
    case Start(t, command) => Observe(s.(started := s.started[t := StartedBy(s, t) + 1]), t, command)
    case Swap(t) =>
      var command := PhaseOf(s, t).command;
      s.(pending := command, phases := s.phases[t := Quiet], log := s.log + [Requested(t, command)])
    case Retry(t) => Observe(s, t, PhaseOf(s, t).command)
    case Return(t) => s.(phases := s.phases[t := Quiet])
    case Take => s.(pending := NoCommand, log := s.log + [Taken(s.pending)])
  }

  predicate Possible(s: State, steps: seq<Step>)
    decreases |steps|
  {
    steps == [] || (Enabled(s, steps[0]) && Possible(Next(s, steps[0]), steps[1..]))
  }

  function Run(s: State, steps: seq<Step>): State
    requires Possible(s, steps)
    decreases |steps|
  {
    if steps == [] then s else Run(Next(s, steps[0]), steps[1..])
  }

  // ----- Linearizability -----

  // The pending command after the operations of a log, one at a time.
  function Replay(log: seq<Op>): Command {
    if log == [] then NoCommand
    else
      match log[|log| - 1]
      case Requested(_, command) => Absorb(Replay(log[..|log| - 1]), command)
      case Taken(_) => NoCommand
  }

  // Every take in the log returns what was pending just before it.
  ghost predicate Legal(log: seq<Op>) {
    forall i :: 0 <= i < |log| && log[i].Taken? ==> log[i].result == Replay(log[..i])
  }

  function RequestsBy(log: seq<Op>, thread: nat): nat {
    if log == [] then 0
    else RequestsBy(log[..|log| - 1], thread)
         + (if log[|log| - 1].Requested? && log[|log| - 1].thread == thread then 1 else 0)
  }

  // A thread that is still deciding has one request that has not taken effect.
  ghost predicate Counted(s: State, thread: nat) {
    RequestsBy(s.log, thread) + (if PhaseOf(s, thread).Deciding? then 1 else 0) == StartedBy(s, thread)
  }

  predicate Undecided(phase: Phase) {
    phase.Deciding? ==> phase.command != NoCommand && !(phase.seen == Reset && phase.command == Connect)
  }

  ghost predicate Good(s: State) {
    && Legal(s.log) && Replay(s.log) == s.pending
    && (forall t: nat :: Undecided(PhaseOf(s, t)))
    && (forall t: nat :: Counted(s, t))
  }

  lemma LogGrows(log: seq<Op>, op: Op)
    requires Legal(log) && (op.Taken? ==> op.result == Replay(log))
    ensures Legal(log + [op])
    ensures Replay(log + [op]) == if op.Taken? then NoCommand else Absorb(Replay(log), op.command)
    ensures forall t: nat ::
        RequestsBy(log + [op], t) == RequestsBy(log, t) + (if op.Requested? && op.thread == t then 1 else 0)
  {
    var more := log + [op];
    assert more[..|log|] == log;
    forall i | 0 <= i < |more| && more[i].Taken?
      ensures more[i].result == Replay(more[..i])
    {
      if i < |log| {
        assert more[..i] == log[..i];
      }
    }
  }

  // What a step appends to the log when it appends anything.
  function OpOf(s: State, step: Step): Op {
    match step
    case Start(t, command) => Requested(t, command)
    case Take => Taken(s.pending)
    case _ => Requested(step.thread, if PhaseOf(s, step.thread).Deciding? then PhaseOf(s, step.thread).command
      else NoCommand)
  }

  lemma StepKeepsLog(s: State, step: Step)
    requires Good(s) && Enabled(s, step)
    ensures var s' := Next(s, step); Legal(s'.log) && Replay(s'.log) == s'.pending
  {
    LogGrows(s.log, OpOf(s, step));
    hide Legal, Replay, RequestsBy;
    assert forall t: nat :: Undecided(PhaseOf(s, t));
  }

  lemma StepKeepsThread(s: State, step: Step, t: nat)
    requires Good(s) && Enabled(s, step)
    ensures var s' := Next(s, step); Undecided(PhaseOf(s', t)) && Counted(s', t)
  {
    LogGrows(s.log, OpOf(s, step));
    assert Undecided(PhaseOf(s, t)) && Counted(s, t);
    hide Legal, Replay, RequestsBy;
  }

  lemma StepKeepsGood(s: State, step: Step)
    requires Good(s) && Enabled(s, step)
    ensures Good(Next(s, step))
  {
    StepKeepsLog(s, step);
    forall t: nat
      ensures Undecided(PhaseOf(Next(s, step), t)) && Counted(Next(s, step), t)
    {
      StepKeepsThread(s, step, t);
    }
    hide Legal, Replay, Next, Undecided, Counted;
  }

  lemma {:induction false} RunKeepsGood(s: State, steps: seq<Step>)
    requires Good(s) && Possible(s, steps)
    ensures Good(Run(s, steps))
    decreases |steps|
  {
    if steps != [] {
      StepKeepsGood(s, steps[0]);
      RunKeepsGood(Next(s, steps[0]), steps[1..]);
    }
  }

  // In every interleaving, the order in which operations take effect is a legal sequential history
  // ending in the pending command, and each request is in it once: from the step that decides it,
  // which lies between its start and its return.
  lemma Linearizable(steps: seq<Step>)
    requires Possible(INIT, steps)
    ensures
      var s := Run(INIT, steps);
      && Legal(s.log) && Replay(s.log) == s.pending
      && forall t: nat :: RequestsBy(s.log, t) + (if PhaseOf(s, t).Deciding? then 1 else 0) == StartedBy(s, t)
  {
    RunKeepsGood(INIT, steps);
    var s := Run(INIT, steps);
    forall t: nat
      ensures RequestsBy(s.log, t) + (if PhaseOf(s, t).Deciding? then 1 else 0) == StartedBy(s, t)
    {
      assert Counted(s, t);
    }
  }

  function Commands(log: seq<Op>): seq<Command> {
    if log == [] then []
    else Commands(log[..|log| - 1]) + (if log[|log| - 1].Requested? then [log[|log| - 1].command] else [])
  }

  lemma {:induction false} ReplayIsFold(before: seq<Op>, requests: seq<Op>)
    requires forall i :: 0 <= i < |requests| ==> requests[i].Requested?
    ensures Replay(before + requests) == Fold(Replay(before), Commands(requests))
  {
    if requests == [] {
      assert before + requests == before;
    } else {
      var init := requests[..|requests| - 1];
      assert (before + requests)[..|before + requests| - 1] == before + init;
      ReplayIsFold(before, init);
      var commands := Commands(requests);
      assert commands[..|commands| - 1] == Commands(init);
    }
  }

  // A take returns exactly the fold of the requests since the take before it, and clears it.
  lemma TakeReturnsFold(steps: seq<Step>, i: nat, j: nat)
    requires Possible(INIT, steps)
    requires i < j < |Run(INIT, steps).log| && Run(INIT, steps).log[i].Taken? && Run(INIT, steps).log[j].Taken?
    requires forall k :: i < k < j ==> Run(INIT, steps).log[k].Requested?
    ensures
      var log := Run(INIT, steps).log;
      log[j].result == Fold(NoCommand, Commands(log[i + 1..j]))
  {
    Linearizable(steps);
    var log := Run(INIT, steps).log;
    var before, requests := log[..i + 1], log[i + 1..j];
    assert log[..j] == before + requests;
    assert before[|before| - 1] == log[i];
    ReplayIsFold(before, requests);
  }

  // ----- Nobody waits -----

  // A take is always possible, a request may begin when the thread's last one has returned, and a thread that
  // runs alone finishes its request in two steps, whatever it has seen.
  lemma FinishesAlone(s: State, t: nat, command: Command)
    ensures Enabled(s, Take)
    ensures PhaseOf(s, t).Quiet? && command != NoCommand ==>
      Possible(s, [Start(t, command), if s.pending == Reset && command == Connect then Return(t) else Swap(t)])
    ensures PhaseOf(s, t).Deciding? ==>
      Possible(s, [Retry(t), if s.pending == Reset && PhaseOf(s, t).command == Connect then Return(t) else Swap(t)])
    ensures PhaseOf(s, t).Absorbed? ==> Possible(s, [Return(t)])
  {
    if PhaseOf(s, t).Quiet? && command != NoCommand {
      var last := if s.pending == Reset && command == Connect then Return(t) else Swap(t);
      TwoSteps(s, Start(t, command), last);
    }
    if PhaseOf(s, t).Deciding? {
      var last := if s.pending == Reset && PhaseOf(s, t).command == Connect then Return(t) else Swap(t);
      TwoSteps(s, Retry(t), last);
    }
  }

  lemma TwoSteps(s: State, first: Step, second: Step)
    requires Enabled(s, first) && Enabled(Next(s, first), second)
    ensures Possible(s, [first, second])
  {
    assert [first, second][1..] == [second] && [second][1..] == [];
  }

  // ----- What the fold is -----

  // The last command other than Connect.
  function LastOther(commands: seq<Command>): Command {
    if commands == [] then NoCommand
    else if commands[|commands| - 1] != Connect then commands[|commands| - 1]
    else LastOther(commands[..|commands| - 1])
  }

  // The last command wins, except that Connects after a Reset leave it a Reset.
  lemma {:induction false} FoldIs(commands: seq<Command>)
    requires NoCommand !in commands
    ensures Fold(NoCommand, commands) ==
            if commands == [] then NoCommand
            else if LastOther(commands) == Reset then Reset
            else commands[|commands| - 1]
  {
    if commands != [] {
      FoldIs(commands[..|commands| - 1]);
    }
  }

  // A Reset is never lost to a Connect.
  lemma {:induction false} ResetSurvives(pending: Command, commands: seq<Command>, i: nat)
    requires i < |commands| && commands[i] == Reset
    requires forall k :: i < k < |commands| ==> commands[k] == Connect
    ensures Fold(pending, commands) == Reset
    decreases |commands|
  {
    if i < |commands| - 1 {
      ResetSurvives(pending, commands[..|commands| - 1], i);
    }
  }
}
