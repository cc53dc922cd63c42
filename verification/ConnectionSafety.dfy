/** What every interleaving of the window thread and the connection worker keeps. */
module ConnectionSafety {
  import Queue = ConnectQueue
  import opened LaunchRetries
  import opened Connection
  import Launcher

  // ----- Invariants of every reachable state -----

  ghost predicate Safe(s: State) {
    var w := s.worker;
    // The connection is enabled exactly while it is requested, and never while disconnected.
    && s.current.enabled == s.requested
    && (s.disconnected ==> !s.requested)
    // At most one LoadLibrary thread in the current attachment, and the worker knows whether there was one.
    && s.loadsHere == (if w.loadStarted then 1 else 0)
    // A bridge is healthy only by a beat newer than the stale one; until then the status shows no beat.
    && (w.bridgeOk ==> w.ignoreThrough == 0)
    && (w.ignoreThrough != 0 ==> s.heartbeat == 0)
    // The retry policy stays within its bounds.
    && Bounded(w.retry) && s.grants + Left(w.retry) <= 1259
  }

  lemma OpenedKeepsSafe(s: State, opens: bool, now: nat)
    requires Safe(s) && Enabled(s, OpenMailbox(opens, now))
    ensures Safe(Next(s, OpenMailbox(opens, now)))
  {
  }

  lemma LoadedKeepsSafe(s: State, answers: Launcher.Answers, serial: nat, now: nat)
    requires Safe(s) && Enabled(s, LoadBridge(answers, serial, now))
    ensures Safe(Next(s, LoadBridge(answers, serial, now)))
  {
  }

  lemma AuthorizedKeepsSafe(s: State)
    requires Safe(s) && Enabled(s, Authorized)
    ensures Safe(Next(s, Authorized))
  {
  }

  predicate Forgets(step: Step) {
    step.TakeCommand? || step.AfterDisconnect? || step.Detach? || step.Attach? || step.SetStale?
  }

  lemma MovesKeepSafe(s: State, opens: bool, p: Process)
    requires Safe(s)
    ensures Safe(TakenBy(s)) && Safe(Detached(s)) && Safe(AttachedTo(s, p, opens))
  {
  }

  lemma ForgettingKeepsSafe(s: State, step: Step)
    requires Safe(s) && Enabled(s, step) && Forgets(step)
    ensures Safe(Next(s, step))
  {
    hide TakenBy, Detached, AttachedTo, Published, Applied, Begun, ShouldAttempt, Ready;
    MovesKeepSafe(s, step.Attach? && step.opens, if step.Attach? then step.process else Process(0, 0));
  }

  predicate Looks(step: Step) {
    step.LookStale? || step.UpdateStatus? || step.Exchange?
  }

  lemma LookingKeepsSafe(s: State, step: Step)
    requires Safe(s) && Enabled(s, step) && Looks(step)
    ensures Safe(Next(s, step))
  {
  }

  predicate FromWindow(step: Step) {
    step.Press? || step.PressDisconnect? || step.PublishDraft? || step.RequestSnapshot? || step.QueueCommand?
  }

  lemma WindowKeepsSafe(s: State, step: Step)
    requires Safe(s) && Enabled(s, step) && FromWindow(step)
    ensures Safe(Next(s, step))
  {
  }

  predicate Decides(step: Step) {
    step.OpenMailbox? || step.LoadBridge? || step.Authorized?
  }

  lemma OthersKeepSafe(s: State, step: Step)
    requires Safe(s) && Enabled(s, step) && !Forgets(step) && !Looks(step) && !FromWindow(step) && !Decides(step)
    ensures Safe(Next(s, step))
  {
    hide OpenedBy, LoadedBy, AuthorizedBy, TakenBy, Detached, AttachedTo, LookedStale, StatusBy, Published,
      ShouldAttempt, Applied, Begun, Ready, Forget, Bounded, Left;
  }

  lemma StepKeepsSafe(s: State, step: Step)
    requires Safe(s) && Enabled(s, step)
    ensures Safe(Next(s, step))
  {
    hide Safe, Next, Enabled;
    if step.OpenMailbox? {
      OpenedKeepsSafe(s, step.opens, step.now);
    } else if step.LoadBridge? {
      LoadedKeepsSafe(s, step.answers, step.serial, step.now);
    } else if step.Authorized? {
      AuthorizedKeepsSafe(s);
    } else if Forgets(step) {
      ForgettingKeepsSafe(s, step);
    } else if Looks(step) {
      LookingKeepsSafe(s, step);
    } else if FromWindow(step) {
      WindowKeepsSafe(s, step);
    } else {
      OthersKeepSafe(s, step);
    }
  }

  lemma {:induction false} RunKeepsSafe(s: State, steps: seq<Step>)
    requires Safe(s) && Possible(s, steps)
    ensures Safe(Run(s, steps))
    decreases |steps|
  {
    if steps != [] {
      StepKeepsSafe(s, steps[0]);
      RunKeepsSafe(Next(s, steps[0]), steps[1..]);
    }
  }

  lemma InitialIsSafe(s: State)
    requires Initial(s)
    ensures Safe(s)
  {
  }

  // The state before step i of a run.
  function Before(s: State, steps: seq<Step>, i: nat): State
    requires Possible(s, steps) && i <= |steps|
  {
    Prefix(s, steps, i);
    Run(s, steps[..i])
  }

  lemma {:induction false} BeforeNext(s: State, steps: seq<Step>, i: nat)
    requires Possible(s, steps) && i < |steps|
    ensures Enabled(Before(s, steps, i), steps[i])
    ensures Before(s, steps, i + 1) == Next(Before(s, steps, i), steps[i])
    decreases |steps|
  {
    hide Next, Enabled;
    var first, rest := steps[0], steps[1..];
    Prefix(s, steps, i);
    Prefix(s, steps, i + 1);
    if i == 0 {
      assert steps[..0] == [];
      assert steps[..1][1..] == [];
    } else {
      BeforeNext(Next(s, first), rest, i - 1);
      assert steps[..i][1..] == rest[..i - 1];
      assert steps[..i + 1][1..] == rest[..i];
    }
  }

  lemma SafeAt(s: State, steps: seq<Step>, i: nat)
    requires Initial(s) && Possible(s, steps) && i <= |steps|
    ensures Safe(Before(s, steps, i))
  {
    InitialIsSafe(s);
    Prefix(s, steps, i);
    RunKeepsSafe(s, steps[..i]);
  }

  // ----- Silence after a Disconnect -----

  // A Connect that takes effect: some profile requests are left.
  predicate Connects(s: State, step: Step) {
    step.Press? && s.current.profileRequest != NO_PROFILE_REQUESTS_LEFT
  }

  lemma {:induction false} StaysDisconnected(s: State, steps: seq<Step>, i: nat, j: nat)
    requires Possible(s, steps) && i <= j <= |steps| && Before(s, steps, i).disconnected
    requires forall k :: i <= k < j ==> !Connects(Before(s, steps, k), steps[k])
    ensures Before(s, steps, j).disconnected
    decreases j - i
  {
    if i < j {
      BeforeNext(s, steps, i);
      StaysDisconnected(s, steps, i + 1, j);
    }
  }

  // Every mailbox write from a Disconnect to the next Connect says: off, no owner. It does not
  // matter which drafts are published in between, or where the worker was.
  lemma SilentAfterDisconnect(s: State, steps: seq<Step>, i: nat, j: nat)
    requires Initial(s) && Possible(s, steps) && i <= j < |steps| && steps[i].PressDisconnect?
    requires forall k :: i < k < j ==> !Connects(Before(s, steps, k), steps[k])
    ensures
      var mail := Written(Before(s, steps, j), steps[j]);
      mail.Mail? ==> !mail.settings.enabled && mail.ownerHeartbeat == 0
  {
    BeforeNext(s, steps, j);
    SafeAt(s, steps, j);
    if i < j {
      BeforeNext(s, steps, i);
      StaysDisconnected(s, steps, i + 1, j);
    }
  }

  // Which steps write, and when they do.
  predicate Writes(step: Step) {
    match step
    case PressDisconnect(written) => written
    case AfterDisconnect(written, _) => written
    case WriteFirst(written, _) => written
    case Exchange(written, _, _, _) => written
    case PollOnce(written, _) => written
    case _ => false
  }

  // What a write says is the settings as they are after the step, with the time of the write for an owner's
  // beat while the connection is requested and none otherwise.
  lemma MailIsCurrent(s: State, steps: seq<Step>, j: nat)
    requires Possible(s, steps) && j < |steps|
    ensures
      var mail, t := Written(Before(s, steps, j), steps[j]), Before(s, steps, j + 1);
      && (mail.Mail? <==> Writes(steps[j]))
      && (mail.Mail? ==> mail.settings == t.current && mail.ownerHeartbeat == if t.requested then Clock(steps[j])
        else 0)
  {
    BeforeNext(s, steps, j);
    hide Before;
    MailStep(Before(s, steps, j), steps[j]);
  }

  lemma MailStep(s: State, step: Step)
    requires Enabled(s, step)
    ensures
      var mail, t := Written(s, step), Next(s, step);
      && (mail.Mail? <==> Writes(step))
      && (mail.Mail? ==> mail.settings == t.current && mail.ownerHeartbeat == if t.requested then Clock(step) else 0)
  {
    hide LoadedBy, OutcomeOf, OpenedBy, TakenBy, Detached, AttachedTo, AuthorizedBy, LookedStale, StatusBy, Published,
      Begun, ShouldAttempt, Ready, Queue.Absorb;
  }

  // A mailbox never says enabled without an owner's beat, or the other way round.
  lemma MailAgrees(s: State, steps: seq<Step>, j: nat)
    requires Initial(s) && Possible(s, steps) && j < |steps|
    requires Clock(steps[j]) > 0
    ensures
      var mail := Written(Before(s, steps, j), steps[j]);
      mail.Mail? ==> (mail.settings.enabled <==> mail.ownerHeartbeat != 0)
  {
    SafeAt(s, steps, j);
  }

  // The tick count a step reads, where it reads one.
  function Clock(step: Step): nat {
    match step
    case AfterDisconnect(_, now) => now
    case WriteFirst(_, now) => now
    case Exchange(_, now, _, _) => now
    case PollOnce(_, now) => now
    case _ => 1
  }

  // ----- Drafts -----

  // No step lowers a request counter, and the snapshot asked for changes only with a newer request.
  ghost predicate NoRequestLost(a: Settings, b: Settings) {
    && a.profileRequest <= b.profileRequest && a.snapshotRequest <= b.snapshotRequest
    && (a.snapshotRequest == b.snapshotRequest ==> a.snapshotId == b.snapshotId)
  }

  lemma StepLosesNothing(s: State, step: Step)
    requires Enabled(s, step)
    ensures NoRequestLost(s.current, Next(s, step).current)
  {
  }

  // Over any run, whatever drafts are published.
  lemma {:induction false} NothingLost(s: State, steps: seq<Step>)
    requires Possible(s, steps)
    ensures NoRequestLost(s.current, Run(s, steps).current)
    decreases |steps|
  {
    if steps != [] {
      StepLosesNothing(s, steps[0]);
      NothingLost(Next(s, steps[0]), steps[1..]);
    }
  }

  // Publishing leaves the connection state alone and takes everything else from the draft.
  lemma PublishKeepsConnection(current: Settings, draft: Settings)
    ensures
      var now := Published(current, draft);
      && now.enabled == current.enabled && now.temporary == draft.temporary && now.rest == draft.rest
      && NoRequestLost(current, now)
      && draft.profileRequest <= now.profileRequest && draft.snapshotRequest <= now.snapshotRequest
  {
  }

  // ----- Temporary camera requests -----

  // A Disconnect, a Connect that takes effect, and a worker that begins a connection by itself.
  predicate Drops(s: State, step: Step) {
    || step.PressDisconnect? || Connects(s, step)
    || (step.Authorized? && !s.disconnected && !s.requested && s.current.profileRequest != NO_PROFILE_REQUESTS_LEFT)
  }

  predicate Touches(s: State, step: Step) {
    step.PublishDraft? || Drops(s, step)
  }

  lemma StepRequests(s: State, step: Step)
    requires Enabled(s, step)
    ensures Next(s, step).current.temporary ==
      if step.PublishDraft? then step.draft.temporary else if Drops(s, step) then 0 else s.current.temporary
  {
  }

  // Step i is the last before step k that published a draft or dropped the requests.
  ghost predicate LastTouch(s: State, steps: seq<Step>, k: nat, i: nat)
    requires Possible(s, steps) && k <= |steps|
  {
    i < k && Touches(Before(s, steps, i), steps[i]) && forall j :: i < j < k ==> !Touches(Before(s, steps, j), steps[j])
  }

  ghost predicate Untouched(s: State, steps: seq<Step>, k: nat)
    requires Possible(s, steps) && k <= |steps|
  {
    forall j :: 0 <= j < k ==> !Touches(Before(s, steps, j), steps[j])
  }

  predicate Asks(step: Step) {
    step.PublishDraft? && step.draft.temporary != 0
  }

  // After any k steps there are temporary requests exactly if the last of those steps to touch them
  // published a draft with some, or none touched them and there were some at the start.
  lemma {:induction false} RequestsExactly(s: State, steps: seq<Step>, k: nat)
    requires Possible(s, steps) && k <= |steps|
    ensures Before(s, steps, k).current.temporary != 0 <==>
      ((exists i: nat :: LastTouch(s, steps, k, i) && Asks(steps[i]))
        || (Untouched(s, steps, k) && s.current.temporary != 0))
    decreases k
  {
    if k == 0 {
      assert steps[..0] == [];
    } else {
      var t, step := Before(s, steps, k - 1), steps[k - 1];
      RequestsExactly(s, steps, k - 1);
      BeforeNext(s, steps, k - 1);
      StepRequests(t, step);
      hide Next, Enabled, Before, Touches;
      if Touches(t, step) {
        assert LastTouch(s, steps, k, k - 1);
        assert forall i: nat :: LastTouch(s, steps, k, i) ==> i == k - 1;
      } else {
        assert forall i: nat :: LastTouch(s, steps, k, i) <==> LastTouch(s, steps, k - 1, i);
      }
    }
  }

  // A draft copied before a Disconnect and published after it does bring its requests back, though
  // not the connection.
  lemma StaleDraftRestoresRequests(s: State, draft: Settings)
    requires s.window == Queue.NoCommand && draft == s.current && draft.temporary != 0
    ensures
      var steps := [PressDisconnect(false), QueueCommand, PublishDraft(draft)];
      && Possible(s, steps) && Possible(s, steps[..2]) && Run(s, steps[..2]).current.temporary == 0
      && Run(s, steps).current.temporary == draft.temporary && !Run(s, steps).current.enabled
  {
    var s1 := Next(s, PressDisconnect(false));
    var s2 := Next(s1, QueueCommand);
    Ended(Next(s2, PublishDraft(draft)));
    Led(s2, PublishDraft(draft), []);
    Led(s1, QueueCommand, [PublishDraft(draft)]);
    Led(s, PressDisconnect(false), [QueueCommand] + [PublishDraft(draft)]);
    Ended(s2);
    Led(s1, QueueCommand, []);
    Led(s, PressDisconnect(false), [QueueCommand]);
    assert [PublishDraft(draft)] == [PublishDraft(draft)] + [];
    var steps := [PressDisconnect(false), QueueCommand, PublishDraft(draft)];
    assert steps == [PressDisconnect(false)] + ([QueueCommand] + [PublishDraft(draft)]);
    assert steps[..2] == [PressDisconnect(false)] + [QueueCommand];
  }
}
