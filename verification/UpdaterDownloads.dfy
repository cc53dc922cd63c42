/** The downloads of the updater: the order of the worker's steps, what each of its fields remembers, and when
    a download succeeds. The tables are written out here, in numbers, apart from the machine. */
module UpdaterDownloads {
  import opened Updater

  // ----- Addresses -----

  // HTTPS to port 443 of GitHub's hosts, without a user name, a fragment or white space.
  lemma TrustedExactly(url: Url)
    ensures Trusted(url) <==>
      && url.Url? && 1 <= url.length <= 16384 && url.clean && url.secure && url.port == 443 && !url.user
      && (url.host == "github.com" || url.host == "api.github.com" || url.host == "objects.githubusercontent.com"
          || url.host == "release-assets.githubusercontent.com")
      && url.path != "" && url.path[0] == '/'
  {
  }

  // A path that begins with one slash stays on the host; anything else that is not a whole URL is no address.
  function Pointed(current: Url, location: Location): Url {
    match location
    case Absolute(url) => url
    case Relative(path) =>
      if current.Url? && |path| >= 2 && path[0] == '/' && path[1] != '/' then
        Url(8 + |current.host| + |path|, forall i :: 0 <= i < |path| ==> path[i] !in "# \t\r\n", true, 443, false,
          current.host, path)
      else Malformed
  }

  lemma TargetIs(current: Url, location: Location)
    ensures Resolved(current, location) == Pointed(current, location)
  {
    if location.Relative? {
      Special(location.path);
    }
  }

  lemma Special(path: string)
    ensures HasSpecial(path) <==> exists i :: 0 <= i < |path| && path[i] in "# \t\r\n"
  {
    assert forall c: char :: c in "# \t\r\n" <==> c in ['#', ' ', '\t', '\r', '\n'];
  }

  // ----- The state at a step of a run -----

  lemma {:induction false} Prefix(s: State, steps: seq<Step>, k: nat)
    requires Possible(s, steps) && k <= |steps|
    ensures Possible(s, steps[..k])
    decreases |steps|
  {
    hide Next, Enabled;
    if k > 0 {
      Prefix(Next(s, steps[0]), steps[1..], k - 1);
      assert steps[..k][1..] == steps[1..][..k - 1];
    }
  }

  function Before(s: State, steps: seq<Step>, k: nat): State
    requires Possible(s, steps) && k <= |steps|
  {
    Prefix(s, steps, k);
    Run(s, steps[..k])
  }

  lemma {:induction false} BeforeNext(s: State, steps: seq<Step>, k: nat)
    requires Possible(s, steps) && k < |steps|
    ensures Enabled(Before(s, steps, k), steps[k])
    ensures Before(s, steps, k + 1) == Next(Before(s, steps, k), steps[k])
    decreases |steps|
  {
    hide Next, Enabled;
    var first, rest := steps[0], steps[1..];
    Prefix(s, steps, k);
    Prefix(s, steps, k + 1);
    if k == 0 {
      assert steps[..0] == [];
      assert steps[..1][1..] == [] && steps[..1][0] == first;
      assert Run(s, steps[..1]) == Run(Next(s, first), []);
    } else {
      BeforeNext(Next(s, first), rest, k - 1);
      assert steps[..k][1..] == rest[..k - 1];
      assert steps[..k + 1][1..] == rest[..k];
    }
  }

  lemma AtStart(s: State, steps: seq<Step>)
    requires Possible(s, steps)
    ensures Before(s, steps, 0) == s
  {
    assert steps[..0] == [];
  }

  // ----- What steps do -----

  predicate Redirects(step: Step) {
    && step.Receive? && step.answered
    && (step.status == 301 || step.status == 302 || step.status == 303 || step.status == 307 || step.status == 308)
  }

  // A body follows, and is announced no longer than the limit.
  predicate Answers(step: Step) {
    step.Receive? && step.answered && step.status == 200 && step.lengthFits
  }

  // Some bytes that the limit leaves room for.
  predicate Takes(s: State, step: Step) {
    && step.Read? && !s.cancelled && !step.late && step.answered
    && step.bytes > 0 && s.worker.total + step.bytes <= s.worker.limit
  }

  // The end of the body.
  predicate Finishes(s: State, step: Step) {
    step.Read? && !s.cancelled && !step.late && step.answered && step.bytes == 0
  }

  // Nothing is requested, or it is dropped before it is sent.
  predicate Drops(s: State, step: Step) {
    (step.OpenRequest? && !step.given) || (step.Track? && s.cancelled)
  }

  predicate Refuses(s: State, step: Step) {
    || (step.CheckUrl? && (s.cancelled || step.late || s.worker.redirect > 5 || !Trusted(s.worker.url)))
    || (step.Connect? && !step.given)
  }

  predicate Fails(s: State, step: Step) {
    || Refuses(s, step) || Drops(s, step) || (step.Untrack? && s.tracked == 0)
    || (step.Read? && !Finishes(s, step) && !(Takes(s, step) && step.written))
  }

  predicate GoesOn(s: State, step: Step) {
    step.CloseConnection? && s.worker.again
  }

  predicate Ends(s: State, step: Step) {
    step.CloseConnection? && !s.worker.again
  }

  // ----- The order of the worker's steps -----

  // A check begins the worker's steps.
  predicate OfWorker(step: Step) {
    !OwnerStep(step) || step.Begin?
  }

  predicate Returns(step: Step) {
    step.Download? || step.EndCheck?
  }

  // A read gives 64 KiB at most.
  predicate Chunk(step: Step) {
    step.Read? && step.bytes <= 65536
  }

  // What the worker may do next once it did `step` in state t.
  predicate Follows(t: State, step: Step, next: Step) {
    match step
    case Begin => Returns(next)
    case Download(_, _) => next.CheckUrl?
    case EndCheck => next.Begin?
    case CheckUrl(_) => if Refuses(t, step) then next.EndCheck? else next.Connect?
    case Connect(given) => if given then next.OpenRequest? else next.EndCheck?
    case OpenRequest(given) => if given then next.Track? else next.CloseConnection?
    case Track => if t.cancelled then next.CloseConnection? else next.Receive?
    case Receive(_, _, _, _, _) => if Answers(step) then Chunk(next) else next.Untrack?
    case Read(_, _, _, written) => if Takes(t, step) && written then Chunk(next) else next.Untrack?
    case Untrack => next.CloseConnection?
    case CloseConnection =>
      if t.worker.again then next.CheckUrl? else if t.worker.ok && t.worker.total > 0 then Returns(next)
        else next.EndCheck?
    case _ => true
  }

  // What place a step needs.
  predicate Fits(w: Worker, next: Step) {
    match w.place
    case Finished => next.Begin?
    case Between => next.EndCheck? || (next.Download? && w.ok)
    case Looping => next.CheckUrl?
    case Connecting => next.Connect?
    case Opening => next.OpenRequest?
    case Tracking => next.Track?
    case Sending => next.Receive?
    case Reading => Chunk(next)
    case Untracking => next.Untrack?
    case Closing => next.CloseConnection?
  }

  lemma PlaceAllows(u: State, next: Step)
    requires Enabled(u, next) && OfWorker(next)
    ensures Fits(u.worker, next)
  {
  }

  lemma PlaceAfter(t: State, step: Step)
    requires Enabled(t, step) && OfWorker(step)
    ensures
      var w := Next(t, step).worker;
      match step
      case Begin => w.place == Between
      case Download(_, _) => w.place == Looping
      case EndCheck => w.place == Finished
      case CheckUrl(_) => if Refuses(t, step) then w.place == Between && !w.ok else w.place == Connecting
      case Connect(given) => if given then w.place == Opening else w.place == Between && !w.ok
      case OpenRequest(given) => w.place == if given then Tracking else Closing
      case Track => w.place == if t.cancelled then Closing else Sending
      case Receive(_, _, _, _, _) => w.place == if Answers(step) then Reading else Untracking
      case Read(_, _, _, written) =>
        w.place == if Takes(t, step) && written then t.worker.place else Untracking
      case Untrack => w.place == Closing
      case CloseConnection =>
        if t.worker.again then w.place == Looping
        else w.place == Between && w.ok == (t.worker.ok && t.worker.total > 0)
      case _ => true
  {
    hide Trusted, Resolved;
  }

  lemma Leads(t: State, step: Step, u: State, next: Step)
    requires Enabled(t, step) && OfWorker(step) && u.worker == Next(t, step).worker
    requires Enabled(u, next) && OfWorker(next)
    ensures Follows(t, step, next)
  {
    PlaceAfter(t, step);
    PlaceAllows(t, step);
    hide Next, Trusted;
    PlaceAllows(u, next);
    hide Enabled;
  }

  // Steps i and j are the worker's, and none between them is.
  ghost predicate Consecutive(steps: seq<Step>, i: nat, j: nat) {
    && i < j < |steps| && OfWorker(steps[i]) && OfWorker(steps[j])
    && forall k :: i < k < j ==> !OfWorker(steps[k])
  }

  lemma OwnerKeepsWorker(s: State, step: Step)
    requires Enabled(s, step) && !OfWorker(step)
    ensures Next(s, step).worker == s.worker
  {
  }

  lemma {:induction false} WorkerWaits(s: State, steps: seq<Step>, i: nat, j: nat)
    requires Possible(s, steps) && i <= j <= |steps| && forall k :: i <= k < j ==> !OfWorker(steps[k])
    ensures Before(s, steps, j).worker == Before(s, steps, i).worker
    decreases j - i
  {
    hide Next, Enabled, Before;
    if i < j {
      WorkerWaits(s, steps, i, j - 1);
      BeforeNext(s, steps, j - 1);
      OwnerKeepsWorker(Before(s, steps, j - 1), steps[j - 1]);
    }
  }

  // The worker downloads in the source's order, whatever the owner does in between.
  lemma WorkerOrder(s: State, steps: seq<Step>, i: nat, j: nat)
    requires Possible(s, steps) && Consecutive(steps, i, j)
    ensures Follows(Before(s, steps, i), steps[i], steps[j])
  {
    hide Next, Enabled, Before, Follows, OfWorker;
    BeforeNext(s, steps, i);
    BeforeNext(s, steps, j);
    WorkerWaits(s, steps, i + 1, j);
    Leads(Before(s, steps, i), steps[i], Before(s, steps, j), steps[j]);
  }

  // The worker is never stuck, whatever it is answered, so the owner's join comes to its end; and the owner
  // never waits but for that.
  lemma NeverStuck(s: State, step: Step)
    ensures OfWorker(step) && !step.Begin? && Fits(s.worker, step) ==> Enabled(s, step)
    ensures s.owner == Free ==> Enabled(s, SetCancelled) && (s.worker.place == Finished ==> Enabled(s, Begin))
    ensures s.owner == Locking ==> Enabled(s, CloseTracked)
    ensures s.owner == Joining && s.worker.place == Finished ==> Enabled(s, Join)
  {
  }

  // ----- What the fields remember -----

  ghost predicate LastWrites(s: State, steps: seq<Step>, k: nat, i: nat, writes: (State, Step) -> bool)
    requires Possible(s, steps) && k <= |steps|
  {
    && i < k && writes(Before(s, steps, i), steps[i])
    && forall j :: i < j < k ==> !writes(Before(s, steps, j), steps[j])
  }

  ghost predicate NoneWrites(s: State, steps: seq<Step>, k: nat, writes: (State, Step) -> bool)
    requires Possible(s, steps) && k <= |steps|
  {
    forall j :: 0 <= j < k ==> !writes(Before(s, steps, j), steps[j])
  }

  // After k steps the field is what the last of them to write it made it, or what it was at the start.
  ghost predicate Remembers<T(!new)>(s: State, steps: seq<Step>, k: nat, get: State -> T, writes: (State, Step) -> bool,
                                     value: (State, Step) -> T)
    requires Possible(s, steps) && k <= |steps|
  {
    || (NoneWrites(s, steps, k, writes) && get(Before(s, steps, k)) == get(s))
    || (exists i: nat ::
          LastWrites(s, steps, k, i, writes) && get(Before(s, steps, k)) == value(Before(s, steps, i), steps[i]))
  }

  ghost predicate WritesJust<T(!new)>(get: State -> T, writes: (State, Step) -> bool, value: (State, Step) -> T) {
    forall s, step :: Enabled(s, step) ==>
      get(Next(s, step)) == if writes(s, step) then value(s, step) else get(s)
  }

  lemma {:induction false} LastWriteTells<T(!new)>(s: State, steps: seq<Step>, k: nat, get: State -> T,
                                                   writes: (State, Step) -> bool, value: (State, Step) -> T)
    requires Possible(s, steps) && k <= |steps| && WritesJust(get, writes, value)
    ensures Remembers(s, steps, k, get, writes, value)
    decreases k
  {
    hide Next, Enabled, Before;
    if k == 0 {
      assert Before(s, steps, 0) == s by { AtStart(s, steps); }
    } else {
      LastWriteTells(s, steps, k - 1, get, writes, value);
      BeforeNext(s, steps, k - 1);
      var t, step := Before(s, steps, k - 1), steps[k - 1];
      assert get(Before(s, steps, k)) == if writes(t, step) then value(t, step) else get(t);
      if writes(t, step) {
        assert LastWrites(s, steps, k, k - 1, writes);
      } else if i: nat :| LastWrites(s, steps, k - 1, i, writes) && get(t) == value(Before(s, steps, i), steps[i]) {
        assert LastWrites(s, steps, k, i, writes);
      }
    }
  }

  // Cancelled: from stop() to the next check.

  predicate CancelledOf(s: State) {
    s.cancelled
  }

  predicate WritesCancelled(s: State, step: Step) {
    step.SetCancelled? || step.Begin?
  }

  predicate NewCancelled(s: State, step: Step) {
    step.SetCancelled?
  }

  // Tracked: the request in flight, until it or stop() is over.

  function TrackedOf(s: State): nat {
    s.tracked
  }

  predicate WritesTracked(s: State, step: Step) {
    (step.Track? && !s.cancelled) || step.CloseTracked? || step.Untrack?
  }

  function NewTracked(s: State, step: Step): nat {
    if step.Track? then s.worker.request else 0
  }

  // Address: the URL asked for, or the one redirected to.

  function AddressOf(s: State): Url {
    s.worker.url
  }

  predicate WritesAddress(s: State, step: Step) {
    step.Download? || GoesOn(s, step) || step.Begin?
  }

  function NewAddress(s: State, step: Step): Url {
    if step.Download? then step.url else if step.CloseConnection? then s.worker.next else Malformed
  }

  // Target: where the last redirect points.

  function TargetOf(s: State): Url {
    s.worker.next
  }

  predicate WritesTarget(s: State, step: Step) {
    (step.Receive? && Redirects(step)) || step.Begin?
  }

  function NewTarget(s: State, step: Step): Url {
    if step.Receive? then Pointed(s.worker.url, step.location) else Malformed
  }

  // Again: whether to go on at the target: five times at most.

  predicate AgainOf(s: State) {
    s.worker.again
  }

  predicate WritesAgain(s: State, step: Step) {
    step.Receive? || Drops(s, step) || step.Begin?
  }

  predicate NewAgain(s: State, step: Step) {
    step.Receive? && Redirects(step) && step.located && s.worker.redirect <= 4
  }

  // Redirects: how many were followed.

  function RedirectsOf(s: State): nat {
    s.worker.redirect
  }

  predicate WritesRedirects(s: State, step: Step) {
    step.Download? || GoesOn(s, step) || step.Begin?
  }

  function NewRedirects(s: State, step: Step): nat {
    if step.CloseConnection? then s.worker.redirect + 1 else 0
  }

  // Limit: the most bytes to take.

  function LimitOf(s: State): nat {
    s.worker.limit
  }

  predicate WritesLimit(s: State, step: Step) {
    step.Download? || step.Begin?
  }

  function NewLimit(s: State, step: Step): nat {
    if step.Download? then step.limit else 0
  }

  // Total: the bytes taken.

  function TotalOf(s: State): nat {
    s.worker.total
  }

  predicate WritesTotal(s: State, step: Step) {
    step.Download? || Takes(s, step) || step.Begin?
  }

  function NewTotal(s: State, step: Step): nat {
    if step.Read? then s.worker.total + step.bytes else 0
  }

  // Stored: the bytes stored.

  function StoredOf(s: State): nat {
    s.worker.stored
  }

  predicate WritesStored(s: State, step: Step) {
    step.Download? || (Takes(s, step) && step.written) || step.Begin?
  }

  function NewStored(s: State, step: Step): nat {
    if step.Read? then s.worker.stored + step.bytes else 0
  }

  // Outcome: whether all went well so far.

  predicate OutcomeOf(s: State) {
    s.worker.ok
  }

  predicate WritesOutcome(s: State, step: Step) {
    step.Receive? || Fails(s, step) || Ends(s, step) || step.Begin?
  }

  predicate NewOutcome(s: State, step: Step) {
    step.Begin? || (step.Receive? && Answers(step)) || (Ends(s, step) && s.worker.ok && s.worker.total > 0)
  }

  // Requested: every URL requested.

  function RequestedOf(s: State): seq<Url> {
    s.requested
  }

  predicate WritesRequested(s: State, step: Step) {
    step.OpenRequest? && step.given
  }

  function NewRequested(s: State, step: Step): seq<Url> {
    s.requested + [s.worker.url]
  }

  // ----- Every step does that to every field -----

  ghost predicate StepTells(s: State, step: Step)
    requires Enabled(s, step)
  {
    var t := Next(s, step);
    && CancelledOf(t) == (if WritesCancelled(s, step) then NewCancelled(s, step) else CancelledOf(s))
    && TrackedOf(t) == (if WritesTracked(s, step) then NewTracked(s, step) else TrackedOf(s))
    && AddressOf(t) == (if WritesAddress(s, step) then NewAddress(s, step) else AddressOf(s))
    && TargetOf(t) == (if WritesTarget(s, step) then NewTarget(s, step) else TargetOf(s))
    && AgainOf(t) == (if WritesAgain(s, step) then NewAgain(s, step) else AgainOf(s))
    && RedirectsOf(t) == (if WritesRedirects(s, step) then NewRedirects(s, step) else RedirectsOf(s))
    && LimitOf(t) == (if WritesLimit(s, step) then NewLimit(s, step) else LimitOf(s))
    && TotalOf(t) == (if WritesTotal(s, step) then NewTotal(s, step) else TotalOf(s))
    && StoredOf(t) == (if WritesStored(s, step) then NewStored(s, step) else StoredOf(s))
    && OutcomeOf(t) == (if WritesOutcome(s, step) then NewOutcome(s, step) else OutcomeOf(s))
    && RequestedOf(t) == (if WritesRequested(s, step) then NewRequested(s, step) else RequestedOf(s))
  }

  lemma OwnerTells(s: State, step: Step)
    requires Enabled(s, step) && OwnerStep(step)
    ensures StepTells(s, step)
  {
    hide Trusted, Resolved;
  }

  lemma ReceiveTells(s: State, step: Step)
    requires Enabled(s, step) && step.Receive?
    ensures StepTells(s, step)
  {
    TargetIs(s.worker.url, step.location);
    hide Trusted, Resolved, Pointed;
  }

  lemma ReadTells(s: State, step: Step)
    requires Enabled(s, step) && step.Read?
    ensures StepTells(s, step)
  {
    hide Trusted, Resolved, Pointed;
  }

  lemma OpenTells(s: State, given: bool)
    requires Enabled(s, OpenRequest(given))
    ensures StepTells(s, OpenRequest(given))
  {
    hide Trusted, Resolved, Pointed;
  }

  lemma ConnectTells(s: State, given: bool)
    requires Enabled(s, Connect(given))
    ensures StepTells(s, Connect(given))
  {
    hide Trusted, Resolved, Pointed;
  }

  lemma TrackTells(s: State)
    requires Enabled(s, Track)
    ensures StepTells(s, Track)
  {
    hide Trusted, Resolved, Pointed;
  }

  lemma UntrackTells(s: State)
    requires Enabled(s, Untrack)
    ensures StepTells(s, Untrack)
  {
    hide Trusted, Resolved, Pointed;
  }

  lemma RestTells(s: State, step: Step)
    requires Enabled(s, step) && (step.Download? || step.EndCheck? || step.CheckUrl? || step.CloseConnection?)
    ensures StepTells(s, step)
  {
    hide Trusted, Resolved, Pointed;
  }

  lemma StepTellsAll(s: State, step: Step)
    requires Enabled(s, step)
    ensures StepTells(s, step)
  {
    hide Next, Enabled, StepTells;
    if OwnerStep(step) {
      OwnerTells(s, step);
    } else if step.Receive? {
      ReceiveTells(s, step);
    } else if step.Read? {
      ReadTells(s, step);
    } else if step.OpenRequest? {
      OpenTells(s, step.given);
    } else if step.Connect? {
      ConnectTells(s, step.given);
    } else if step.Track? {
      TrackTells(s);
    } else if step.Untrack? {
      UntrackTells(s);
    } else {
      RestTells(s, step);
    }
  }

  // ----- Over any run -----

  lemma CancelledTells(s: State, steps: seq<Step>, k: nat)
    requires Possible(s, steps) && k <= |steps|
    ensures Remembers(s, steps, k, CancelledOf, WritesCancelled, NewCancelled)
  {
    forall t, step | Enabled(t, step)
      ensures CancelledOf(Next(t, step)) == if WritesCancelled(t, step) then NewCancelled(t, step) else CancelledOf(t)
    {
      StepTellsAll(t, step);
      hide Next, Enabled;
    }
    hide Next, Enabled, Remembers, CancelledOf, WritesCancelled, NewCancelled;
    LastWriteTells(s, steps, k, CancelledOf, WritesCancelled, NewCancelled);
  }

  lemma TrackedTells(s: State, steps: seq<Step>, k: nat)
    requires Possible(s, steps) && k <= |steps|
    ensures Remembers(s, steps, k, TrackedOf, WritesTracked, NewTracked)
  {
    forall t, step | Enabled(t, step)
      ensures TrackedOf(Next(t, step)) == if WritesTracked(t, step) then NewTracked(t, step) else TrackedOf(t)
    {
      StepTellsAll(t, step);
      hide Next, Enabled;
    }
    hide Next, Enabled, Remembers, TrackedOf, WritesTracked, NewTracked;
    LastWriteTells(s, steps, k, TrackedOf, WritesTracked, NewTracked);
  }

  lemma AddressTells(s: State, steps: seq<Step>, k: nat)
    requires Possible(s, steps) && k <= |steps|
    ensures Remembers(s, steps, k, AddressOf, WritesAddress, NewAddress)
  {
    forall t, step | Enabled(t, step)
      ensures AddressOf(Next(t, step)) == if WritesAddress(t, step) then NewAddress(t, step) else AddressOf(t)
    {
      StepTellsAll(t, step);
      hide Next, Enabled;
    }
    hide Next, Enabled, Remembers, AddressOf, WritesAddress, NewAddress;
    LastWriteTells(s, steps, k, AddressOf, WritesAddress, NewAddress);
  }

  lemma TargetTells(s: State, steps: seq<Step>, k: nat)
    requires Possible(s, steps) && k <= |steps|
    ensures Remembers(s, steps, k, TargetOf, WritesTarget, NewTarget)
  {
    forall t, step | Enabled(t, step)
      ensures TargetOf(Next(t, step)) == if WritesTarget(t, step) then NewTarget(t, step) else TargetOf(t)
    {
      StepTellsAll(t, step);
      hide Next, Enabled;
    }
    hide Next, Enabled, Remembers, TargetOf, WritesTarget, NewTarget;
    LastWriteTells(s, steps, k, TargetOf, WritesTarget, NewTarget);
  }

  lemma AgainTells(s: State, steps: seq<Step>, k: nat)
    requires Possible(s, steps) && k <= |steps|
    ensures Remembers(s, steps, k, AgainOf, WritesAgain, NewAgain)
  {
    forall t, step | Enabled(t, step)
      ensures AgainOf(Next(t, step)) == if WritesAgain(t, step) then NewAgain(t, step) else AgainOf(t)
    {
      StepTellsAll(t, step);
      hide Next, Enabled;
    }
    hide Next, Enabled, Remembers, AgainOf, WritesAgain, NewAgain;
    LastWriteTells(s, steps, k, AgainOf, WritesAgain, NewAgain);
  }

  lemma RedirectsTells(s: State, steps: seq<Step>, k: nat)
    requires Possible(s, steps) && k <= |steps|
    ensures Remembers(s, steps, k, RedirectsOf, WritesRedirects, NewRedirects)
  {
    forall t, step | Enabled(t, step)
      ensures RedirectsOf(Next(t, step)) == if WritesRedirects(t, step) then NewRedirects(t, step) else RedirectsOf(t)
    {
      StepTellsAll(t, step);
      hide Next, Enabled;
    }
    hide Next, Enabled, Remembers, RedirectsOf, WritesRedirects, NewRedirects;
    LastWriteTells(s, steps, k, RedirectsOf, WritesRedirects, NewRedirects);
  }

  lemma LimitTells(s: State, steps: seq<Step>, k: nat)
    requires Possible(s, steps) && k <= |steps|
    ensures Remembers(s, steps, k, LimitOf, WritesLimit, NewLimit)
  {
    forall t, step | Enabled(t, step)
      ensures LimitOf(Next(t, step)) == if WritesLimit(t, step) then NewLimit(t, step) else LimitOf(t)
    {
      StepTellsAll(t, step);
      hide Next, Enabled;
    }
    hide Next, Enabled, Remembers, LimitOf, WritesLimit, NewLimit;
    LastWriteTells(s, steps, k, LimitOf, WritesLimit, NewLimit);
  }

  lemma TotalTells(s: State, steps: seq<Step>, k: nat)
    requires Possible(s, steps) && k <= |steps|
    ensures Remembers(s, steps, k, TotalOf, WritesTotal, NewTotal)
  {
    forall t, step | Enabled(t, step)
      ensures TotalOf(Next(t, step)) == if WritesTotal(t, step) then NewTotal(t, step) else TotalOf(t)
    {
      StepTellsAll(t, step);
      hide Next, Enabled;
    }
    hide Next, Enabled, Remembers, TotalOf, WritesTotal, NewTotal;
    LastWriteTells(s, steps, k, TotalOf, WritesTotal, NewTotal);
  }

  lemma StoredTells(s: State, steps: seq<Step>, k: nat)
    requires Possible(s, steps) && k <= |steps|
    ensures Remembers(s, steps, k, StoredOf, WritesStored, NewStored)
  {
    forall t, step | Enabled(t, step)
      ensures StoredOf(Next(t, step)) == if WritesStored(t, step) then NewStored(t, step) else StoredOf(t)
    {
      StepTellsAll(t, step);
      hide Next, Enabled;
    }
    hide Next, Enabled, Remembers, StoredOf, WritesStored, NewStored;
    LastWriteTells(s, steps, k, StoredOf, WritesStored, NewStored);
  }

  lemma OutcomeTells(s: State, steps: seq<Step>, k: nat)
    requires Possible(s, steps) && k <= |steps|
    ensures Remembers(s, steps, k, OutcomeOf, WritesOutcome, NewOutcome)
  {
    forall t, step | Enabled(t, step)
      ensures OutcomeOf(Next(t, step)) == if WritesOutcome(t, step) then NewOutcome(t, step) else OutcomeOf(t)
    {
      StepTellsAll(t, step);
      hide Next, Enabled;
    }
    hide Next, Enabled, Remembers, OutcomeOf, WritesOutcome, NewOutcome;
    LastWriteTells(s, steps, k, OutcomeOf, WritesOutcome, NewOutcome);
  }

  lemma RequestedTells(s: State, steps: seq<Step>, k: nat)
    requires Possible(s, steps) && k <= |steps|
    ensures Remembers(s, steps, k, RequestedOf, WritesRequested, NewRequested)
  {
    forall t, step | Enabled(t, step)
      ensures RequestedOf(Next(t, step)) == if WritesRequested(t, step) then NewRequested(t, step) else RequestedOf(t)
    {
      StepTellsAll(t, step);
      hide Next, Enabled;
    }
    hide Next, Enabled, Remembers, RequestedOf, WritesRequested, NewRequested;
    LastWriteTells(s, steps, k, RequestedOf, WritesRequested, NewRequested);
  }

  // ----- When a download succeeds -----

  lemma GoodAt(steps: seq<Step>, k: nat)
    requires Possible(INITIAL, steps) && k <= |steps|
    ensures Modest(Before(INITIAL, steps, k))
  {
    Prefix(INITIAL, steps, k);
    RunKeepsGood(INITIAL, steps[..k]);
  }

  // The steps after which a request is given up: whether all went well is known then.
  lemma GivesUp(t: State, step: Step)
    requires Modest(t) && Enabled(t, step) && OfWorker(step) && Next(t, step).worker.place == Untracking
    ensures
      var w := Next(t, step).worker;
      && (w.ok <==> Finishes(t, step)) && (w.ok ==> !w.again && w.total == t.worker.total)
  {
    hide Trusted, Resolved;
  }

  lemma PlaceOfUntrack(u: State)
    requires Enabled(u, Untrack)
    ensures u.worker.place == Untracking
  {
  }

  // From one step of the worker to its next one.
  lemma WorkerThen(steps: seq<Step>, i: nat, j: nat)
    requires Possible(INITIAL, steps) && Consecutive(steps, i, j)
    ensures OfWorker(steps[i]) && Enabled(Before(INITIAL, steps, i), steps[i])
    ensures Enabled(Before(INITIAL, steps, j), steps[j])
    ensures Before(INITIAL, steps, j).worker == Next(Before(INITIAL, steps, i), steps[i]).worker
  {
    hide Next, Enabled, Before, OfWorker;
    BeforeNext(INITIAL, steps, i);
    BeforeNext(INITIAL, steps, j);
    WorkerWaits(INITIAL, steps, i + 1, j);
  }

  lemma Concludes(u: State, v: State)
    requires Enabled(u, Untrack) && v.worker == Next(u, Untrack).worker && Enabled(v, CloseConnection)
    requires u.worker.ok ==> !u.worker.again
    ensures
      var w := Next(v, CloseConnection).worker;
      w.place == Between && w.ok <==> u.worker.ok && u.worker.total > 0 && u.tracked != 0
  {
  }

  // A download succeeds exactly when the step before the worker gives up its request saw the end of the body,
  // with neither stop() nor the deadline before it, after some bytes, and stop() has not closed the request.
  lemma SuccessExactly(steps: seq<Step>, i: nat, j: nat, k: nat)
    requires Possible(INITIAL, steps) && Consecutive(steps, i, j) && Consecutive(steps, j, k)
    requires steps[j].Untrack? && steps[k].CloseConnection?
    ensures
      var t, u, w := Before(INITIAL, steps, i), Before(INITIAL, steps, j), Before(INITIAL, steps, k + 1).worker;
      w.place == Between && w.ok <==> Finishes(t, steps[i]) && t.worker.total > 0 && u.tracked != 0
  {
    var t, u, v := Before(INITIAL, steps, i), Before(INITIAL, steps, j), Before(INITIAL, steps, k);
    hide *;
    GoodAt(steps, i);
    WorkerThen(steps, i, j);
    WorkerThen(steps, j, k);
    BeforeNext(INITIAL, steps, k);
    PlaceOfUntrack(u);
    GivesUp(t, steps[i]);
    Concludes(u, v);
  }
}
