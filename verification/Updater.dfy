/** The updater's request handles: stop() on the owner's thread against the download loop on the worker's.

    Steps are the sections under the request lock and the single calls between them; what WinHTTP
    answers and whether the deadline has passed comes with the step. */
module Updater {
  const MAX_REDIRECTS: nat := 5
  const CHUNK: nat := 65536
  const MAX_URL: nat := 16384
  const HTTPS_PORT: nat := 443
  const TRUSTED_HOSTS: seq<string> :=
    ["api.github.com", "github.com", "objects.githubusercontent.com", "release-assets.githubusercontent.com"]

  // A URL as WinHttpCrackUrl takes it apart. The host is in lower case.
  datatype Url = Malformed | Url(length: nat, clean: bool, secure: bool, port: nat, user: bool, host: string,
                                 path: string)

  datatype Location = Absolute(url: Url) | Relative(path: string)

  predicate Trusted(url: Url) {
    && url.Url? && 0 < url.length <= MAX_URL && url.clean && url.secure && url.port == HTTPS_PORT && !url.user
    && url.host in TRUSTED_HOSTS && url.path != "" && url.path[0] == '/'
  }

  // A relative location stays on the current host.
  function Resolved(current: Url, location: Location): Url {
    if location.Absolute? then location.url
    else if !current.Url? || |location.path| < 2 || location.path[0] != '/' || location.path[1] == '/' then Malformed
    else Url(|"https://"| + |current.host| + |location.path|, !HasSpecial(location.path), true, HTTPS_PORT, false,
      current.host, location.path)
  }

  predicate HasSpecial(text: string) {
    exists i :: 0 <= i < |text| && text[i] in ['#', ' ', '\t', '\r', '\n']
  }

  // ----- State -----

  datatype Place =
    | Finished    // no worker, or its thread is over
    | Between     // between two downloads of a check
    | Looping     // at the top of the redirect loop
    | Connecting
    | Opening
    | Tracking
    | Sending
    | Reading
    | Untracking
    | Closing     // closing the connection

  datatype Worker = Worker(
    place: Place, url: Url, redirect: nat, limit: nat, total: nat, stored: nat, requests: nat,
    connection: nat, request: nat, ok: bool, again: bool, next: Url)

  // Where the owner's thread is in stop().
  datatype Owner = Free | Locking | Joining

  // Handles are numbered from 1; 0 is null.
  datatype State = State(
    cancelled: bool, tracked: nat, owner: Owner, worker: Worker,
    // history
    stopped: bool,             // stop() returned and no check began since
    last: nat,                 // the last handle number given out
    opens: set<nat>,
    closes: multiset<nat>,
    requested: seq<Url>,       // the URL of every request handle opened
    workerSteps: nat)          // the worker's steps since cancelled was last set

  datatype Step =
    // owner
    | Begin
    | SetCancelled
    | CloseTracked
    | Join
    // worker
    | Download(url: Url, limit: nat)
    | EndCheck
    | CheckUrl(late: bool)
    | Connect(given: bool)
    | OpenRequest(given: bool)
    | Track
    | Receive(answered: bool, status: nat, located: bool, location: Location, lengthFits: bool)
    | Read(late: bool, answered: bool, bytes: nat, written: bool)
    | Untrack
    | CloseConnection

  predicate OwnerStep(step: Step) {
    step.Begin? || step.SetCancelled? || step.CloseTracked? || step.Join?
  }

  const IDLE_WORKER := Worker(Finished, Malformed, 0, 0, 0, 0, 0, 0, 0, true, false, Malformed)

  const INITIAL := State(false, 0, Free, IDLE_WORKER, false, 0, {}, multiset{}, [], 0)

  predicate Enabled(s: State, step: Step) {
    var w := s.worker;
    match step
    case Begin => s.owner == Free && w.place == Finished
    case SetCancelled => s.owner == Free
    case CloseTracked => s.owner == Locking
    case Join => s.owner == Joining && w.place == Finished
    case Download(_, _) => w.place == Between && w.ok
    case EndCheck => w.place == Between
    case CheckUrl(_) => w.place == Looping
    case Connect(_) => w.place == Connecting
    case OpenRequest(_) => w.place == Opening
    case Track => w.place == Tracking
    case Receive(_, _, _, _, _) => w.place == Sending
    case Read(_, _, bytes, _) => w.place == Reading && bytes <= CHUNK
    case Untrack => w.place == Untracking
    case CloseConnection => w.place == Closing
  }

  function Closed(s: State, handle: nat): State {
    s.(closes := s.closes + multiset{handle})
  }

  function Opened(s: State): State {
    s.(last := s.last + 1, opens := s.opens + {s.last + 1})
  }

  // download returns.
  function Returned(w: Worker, ok: bool): Worker {
    w.(place := Between, ok := ok, connection := 0, request := 0)
  }

  // A reply is followed, read or given up.
  function Received(w: Worker, answered: bool, status: nat, located: bool, location: Location,
                    lengthFits: bool): Worker {
    if answered && status in {301, 302, 303, 307, 308} then
      w.(place := Untracking, ok := false, again := located
        && w.redirect < MAX_REDIRECTS, next := Resolved(w.url, location))
    else if answered && status == 200 && lengthFits then w.(place := Reading, ok := true, again := false)
    else w.(place := Untracking, ok := false, again := false)
  }

  function WasRead(w: Worker, stop: bool, bytes: nat, written: bool): Worker {
    if stop then w.(place := Untracking, ok := false)
    else if bytes == 0 then w.(place := Untracking)
    else if w.total + bytes > w.limit then w.(place := Untracking, ok := false)
    else if !written then w.(place := Untracking, ok := false, total := w.total + bytes)
    else w.(total := w.total + bytes, stored := w.stored + bytes)
  }

  function OwnerNext(s: State, step: Step): State
    requires OwnerStep(step)
  {
    match step
    case Begin => s.(cancelled := false, stopped := false, worker := IDLE_WORKER.(place := Between))
    case SetCancelled => s.(cancelled := true, owner := Locking, workerSteps := if s.cancelled then s.workerSteps
      else 0)
    case CloseTracked => (if s.tracked != 0 then Closed(s, s.tracked) else s).(tracked := 0, owner := Joining)
    case Join => s.(owner := Free, stopped := true)
  }

  function WorkerNext(s: State, step: Step): State
    requires !OwnerStep(step)
  {
    var w := s.worker;
    match step
    case Download(url, limit) =>
      s.(worker := w.(place := Looping, url := url, redirect := 0, limit := limit, total := 0, stored := 0, requests :=
        0))
    case EndCheck => s.(worker := w.(place := Finished))
    case CheckUrl(late) =>
      s.(worker := if w.redirect > MAX_REDIRECTS || s.cancelled || late || !Trusted(w.url) then Returned(w, false)
                   else w.(place := Connecting))
    case Connect(given) =>
      if !given then s.(worker := Returned(w, false))
      else Opened(s).(worker := w.(place := Opening, connection := s.last + 1))
    case OpenRequest(given) =>
      if !given then s.(worker := w.(place := Closing, ok := false, again := false))
      else Opened(s).(worker := w.(place := Tracking, request := s.last + 1, requests := w.requests + 1),
                      requested := s.requested + [w.url])
    case Track =>
      if s.cancelled then Closed(s, w.request).(worker := w.(place := Closing, ok := false, again := false))
      else s.(tracked := w.request, worker := w.(place := Sending))
    case Receive(answered, status, located, location, lengthFits) =>
      s.(worker := Received(w, answered, status, located, location, lengthFits))
    case Read(late, answered, bytes, written) =>
      s.(worker := WasRead(w, s.cancelled || late || !answered, bytes, written))
    case Untrack =>
      if s.tracked == 0 then s.(worker := w.(place := Closing, ok := false))
      else Closed(s, s.tracked).(tracked := 0, worker := w.(place := Closing))
    case CloseConnection =>
      Closed(s, w.connection).(worker :=
        if w.again then w.(place := Looping, redirect := w.redirect + 1, url := w.next, connection := 0, request := 0)
        else Returned(w, w.ok && w.total > 0))
  }

  function Next(s: State, step: Step): State {
    if OwnerStep(step) then OwnerNext(s, step)
    else
      var t := WorkerNext(s, step);
      t.(workerSteps := if s.cancelled then s.workerSteps + 1 else 0)
  }

  predicate Possible(s: State, steps: seq<Step>)
    decreases |steps|
  {
    steps == [] || (Enabled(s, steps[0]) && Possible(Next(s, steps[0]), steps[1..]))
  }

  function Run(s: State, steps: seq<Step>): State
    requires Possible(s, steps)
    decreases |steps|
  {
    if steps == [] then s else Run(Next(s, steps[0]), steps[1..])
  }

  // ----- Handles -----

  // The handle, where there is one.
  function Only(handle: nat, held: bool): set<nat> {
    if held then {handle} else {}
  }

  predicate WithConnection(place: Place) {
    place in {Opening, Tracking, Sending, Reading, Untracking, Closing}
  }

  predicate Following(place: Place) {
    place in {Sending, Reading, Untracking}
  }

  predicate Requesting(place: Place) {
    place == Tracking || Following(place)
  }

  // The handles that must be open: the worker's connection, its request before it is tracked, and the tracked one.
  function Held(s: State): set<nat> {
    Only(s.worker.connection, WithConnection(s.worker.place)) + Only(s.worker.request, s.worker.place == Tracking)
    + Only(s.tracked, s.tracked != 0)
  }

  ghost predicate Numbered(s: State) {
    && (forall h :: h in s.opens ==> 0 < h <= s.last)
    && (forall h :: h in s.closes ==> h in s.opens)
    && (WithConnection(s.worker.place) ==> s.worker.connection in s.opens)
    && (Requesting(s.worker.place) ==> s.worker.request in s.opens && s.worker.request != s.worker.connection)
    && (s.tracked != 0 ==> Following(s.worker.place) && s.tracked == s.worker.request)
  }

  // Every handle opened was closed once, unless it is held, and those were not closed.
  ghost predicate Balanced(s: State) {
    && (forall h :: h in Held(s) ==> h in s.opens)
    && (forall h :: h in s.opens ==> s.closes[h] == if h in Held(s) then 0 else 1)
  }

  // Past its locked section, stop() has left nothing tracked and nothing will be.
  ghost predicate Silenced(s: State) {
    && (s.owner == Joining ==> s.cancelled && s.tracked == 0)
    && (s.owner == Locking ==> s.cancelled)
    && (s.stopped ==> s.worker.place == Finished)
    && (s.cancelled && s.owner == Free ==> s.worker.place == Finished)
  }

  // A download asks for trusted URLs only, at most six, and keeps to its limit.
  ghost predicate Modest(s: State) {
    var w := s.worker;
    && (forall url :: url in s.requested ==> Trusted(url))
    && (w.place in {Connecting, Opening} ==> Trusted(w.url))
    && w.total <= w.limit && w.stored <= w.total
    && (w.place == Reading ==> w.ok && !w.again)
    && (w.place in {Reading, Untracking, Closing} && w.ok ==> w.stored == w.total)
    && (w.place in {Connecting, Opening, Tracking, Sending, Reading} ==> w.redirect <= MAX_REDIRECTS)
    && (w.place in {Untracking, Closing} && w.again ==> w.redirect < MAX_REDIRECTS && !w.ok && w.total == 0)
    && (w.place in {Looping, Connecting, Opening, Tracking, Sending} ==> w.total == 0)
    && w.redirect <= MAX_REDIRECTS && w.requests <= w.redirect + 1
    && (w.place in {Looping, Connecting, Opening} ==> w.requests <= w.redirect)
    && (w.place == Between && w.total > 0 && w.ok ==> w.stored == w.total)
  }

  ghost predicate Good(s: State) {
    Numbered(s) && Balanced(s) && Silenced(s) && Modest(s)
  }

  lemma OwnerKeepsGood(s: State, step: Step)
    requires Good(s) && Enabled(s, step) && OwnerStep(step)
    ensures Good(Next(s, step))
  {
  }

  // The worker's steps that open or close no handle.
  predicate Quiet(step: Step) {
    step.Download? || step.EndCheck? || step.CheckUrl? || step.Receive? || step.Read?
  }

  lemma QuietKeepsHandles(s: State, step: Step)
    requires Good(s) && Enabled(s, step) && Quiet(step)
    ensures
      var t := Next(s, step);
      && t.opens == s.opens && t.closes == s.closes && t.last == s.last && t.tracked == s.tracked && t.owner == s.owner
      && t.cancelled == s.cancelled && t.stopped == s.stopped
      && t.worker.connection == (if WithConnection(t.worker.place) then s.worker.connection else t.worker.connection)
      && WithConnection(t.worker.place) == WithConnection(s.worker.place)
      && Requesting(t.worker.place) == Requesting(s.worker.place)
        && Following(t.worker.place) == Following(s.worker.place)
      && t.worker.request == (if Requesting(t.worker.place) then s.worker.request else t.worker.request)
      && (t.worker.place == Tracking <==> s.worker.place == Tracking)
      && (s.worker.place == Finished <==> t.worker.place == Finished && !step.EndCheck?)
  {
    hide Trusted, Resolved;
  }

  lemma QuietKeepsGood(s: State, step: Step)
    requires Good(s) && Enabled(s, step) && Quiet(step)
    ensures Numbered(Next(s, step)) && Silenced(Next(s, step)) && Balanced(Next(s, step))
  {
    QuietKeepsHandles(s, step);
    assert Held(Next(s, step)) == Held(s);
    hide Next, Modest;
  }

  lemma ConnectKeepsGood(s: State, given: bool)
    requires Good(s) && Enabled(s, Connect(given))
    ensures
      var t := Next(s, Connect(given));
      Numbered(t) && Silenced(t) && Balanced(t)
  {
    hide Modest;
  }

  lemma OpenRequestKeepsGood(s: State, given: bool)
    requires Good(s) && Enabled(s, OpenRequest(given))
    ensures
      var t := Next(s, OpenRequest(given));
      Numbered(t) && Silenced(t) && Balanced(t)
  {
    hide Modest;
  }

  lemma TrackKeepsGood(s: State)
    requires Good(s) && Enabled(s, Track)
    ensures Numbered(Next(s, Track)) && Silenced(Next(s, Track)) && Balanced(Next(s, Track))
  {
    hide Modest;
  }

  lemma UntrackKeepsGood(s: State)
    requires Good(s) && Enabled(s, Untrack)
    ensures Numbered(Next(s, Untrack)) && Silenced(Next(s, Untrack)) && Balanced(Next(s, Untrack))
  {
    hide Modest;
  }

  lemma CloseKeepsGood(s: State)
    requires Good(s) && Enabled(s, CloseConnection)
    ensures
      var t := Next(s, CloseConnection);
      Numbered(t) && Silenced(t) && Balanced(t)
  {
    hide Modest;
  }

  lemma WorkerKeepsHandles(s: State, step: Step)
    requires Good(s) && Enabled(s, step) && !OwnerStep(step)
    ensures Numbered(Next(s, step)) && Silenced(Next(s, step)) && Balanced(Next(s, step))
  {
    hide Good, Next, Enabled, Numbered, Silenced, Balanced;
    if step.Connect? {
      ConnectKeepsGood(s, step.given);
    } else if step.OpenRequest? {
      OpenRequestKeepsGood(s, step.given);
    } else if step.Track? {
      TrackKeepsGood(s);
    } else if step.Untrack? {
      UntrackKeepsGood(s);
    } else if step.CloseConnection? {
      CloseKeepsGood(s);
    } else {
      QuietKeepsGood(s, step);
    }
  }

  lemma QuietKeepsModest(s: State, step: Step)
    requires Modest(s) && Enabled(s, step) && Quiet(step)
    ensures Modest(Next(s, step))
  {
    hide Trusted, Resolved;
  }

  lemma OpenRequestKeepsModest(s: State, given: bool)
    requires Modest(s) && Enabled(s, OpenRequest(given))
    ensures Modest(Next(s, OpenRequest(given)))
  {
    hide Trusted, Resolved;
  }

  lemma CallsKeepModest(s: State, step: Step)
    requires Modest(s) && Enabled(s, step) && (step.Connect? || step.Track? || step.Untrack? || step.CloseConnection?)
    ensures Modest(Next(s, step))
  {
    hide Trusted, Resolved;
  }

  lemma WorkerKeepsModest(s: State, step: Step)
    requires Good(s) && Enabled(s, step) && !OwnerStep(step)
    ensures Modest(Next(s, step))
  {
    hide Next, Enabled, Modest;
    if Quiet(step) {
      QuietKeepsModest(s, step);
    } else if step.OpenRequest? {
      OpenRequestKeepsModest(s, step.given);
    } else {
      CallsKeepModest(s, step);
    }
  }

  lemma {:induction false} RunKeepsGood(s: State, steps: seq<Step>)
    requires Good(s) && Possible(s, steps)
    ensures Good(Run(s, steps))
    decreases |steps|
  {
    hide Good, Next, Enabled;
    if steps != [] {
      if OwnerStep(steps[0]) {
        OwnerKeepsGood(s, steps[0]);
      } else {
        WorkerKeepsHandles(s, steps[0]);
        WorkerKeepsModest(s, steps[0]);
        GoodFrom(Next(s, steps[0]));
      }
      RunKeepsGood(Next(s, steps[0]), steps[1..]);
    }
  }

  lemma GoodFrom(s: State)
    requires Numbered(s) && Balanced(s) && Silenced(s) && Modest(s)
    ensures Good(s)
  {
  }

  // Under every interleaving: no handle is closed twice, at most one request is tracked and it is
  // open, and with no download under way every handle was closed exactly once.
  lemma HandlesClosedOnce(steps: seq<Step>)
    requires Possible(INITIAL, steps)
    ensures
      var s := Run(INITIAL, steps);
      && (forall h :: s.closes[h] <= 1)
      && (s.tracked != 0 ==> s.tracked in s.opens && s.closes[s.tracked] == 0 && s.tracked == s.worker.request)
      && (s.worker.place in {Finished, Between, Looping} ==> forall h :: h in s.opens ==> s.closes[h] == 1)
  {
    RunKeepsGood(INITIAL, steps);
    var s := Run(INITIAL, steps);
    forall h ensures s.closes[h] <= 1 {
      if h !in s.opens {
        assert h !in s.closes;
      }
    }
  }

  // Once stop() has returned, until the next check, no handle is open and the worker is over.
  lemma NothingOpenAfterStop(steps: seq<Step>)
    requires Possible(INITIAL, steps) && Run(INITIAL, steps).stopped
    ensures
      var s := Run(INITIAL, steps);
      s.tracked == 0 && s.worker.place == Finished && forall h :: h in s.opens ==> s.closes[h] == 1
  {
    RunKeepsGood(INITIAL, steps);
  }

  // Every request went to a trusted host over HTTPS, whatever was redirected where; a download makes
  // at most six and takes no more than its limit, and a success stored every byte it counted.
  lemma DownloadsStayModest(steps: seq<Step>)
    requires Possible(INITIAL, steps)
    ensures
      var s := Run(INITIAL, steps);
      && (forall url :: url in s.requested ==> Trusted(url))
      && s.worker.requests <= 6 && s.worker.total <= s.worker.limit
      && (s.worker.place == Between && s.worker.ok && s.worker.total > 0 ==> s.worker.stored == s.worker.total)
  {
    RunKeepsGood(INITIAL, steps);
  }

  // ----- The join ends -----

  // The most steps the worker can still take once cancelled.
  function Left(w: Worker): nat {
    match w.place
    case Finished => 0
    case Between => if w.ok then 3 else 1
    case Looping => 2
    case Closing => 4
    case Untracking => 5
    case Reading => 6
    case Sending => 7
    case Tracking => 5
    case Opening => 6
    case Connecting => 7
  }

  lemma CancelledStepsRunOut(s: State, step: Step)
    requires s.cancelled && Enabled(s, step) && !OwnerStep(step)
    ensures Left(Next(s, step).worker) < Left(s.worker)
  {
    hide Trusted, Resolved;
  }

  ghost predicate RunsOut(s: State) {
    s.cancelled ==> s.workerSteps + Left(s.worker) <= 7
  }

  lemma StepRunsOut(s: State, step: Step)
    requires RunsOut(s) && Enabled(s, step)
    ensures RunsOut(Next(s, step))
  {
    if !OwnerStep(step) && s.cancelled {
      CancelledStepsRunOut(s, step);
    }
  }

  // From the moment stop() sets the flag the worker takes at most seven more steps, so the join ends
  // as soon as those calls return.
  lemma {:induction false} StopIsPrompt(s: State, steps: seq<Step>)
    requires RunsOut(s) && Possible(s, steps)
    ensures RunsOut(Run(s, steps)) && (Run(s, steps).cancelled ==> Run(s, steps).workerSteps <= 7)
    decreases |steps|
  {
    hide Next, Enabled, Left;
    if steps != [] {
      StepRunsOut(s, steps[0]);
      StopIsPrompt(Next(s, steps[0]), steps[1..]);
    }
  }

  // While it follows a request the worker holds an open handle exactly until stop() closes it, so the
  // call it makes next may name a closed handle, as the forced end of a pending call intends.
  lemma RequestOpenUntilStop(steps: seq<Step>)
    requires Possible(INITIAL, steps) && Following(Run(INITIAL, steps).worker.place)
    ensures
      var s := Run(INITIAL, steps);
      s.closes[s.worker.request] == 0 <==> s.tracked != 0
  {
    RunKeepsGood(INITIAL, steps);
  }

  // A run in which stop() closes the request the worker has just begun to send: the handle the worker's
  // next call names is closed.
  lemma StopClosesUnderneath(url: Url, limit: nat)
    requires Trusted(url)
    ensures
      var steps := [Begin, Download(url, limit), CheckUrl(false), Connect(true), OpenRequest(true), Track, SetCancelled,
        CloseTracked];
      && Possible(INITIAL, steps)
      && var s := Run(INITIAL, steps);
         s.worker.place == Sending && s.tracked == 0 && s.closes[s.worker.request] == 1
  {
    var s1 := Next(INITIAL, Begin);
    var s2 := Next(s1, Download(url, limit));
    var s3 := Next(s2, CheckUrl(false));
    var s4 := Next(s3, Connect(true));
    var s5 := Next(s4, OpenRequest(true));
    var s6 := Next(s5, Track);
    var s7 := Next(s6, SetCancelled);
    var s8 := Next(s7, CloseTracked);
    assert s8.worker.place == Sending && s8.tracked == 0 && s8.worker.request == 2 && s8.closes == multiset{2};
    Continues(s7, CloseTracked, []);
    Continues(s6, SetCancelled, [CloseTracked]);
    Continues(s5, Track, [SetCancelled, CloseTracked]);
    Continues(s4, OpenRequest(true), [Track, SetCancelled, CloseTracked]);
    Continues(s3, Connect(true), [OpenRequest(true), Track, SetCancelled, CloseTracked]);
    Continues(s2, CheckUrl(false), [Connect(true), OpenRequest(true), Track, SetCancelled, CloseTracked]);
    Continues(s1, Download(url, limit),
      [CheckUrl(false), Connect(true), OpenRequest(true), Track, SetCancelled, CloseTracked]);
    Continues(INITIAL, Begin,
      [Download(url, limit), CheckUrl(false), Connect(true), OpenRequest(true), Track, SetCancelled, CloseTracked]);
  }

  lemma Continues(s: State, step: Step, rest: seq<Step>)
    requires Enabled(s, step) && Possible(Next(s, step), rest)
    ensures Possible(s, [step] + rest) && Run(s, [step] + rest) == Run(Next(s, step), rest)
  {
  }
}
