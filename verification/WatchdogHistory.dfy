/** The watchdog's few fields against its whole history.

    A run is the sequence of everything that happened to one watchdog. A stall is a predicate of its
    samples and their times alone; recovery and holding also speak of what was decided at earlier events
    of the run. The lemmas show that the few fields decide exactly as these predicates of the run do. */
module WatchdogHistory {
  import opened Common
  import opened Watchdog

  datatype Event = Saw(sample: Sample) | Let

  type Run = seq<Event>

  function Before(run: Run): Run
    requires run != []
  {
    run[..|run| - 1]
  }

  function Last(run: Run): Event
    requires run != []
  {
    run[|run| - 1]
  }

  function Stepped(w: Watch, e: Event): (r: (Watch, Decision))
    requires |w.tripTimes| == HOLD_TRIPS
    ensures |r.0.tripTimes| == HOLD_TRIPS
  {
    match e
    case Saw(s) => Observed(w, s)
    case Let => Released(w)
  }

  // The watchdog after a run.
  function After(run: Run): (w: Watch)
    ensures |w.tripTimes| == HOLD_TRIPS
    decreases |run|
  {
    if run == [] then FRESH else Stepped(After(Before(run)), Last(run)).0
  }

  // What it decided at the last event.
  function Decided(run: Run): Decision
    requires run != []
  {
    Stepped(After(Before(run)), Last(run)).1
  }

  // ----- History -----

  // A positive clock that never goes back.
  ghost predicate Timed(run: Run) {
    && (forall i :: 0 <= i < |run| && run[i].Saw? ==> 0 < run[i].sample.now < WRAP)
    && (forall i, j :: 0 <= i <= j < |run| && run[i].Saw? && run[j].Saw? ==> run[i].sample.now <= run[j].sample.now)
  }

  // The last sample.
  function LastSample(run: Run): Option<Sample>
    decreases |run|
  {
    if run == [] then None else if Last(run).Saw? then Some(Last(run).sample) else LastSample(Before(run))
  }

  // A sample shows progress: the counter it can trust differs from the sample before, or there is no
  // armed sample before.
  predicate Progress(run: Run, s: Sample) {
    var p := LastSample(run);
    p.None? || !p.value.armed || if s.pulseAvailable then s.framePulse != p.value.framePulse
      else s.simFrames != p.value.simFrames
  }

  // From sample i to the end everything was armed and no presentation was seen.
  ghost predicate PulseStill(run: Run, i: nat) {
    && i < |run| && run[i].Saw? && run[i].sample.armed
    && forall j :: i < j < |run| && run[j].Saw? ==>
         run[j].sample.armed && run[j].sample.pulseAvailable && run[j].sample.framePulse == run[i].sample.framePulse
  }

  // From sample i to the end everything was armed and the simulator sent no frame.
  ghost predicate SimStill(run: Run, i: nat) {
    && i < |run| && run[i].Saw? && run[i].sample.armed
    && forall j :: i < j < |run| && run[j].Saw? ==>
      run[j].sample.armed && run[j].sample.simFrames == run[i].sample.simFrames
  }

  ghost predicate PulseQuiet(run: Run, now: nat) {
    exists i: nat :: PulseStill(run, i) && now - run[i].sample.now >= 3000
  }

  ghost predicate SimQuiet(run: Run, now: nat) {
    exists i: nat :: SimStill(run, i) && now - run[i].sample.now >= 3000
  }

  predicate Awaiting(w: Watch) {
    w.tripped && !w.held
  }

  // From sample i to the end: tripped and not held, armed and progressing at every sample.
  ghost predicate Streak(run: Run, i: nat) {
    && i < |run| && run[i].Saw?
    && forall j :: i <= j < |run| && run[j].Saw? ==>
         run[j].sample.armed && Progress(run[..j], run[j].sample) && Awaiting(After(run[..j]))
  }

  ghost predicate Resumed(run: Run, now: nat) {
    exists i: nat :: Streak(run, i) && now - run[i].sample.now >= 5000
  }

  // Whether cameras were wanted when progress was last seen.
  function Wanted(run: Run): bool
    decreases |run|
  {
    if run == [] then false
    else if Last(run).Saw? && Last(run).sample.armed
      && Progress(Before(run), Last(run).sample) then Last(run).sample.camerasWanted
    else Wanted(Before(run))
  }

  // The times of all trips with cameras wanted, oldest first.
  function Trips(run: Run): seq<nat>
    decreases |run|
  {
    if run == [] then []
    else Trips(Before(run)) + if Last(run).Saw? && Decided(run).trip
      && Decided(run).camerasWanted then [Last(run).sample.now] else []
  }

  // ----- The fields tell the history -----

  // Earliest sample from which nothing was presented.
  ghost predicate PulseMark(run: Run, w: Watch) {
    var p := LastSample(run);
    if p.None? || !p.value.armed then w.pulseSince == 0
    else
      && w.lastPulse == p.value.framePulse && w.pulseSince > 0
      && (exists i: nat :: PulseStill(run, i) && run[i].sample.now == w.pulseSince)
      && (forall i: nat :: PulseStill(run, i) ==> run[i].sample.now >= w.pulseSince)
  }

  ghost predicate SimMark(run: Run, w: Watch) {
    var p := LastSample(run);
    if p.None? || !p.value.armed then w.simSince == 0
    else
      && w.lastSim == p.value.simFrames && w.simSince > 0
      && (exists i: nat :: SimStill(run, i) && run[i].sample.now == w.simSince)
      && (forall i: nat :: SimStill(run, i) ==> run[i].sample.now >= w.simSince)
  }

  ghost predicate StreakMark(run: Run, w: Watch) {
    if !Awaiting(w) || w.recoverSince == 0 then w.recoverSince == 0
      && (Awaiting(w) ==> forall i: nat :: !Streak(run, i))
    else
      && (exists i: nat :: Streak(run, i) && run[i].sample.now == w.recoverSince)
      && (forall i: nat :: Streak(run, i) ==> run[i].sample.now >= w.recoverSince)
  }

  lemma {:induction false} StillLast(run: Run, i: nat)
    requires i < |run|
    ensures PulseStill(run, i) ==>
      LastSample(run).Some? && LastSample(run).value.armed
        && LastSample(run).value.framePulse == run[i].sample.framePulse
    ensures SimStill(run, i) ==>
      LastSample(run).Some? && LastSample(run).value.armed && LastSample(run).value.simFrames == run[i].sample.simFrames
    decreases |run|
  {
    if Last(run).Let? && i < |run| - 1 {
      StillLast(Before(run), i);
    }
  }

  // One more event.
  lemma StillGrows(run: Run, i: nat)
    requires run != [] && i < |run| - 1
    ensures PulseStill(run, i) <==> (PulseStill(Before(run), i) && KeepsPulse(Last(run), run[i]))
    ensures SimStill(run, i) <==> (SimStill(Before(run), i) && KeepsSim(Last(run), run[i]))
  {
    var before := Before(run);
    assert forall j :: 0 <= j < |before| ==> run[j] == before[j];
  }

  predicate KeepsPulse(e: Event, from: Event) {
    e.Saw? ==> from.Saw? && e.sample.armed && e.sample.pulseAvailable && e.sample.framePulse == from.sample.framePulse
  }

  predicate KeepsSim(e: Event, from: Event) {
    e.Saw? ==> from.Saw? && e.sample.armed && e.sample.simFrames == from.sample.simFrames
  }

  // What is decided leaves alone what was noticed.
  lemma NoticedStays(w: Watch, s: Sample)
    requires |w.tripTimes| == HOLD_TRIPS && s.armed
    ensures
      var n, t := Noticed(w, s), Observed(w, s).0;
      && t.lastPulse == n.lastPulse && t.pulseSince == n.pulseSince && t.lastSim == n.lastSim
        && t.simSince == n.simSince
      && t.wantedAtProgress == n.wantedAtProgress
  {
    assert |Noticed(w, s).tripTimes| == HOLD_TRIPS;
    hide Noticed, Progresses, MustTrip, CountRecent, Minus, PulseStalled, SimStalled;
  }

  lemma PulseFields(run: Run)
    requires run != []
    ensures
      var w, t, e := After(Before(run)), After(run), Last(run);
      if e.Let? then t.pulseSince == w.pulseSince && t.lastPulse == w.lastPulse
      else if !e.sample.armed then t.pulseSince == 0
      else if PulseAdvances(w, e.sample) || !e.sample.pulseAvailable
      then t.pulseSince == e.sample.now && t.lastPulse == e.sample.framePulse
      else t.pulseSince == w.pulseSince && t.lastPulse == w.lastPulse
  {
    if Last(run).Saw? && Last(run).sample.armed {
      NoticedStays(After(Before(run)), Last(run).sample);
      hide Observed;
    }
  }

  lemma SimFields(run: Run)
    requires run != []
    ensures
      var w, t, e := After(Before(run)), After(run), Last(run);
      if e.Let? then t.simSince == w.simSince && t.lastSim == w.lastSim
      else if !e.sample.armed then t.simSince == 0
      else if SimAdvances(w, e.sample) then t.simSince == e.sample.now && t.lastSim == e.sample.simFrames
      else t.simSince == w.simSince && t.lastSim == w.lastSim
  {
    if Last(run).Saw? && Last(run).sample.armed {
      NoticedStays(After(Before(run)), Last(run).sample);
      hide Observed;
    }
  }

  lemma PulseMarkStep(run: Run)
    requires run != [] && Timed(run) && PulseMark(Before(run), After(Before(run)))
    ensures PulseMark(run, After(run))
  {
    var before, w, n, e := Before(run), After(Before(run)), |run| - 1, Last(run);
    PulseFields(run);
    hide After;
    forall i: nat | i < n ensures PulseStill(run, i) <==> (PulseStill(before, i) && KeepsPulse(e, run[i])) {
      StillGrows(run, i);
    }
    forall i: nat | i < n ensures PulseStill(before, i) ==>
      LastSample(before).Some? && LastSample(before).value.armed
        && LastSample(before).value.framePulse == run[i].sample.framePulse
    {
      StillLast(before, i);
    }
    assert e.Saw? && e.sample.armed ==> PulseStill(run, n);
    if w.pulseSince != 0 && (e.Let? || (e.sample.armed && e.sample.pulseAvailable && !PulseAdvances(w, e.sample))) {
      var i: nat :| PulseStill(before, i) && before[i].sample.now == w.pulseSince;
      assert PulseStill(run, i);
    }
  }

  lemma SimMarkStep(run: Run)
    requires run != [] && Timed(run) && SimMark(Before(run), After(Before(run)))
    ensures SimMark(run, After(run))
  {
    var before, w, n, e := Before(run), After(Before(run)), |run| - 1, Last(run);
    SimFields(run);
    hide After;
    forall i: nat | i < n ensures SimStill(run, i) <==> (SimStill(before, i) && KeepsSim(e, run[i])) {
      StillGrows(run, i);
    }
    forall i: nat | i < n ensures SimStill(before, i) ==>
      LastSample(before).Some? && LastSample(before).value.armed
        && LastSample(before).value.simFrames == run[i].sample.simFrames
    {
      StillLast(before, i);
    }
    assert e.Saw? && e.sample.armed ==> SimStill(run, n);
    if w.simSince != 0 && (e.Let? || (e.sample.armed && !SimAdvances(w, e.sample))) {
      var i: nat :| SimStill(before, i) && before[i].sample.now == w.simSince;
      assert SimStill(run, i);
    }
  }

  // A sample progresses for the fields exactly when it does in the history.
  lemma ProgressAgrees(run: Run, w: Watch, s: Sample)
    requires PulseMark(run, w) && SimMark(run, w)
    ensures Progresses(w, s) == Progress(run, s)
  {
  }

  lemma StreakGrows(run: Run, i: nat)
    requires run != [] && i < |run| - 1
    ensures Streak(run, i) <==> (Streak(Before(run), i) && Continues(run))
  {
    var before := Before(run);
    assert forall j :: 0 <= j < |before| ==> run[j] == before[j] && run[..j] == before[..j];
    assert run[..|run| - 1] == before;
  }

  predicate Continues(run: Run)
    requires run != []
  {
    Last(run).Saw? ==> Last(run).sample.armed && Progress(Before(run), Last(run).sample) && Awaiting(After(Before(run)))
  }

  lemma StreakStarts(run: Run)
    requires run != []
    ensures Streak(run, |run| - 1) <==> (Last(run).Saw? && Continues(run))
  {
    assert run[..|run| - 1] == Before(run);
  }

  lemma StreakFields(run: Run)
    requires run != [] && Last(run).Saw?
    ensures
      var w, t, s := After(Before(run)), After(run), Last(run).sample;
      && (!s.armed ==> t.recoverSince == 0 && t.tripped == w.tripped && t.held == w.held)
      && (s.armed && !w.tripped ==> t.recoverSince == (if t.tripped then 0 else w.recoverSince) && t.held == w.held)
      && (s.armed && w.tripped && (w.held || !Progresses(w, s)) ==>
        t.recoverSince == 0 && t.tripped == w.tripped && t.held == w.held)
      && (s.armed && Awaiting(w) && Progresses(w, s) ==>
            if w.recoverSince == 0 then t.recoverSince == s.now && Awaiting(t)
            else if Minus(s.now, w.recoverSince) < RECOVERY then t.recoverSince == w.recoverSince && Awaiting(t)
            else t.recoverSince == 0 && !Awaiting(t))
  {
  }

  lemma StreaksGrow(run: Run)
    requires run != []
    ensures forall i: nat :: Streak(run, i) <==>
      ((i < |run| - 1 && Streak(Before(run), i) && Continues(run))
        || (i == |run| - 1 && Last(run).Saw? && Continues(run)))
  {
    forall i: nat
      ensures Streak(run, i) <==>
        ((i < |run| - 1 && Streak(Before(run), i) && Continues(run))
          || (i == |run| - 1 && Last(run).Saw? && Continues(run)))
    {
      if i < |run| - 1 {
        StreakGrows(run, i);
      } else if i == |run| - 1 {
        StreakStarts(run);
      }
    }
  }

  lemma StreakMarkLet(run: Run)
    requires run != [] && Last(run).Let? && StreakMark(Before(run), After(Before(run)))
    ensures StreakMark(run, After(run))
  {
    var before, w := Before(run), After(Before(run));
    StreaksGrow(run);
    StreakInside(before);
    assert After(run) == Released(w).0;
    hide After, Streak;
    if Awaiting(w) && w.recoverSince != 0 {
      var i: nat :| Streak(before, i) && before[i].sample.now == w.recoverSince;
      assert Streak(run, i);
    }
  }

  // The watchdog waits and the series goes on.
  lemma StreakMarkGoesOn(run: Run)
    requires run != [] && Timed(run) && Last(run).Saw? && Continues(run) && Awaiting(After(Before(run)))
    requires StreakMark(Before(run), After(Before(run))) && Progresses(After(Before(run)), Last(run).sample)
    ensures StreakMark(run, After(run))
  {
    var before, w, n := Before(run), After(Before(run)), |run| - 1;
    StreaksGrow(run);
    StreakInside(before);
    StreakFields(run);
    hide After, Streak, Progress, Progresses, Continues, Minus;
    if w.recoverSince != 0 {
      var i: nat :| Streak(before, i) && before[i].sample.now == w.recoverSince;
      assert Streak(run, i);
    } else {
      assert Streak(run, n);
    }
  }

  lemma StreakMarkStep(run: Run)
    requires run != [] && Timed(run) && StreakMark(Before(run), After(Before(run)))
    requires PulseMark(Before(run), After(Before(run))) && SimMark(Before(run), After(Before(run)))
    ensures StreakMark(run, After(run))
  {
    var before, w := Before(run), After(Before(run));
    if Last(run).Let? {
      StreakMarkLet(run);
    } else {
      ProgressAgrees(before, w, Last(run).sample);
      if Continues(run) {
        StreakMarkGoesOn(run);
      } else {
        StreaksGrow(run);
        StreakFields(run);
        hide After, Streak, Timed, PulseMark, SimMark;
      }
    }
  }

  lemma StreakInside(run: Run)
    ensures forall i: nat :: Streak(run, i) ==> i < |run| && run[i].Saw?
  {
  }

  lemma WantedStep(run: Run)
    requires run != [] && PulseMark(Before(run), After(Before(run))) && SimMark(Before(run), After(Before(run)))
    requires After(Before(run)).wantedAtProgress == Wanted(Before(run))
    ensures After(run).wantedAtProgress == Wanted(run)
  {
    var w := After(Before(run));
    if Last(run).Saw? && Last(run).sample.armed {
      ProgressAgrees(Before(run), w, Last(run).sample);
      NoticedStays(w, Last(run).sample);
      hide Observed, PulseMark, SimMark, Progress;
    }
  }

  lemma {:induction false} FieldsTellHistory(run: Run)
    requires Timed(run)
    ensures PulseMark(run, After(run)) && SimMark(run, After(run)) && StreakMark(run, After(run))
    ensures After(run).wantedAtProgress == Wanted(run)
    decreases |run|
  {
    if run != [] {
      FieldsTellHistory(Before(run));
      PulseMarkStep(run);
      SimMarkStep(run);
      StreakMarkStep(run);
      WantedStep(run);
    }
  }

  // ----- Trips -----

  lemma PulseQuietTold(run: Run, w: Watch, s: Sample)
    requires PulseMark(run, w) && LastSample(run) == Some(s) && s.armed && s.pulseAvailable
    ensures PulseStalled(w, s) >= STALL <==> PulseQuiet(run, s.now)
  {
  }

  lemma SimQuietTold(run: Run, w: Watch, s: Sample)
    requires SimMark(run, w) && LastSample(run) == Some(s) && s.armed
    ensures SimStalled(w, s) >= STALL <==> SimQuiet(run, s.now)
  {
  }

  ghost predicate StallSeen(run: Run, s: Sample) {
    || (s.pulseAvailable && PulseQuiet(run, s.now) && (SimQuiet(run, s.now) || s.simFrames == 0))
    || (!s.pulseAvailable && s.simFramesExpected && SimQuiet(run, s.now))
  }

  lemma TripDecided(w: Watch, s: Sample)
    requires |w.tripTimes| == HOLD_TRIPS && s.armed
    ensures
      var n, r := Noticed(w, s), Observed(w, s);
      && (r.1.trip <==> !w.tripped && MustTrip(n, s))
      && (r.1.trip ==> r.1.camerasWanted == n.wantedAtProgress)
  {
    assert |Noticed(w, s).tripTimes| == HOLD_TRIPS && Noticed(w, s).tripped == w.tripped;
    hide Noticed, Progresses, MustTrip, CountRecent, Minus, PulseStalled, SimStalled;
  }

  // A sample trips exactly when nothing was presented for three seconds and the simulator sent no
  // frame either, or never did; before anything was presented, the simulator's frames decide.
  lemma TripsExactly(run: Run)
    requires run != [] && Timed(run) && Last(run).Saw?
    ensures
      var s, d := Last(run).sample, Decided(run);
      && (d.trip <==> s.armed && !After(Before(run)).tripped && StallSeen(run, s))
      && (d.trip ==> d.camerasWanted == Wanted(run))
  {
    var w, s := After(Before(run)), Last(run).sample;
    FieldsTellHistory(run);
    if s.armed {
      var n := Noticed(w, s);
      TripDecided(w, s);
      NoticedStays(w, s);
      var t := After(run);
      assert t == Observed(w, s).0;
      assert PulseStalled(n, s) == PulseStalled(t, s) && SimStalled(n, s) == SimStalled(t, s);
      if s.pulseAvailable {
        PulseQuietTold(run, t, s);
      }
      SimQuietTold(run, t, s);
      hide After, Observed, Noticed, PulseMark, SimMark, StreakMark, PulseQuiet, SimQuiet, Wanted;
    }
  }

  // ----- Recovery and hold -----

  lemma RecoveryDecided(w: Watch, s: Sample)
    requires |w.tripTimes| == HOLD_TRIPS && s.armed && (w.recoverSince != 0 ==> w.recoverSince <= s.now)
    ensures
      var d := Observed(w, s).1;
      && (d.recover || d.hold <==>
        Awaiting(w) && Progresses(w, s) && w.recoverSince != 0 && s.now - w.recoverSince >= RECOVERY)
      && (d.hold <==> (d.recover || d.hold) && s.camerasWanted && CountRecent(w.tripTimes, s.now) >= HOLD_TRIPS)
      && !(d.recover && d.hold)
  {
    var n := Noticed(w, s);
    assert n.tripTimes == w.tripTimes && Awaiting(n) == Awaiting(w) && n.recoverSince == w.recoverSince;
    hide Noticed, Progresses, MustTrip, CountRecent, PulseStalled, SimStalled;
  }

  // An automatic recovery, or a hold in its place, needs an unbroken series of progressing samples
  // five seconds long, and comes at its first sample that is.
  lemma RecoversExactly(run: Run)
    requires run != [] && Timed(run) && Last(run).Saw?
    ensures
      var s, d := Last(run).sample, Decided(run);
      && (d.recover || d.hold <==> Resumed(run, s.now))
      && (d.hold ==> s.camerasWanted)
  {
    var before, w, s := Before(run), After(Before(run)), Last(run).sample;
    FieldsTellHistory(before);
    ProgressAgrees(before, w, s);
    StreaksGrow(run);
    StreakInside(before);
    if s.armed {
      RecoveryDecided(w, s);
      hide After, Observed, PulseMark, SimMark, Streak, Progress, Progresses;
      if w.recoverSince != 0 && Continues(run) {
        var i: nat :| Streak(before, i) && before[i].sample.now == w.recoverSince;
        assert Streak(run, i);
      }
    } else {
      hide After, PulseMark, SimMark, StreakMark, Streak, Progress, Progresses;
    }
  }

  // ----- The three slots and the whole log -----

  // The slots hold the latest three times; a slot not used yet holds 0.
  ghost predicate Ring(slots: seq<nat>, log: seq<nat>) {
    && |slots| == HOLD_TRIPS
    && (forall j :: 0 <= j < |log| && |log| - HOLD_TRIPS <= j ==> slots[j % HOLD_TRIPS] == log[j])
    && (forall k :: |log| <= k < HOLD_TRIPS ==> slots[k] == 0)
  }

  ghost predicate Sorted(log: seq<nat>, now: nat) {
    && (forall j :: 0 <= j < |log| ==> 0 < log[j] <= now)
    && (forall i, j :: 0 <= i <= j < |log| ==> log[i] <= log[j])
  }

  lemma CountThree(slots: seq<nat>, now: nat)
    requires |slots| == HOLD_TRIPS
    ensures CountRecent(slots, now) >= HOLD_TRIPS <==>
        InWindow(slots[0], now) && InWindow(slots[1], now) && InWindow(slots[2], now)
  {
    assert slots[..2][..1] == slots[..1] && slots[..2][1] == slots[1] && slots[..1][0] == slots[0]
      && slots[..1][..0] == [];
    assert CountRecent(slots[..1], now) == (if InWindow(slots[0], now) then 1 else 0);
  }

  lemma {:induction false} CountAtMost(log: seq<nat>, now: nat, from: nat)
    requires from <= |log| && forall j :: 0 <= j < from ==> !InWindow(log[j], now)
    ensures CountRecent(log, now) <= |log| - from
    decreases |log|
  {
    if log != [] {
      CountAtMost(log[..|log| - 1], now, if from == |log| then from - 1 else from);
    }
  }

  lemma {:induction false} CountAtLeast(log: seq<nat>, now: nat, from: nat)
    requires from <= |log| && forall j :: from <= j < |log| ==> InWindow(log[j], now)
    ensures CountRecent(log, now) >= |log| - from
    decreases |log|
  {
    if from < |log| {
      CountAtLeast(log[..|log| - 1], now, from);
    }
  }

  // Three slots count to three exactly when the whole log does.
  lemma RingCounts(slots: seq<nat>, log: seq<nat>, now: nat)
    requires Ring(slots, log) && Sorted(log, now)
    ensures CountRecent(slots, now) >= HOLD_TRIPS <==> CountRecent(log, now) >= HOLD_TRIPS
  {
    CountThree(slots, now);
    var n := |log|;
    if n < HOLD_TRIPS {
      CountAtMost(log, now, 0);
      assert slots[n] == 0;
    } else if InWindow(log[n - 3], now) {
      CountAtLeast(log, now, n - 3);
      assert slots[(n - 3) % 3] == log[n - 3] && slots[(n - 2) % 3] == log[n - 2] && slots[(n - 1) % 3] == log[n - 1];
    } else {
      CountAtMost(log, now, n - 2);
      assert slots[(n - 3) % 3] == log[n - 3];
    }
  }

  // Three times of the log lie in the last five minutes.
  ghost predicate ThreeRecent(log: seq<nat>, now: nat) {
    exists i, j, k :: 0 <= i < j < k < |log| && now - log[i] < 300000 && now - log[j] < 300000 && now - log[k] < 300000
  }

  lemma ThreeCounted(log: seq<nat>, now: nat)
    requires Sorted(log, now)
    ensures CountRecent(log, now) >= 3 <==> ThreeRecent(log, now)
  {
    var n := |log|;
    if n < 3 {
      CountAtMost(log, now, 0);
    } else if InWindow(log[n - 3], now) {
      CountAtLeast(log, now, n - 3);
      assert now - log[n - 3] < 300000 && now - log[n - 2] < 300000 && now - log[n - 1] < 300000;
    } else {
      CountAtMost(log, now, n - 2);
    }
  }

  lemma RingGrows(slots: seq<nat>, log: seq<nat>, now: nat)
    requires Ring(slots, log)
    ensures Ring(slots[|log| % HOLD_TRIPS := now], log + [now])
  {
  }

  lemma RingFields(run: Run)
    requires run != [] && Timed(run)
    ensures
      var w, t, d := After(Before(run)), After(run), Decided(run);
      if Last(run).Saw? && d.trip && d.camerasWanted
      then t.tripTimes == w.tripTimes[w.counted % HOLD_TRIPS := Last(run).sample.now] && t.counted == w.counted + 1
      else t.tripTimes == w.tripTimes && t.counted == w.counted
  {
    if Last(run).Saw? && Last(run).sample.armed {
      var w, s := After(Before(run)), Last(run).sample;
      var n := Noticed(w, s);
      assert n.tripTimes == w.tripTimes && n.counted == w.counted && n.tripped == w.tripped;
      AfterLast(run);
      assert (After(run), Decided(run)) == Observed(w, s);
      hide After, Decided, Stepped, Noticed, Progresses, MustTrip, CountRecent, Minus, PulseStalled, SimStalled;
    }
  }

  lemma AfterLast(run: Run)
    requires run != []
    ensures (After(run), Decided(run)) == Stepped(After(Before(run)), Last(run))
  {
  }

  lemma {:induction false} RingAgrees(run: Run, now: nat)
    requires Timed(run) && forall i :: 0 <= i < |run| && run[i].Saw? ==> run[i].sample.now <= now
    ensures Ring(After(run).tripTimes, Trips(run)) && After(run).counted == |Trips(run)| && Sorted(Trips(run), now)
    decreases |run|
  {
    if run != [] {
      var at := if Last(run).Saw? then Last(run).sample.now else now;
      RingAgrees(Before(run), at);
      RingFields(run);
      TripsLast(run);
      var log := Trips(Before(run));
      RingGrows(After(Before(run)).tripTimes, log, at);
      SortedGrows(log, at, now);
      assert log + [] == log;
      hide *;
    }
  }

  lemma SortedGrows(log: seq<nat>, at: nat, now: nat)
    requires Sorted(log, at) && at <= now
    ensures Sorted(log, now) && (at > 0 ==> Sorted(log + [at], now))
  {
  }

  lemma TripsLast(run: Run)
    requires run != []
    ensures Trips(run) == Trips(Before(run)) + if Last(run).Saw? && Decided(run).trip
        && Decided(run).camerasWanted then [Last(run).sample.now] else []
  {
  }

  // When progress has lasted, the watchdog holds exactly if the cameras are wanted and at least three
  // trips with cameras wanted, of all there ever were, fall in the last five minutes.
  lemma HoldsExactly(run: Run)
    requires run != [] && Timed(run) && Last(run).Saw?
    ensures
      var s, d := Last(run).sample, Decided(run);
      d.hold <==> Resumed(run, s.now) && s.camerasWanted && ThreeRecent(Trips(Before(run)), s.now)
  {
    var before, w, s := Before(run), After(Before(run)), Last(run).sample;
    FieldsTellHistory(before);
    RecoversExactly(run);
    if s.armed {
      RecoveryDecided(w, s);
      RingAgrees(before, s.now);
      RingCounts(w.tripTimes, Trips(before), s.now);
      ThreeCounted(Trips(before), s.now);
    }
  }

  // ----- Order of trips, recoveries and holds -----

  // true for a trip, false for a recovery.
  function Marks(run: Run): seq<bool>
    decreases |run|
  {
    if run == [] then []
    else Marks(Before(run)) + if Decided(run).trip then [true] else if Decided(run).recover then [false] else []
  }

  // Trips and recoveries alternate, a trip first; the watchdog is tripped between the two, and held
  // only while it is tripped.
  lemma {:induction false} TripsAndRecoveriesAlternate(run: Run)
    ensures Alternates(Marks(run)) && (After(run).tripped <==> Odd(Marks(run)))
    ensures After(run).trips == (|Marks(run)| + 1) / 2
    ensures After(run).held ==> After(run).tripped
    decreases |run|
  {
    if run != [] {
      TripsAndRecoveriesAlternate(Before(run));
      OrderDecided(After(Before(run)), Last(run));
      AfterLast(run);
      var d, marks := Decided(run), Marks(Before(run));
      MarksLast(run);
      Alternating(marks);
      hide *;
    }
  }

  predicate Alternates(marks: seq<bool>) {
    forall i :: 0 <= i < |marks| ==> marks[i] == (i % 2 == 0)
  }

  predicate Odd(marks: seq<bool>) {
    |marks| % 2 == 1
  }

  lemma Alternating(marks: seq<bool>)
    requires Alternates(marks)
    ensures Alternates(marks + [!Odd(marks)]) && Odd(marks + [!Odd(marks)]) == !Odd(marks)
    ensures (|marks + [!Odd(marks)]| + 1) / 2 == (|marks| + 1) / 2 + if Odd(marks) then 0 else 1
    ensures marks + [] == marks
  {
  }

  lemma MarksLast(run: Run)
    requires run != []
    ensures Marks(run) == Marks(Before(run)) + if Decided(run).trip then [true]
        else if Decided(run).recover then [false] else []
  {
  }

  lemma OrderDecided(w: Watch, e: Event)
    requires |w.tripTimes| == HOLD_TRIPS && (w.held ==> w.tripped)
    ensures
      var (t, d) := Stepped(w, e);
      && (t.held ==> t.tripped) && !(d.trip && d.recover)
      && t.trips == (if d.trip then w.trips + 1 else w.trips)
      && (d.trip ==> !w.tripped && t.tripped) && (d.recover ==> w.tripped && !t.tripped)
      && (!d.trip && !d.recover ==> t.tripped == w.tripped)
      && (w.held && !t.held ==> e.Let?) && (!w.held && t.held ==> d.hold)
      && (e.Let? ==> (d.recover <==> w.held) && !t.held)
  {
    if e.Saw? && e.sample.armed {
      var n := Noticed(w, e.sample);
      assert n.tripped == w.tripped && n.held == w.held && n.trips == w.trips && |n.tripTimes| == HOLD_TRIPS;
      hide Noticed, Progresses, MustTrip, CountRecent, Minus, PulseStalled, SimStalled;
    }
  }

  // A hold begins with a decision to hold and ends only by a release.
  lemma HoldEndsByRelease(run: Run)
    requires run != []
    ensures After(Before(run)).held && !After(run).held ==> Last(run).Let?
    ensures !After(Before(run)).held && After(run).held ==> Decided(run).hold
    ensures After(Before(run)).held && Last(run).Let? ==>
        !After(run).held && !After(run).tripped && Decided(run).recover
  {
    TripsAndRecoveriesAlternate(Before(run));
    OrderDecided(After(Before(run)), Last(run));
  }
}
