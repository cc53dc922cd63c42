/** What the watchdog only notes: stalls of one counter alone, each once, and how long a stall has lasted. */
module WatchdogNotes {
  import opened Watchdog
  import opened Common
  import opened WatchdogHistory

  // A presentation stall was noted, and nothing was presented since.
  ghost predicate PresentationNoted(run: Run) {
    exists j: nat :: PulseStill(run, j) && Decided(run[..j + 1]).presentationNoted
  }

  // A telemetry stall was noted, and the simulator sent no frame since.
  ghost predicate TelemetryNoted(run: Run) {
    exists j: nat :: SimStill(run, j) && Decided(run[..j + 1]).telemetryNoted
  }

  lemma NotingDecides(n: Watch, s: Sample)
    requires |n.tripTimes| == HOLD_TRIPS
    ensures
      var (t, d) := Noting(n, s);
      && d.presentationNoted == (s.pulseAvailable && PulseStalled(n, s) >= STALL && !n.presentationNoted)
      && d.telemetryNoted == (s.simFramesExpected && SimStalled(n, s) >= STALL && !n.telemetryNoted)
      && t.presentationNoted == (n.presentationNoted || d.presentationNoted)
      && t.telemetryNoted == (n.telemetryNoted || d.telemetryNoted)
  {
  }

  // One step, as far as the notes go.
  lemma NotesDecided(w: Watch, s: Sample)
    requires |w.tripTimes| == HOLD_TRIPS && s.armed
    ensures
      var n, (t, d) := Noticed(w, s), Observed(w, s);
      && (d.presentationNoted <==>
            !w.tripped && !d.trip && s.pulseAvailable && PulseStalled(n, s) >= STALL && !n.presentationNoted)
      && (d.telemetryNoted <==>
            !w.tripped && !d.trip && s.simFramesExpected && SimStalled(n, s) >= STALL && !n.telemetryNoted)
      && t.presentationNoted == (n.presentationNoted || d.presentationNoted)
      && t.telemetryNoted == (n.telemetryNoted || d.telemetryNoted)
  {
    var n := Noticed(w, s);
    assert |n.tripTimes| == HOLD_TRIPS && n.tripped == w.tripped;
    NotingDecides(n, s);
    hide Noticed, Noting, Progresses, MustTrip, CountRecent, Minus, PulseStalled, SimStalled;
  }

  lemma PresentationNotedGrows(run: Run)
    requires run != []
    ensures PresentationNoted(run) <==>
      ((exists j: nat ::
          PulseStill(Before(run), j) && KeepsPulse(Last(run), run[j]) && Decided(run[..j + 1]).presentationNoted)
       || (Last(run).Saw? && Last(run).sample.armed && Decided(run).presentationNoted))
  {
    var before, n := Before(run), |run| - 1;
    assert run[..n + 1] == run;
    hide Decided, KeepsPulse;
    forall j: nat | j < n ensures PulseStill(run, j) <==> (PulseStill(before, j) && KeepsPulse(Last(run), run[j])) {
      StillGrows(run, j);
    }
    assert PulseStill(run, n) <==> (Last(run).Saw? && Last(run).sample.armed);
    forall j: nat | PulseStill(run, j) ensures j <= n {
    }
    forall j: nat | PulseStill(before, j) ensures j < n {
    }
    hide PulseStill;
  }

  lemma TelemetryNotedGrows(run: Run)
    requires run != []
    ensures TelemetryNoted(run) <==>
      ((exists j: nat ::
          SimStill(Before(run), j) && KeepsSim(Last(run), run[j]) && Decided(run[..j + 1]).telemetryNoted)
       || (Last(run).Saw? && Last(run).sample.armed && Decided(run).telemetryNoted))
  {
    var before, n := Before(run), |run| - 1;
    assert run[..n + 1] == run;
    hide Decided, KeepsSim;
    forall j: nat | j < n ensures SimStill(run, j) <==> (SimStill(before, j) && KeepsSim(Last(run), run[j])) {
      StillGrows(run, j);
    }
    assert SimStill(run, n) <==> (Last(run).Saw? && Last(run).sample.armed);
    forall j: nat | SimStill(run, j) ensures j <= n {
    }
    forall j: nat | SimStill(before, j) ensures j < n {
    }
    hide SimStill;
  }

  // A sample after which the stall of a counter goes on.
  predicate PulseGoesOn(w: Watch, e: Event) {
    e.Saw? ==> e.sample.armed && e.sample.pulseAvailable && !PulseAdvances(w, e.sample)
  }

  predicate SimGoesOn(w: Watch, e: Event) {
    e.Saw? ==> e.sample.armed && !SimAdvances(w, e.sample)
  }

  // The notes that were there before last as long as the stall does.
  lemma OldNotesStay(run: Run, w: Watch)
    requires run != [] && PulseMark(Before(run), w) && SimMark(Before(run), w)
    ensures
      (exists j: nat :: PulseStill(Before(run), j) && KeepsPulse(Last(run), run[j])
        && Decided(run[..j + 1]).presentationNoted)
      <==> (PresentationNoted(Before(run)) && PulseGoesOn(w, Last(run)))
    ensures
      (exists j: nat :: SimStill(Before(run), j) && KeepsSim(Last(run), run[j]) && Decided(run[..j + 1]).telemetryNoted)
      <==> (TelemetryNoted(Before(run)) && SimGoesOn(w, Last(run)))
  {
    var before := Before(run);
    forall j: nat | PulseStill(before, j)
      ensures j < |before| && before[..j + 1] == run[..j + 1]
          && (KeepsPulse(Last(run), run[j]) <==> PulseGoesOn(w, Last(run)))
    {
      StillLast(before, j);
      assert run[j] == before[j];
    }
    forall j: nat | SimStill(before, j)
      ensures j < |before| && before[..j + 1] == run[..j + 1]
          && (KeepsSim(Last(run), run[j]) <==> SimGoesOn(w, Last(run)))
    {
      StillLast(before, j);
      assert run[j] == before[j];
    }
    hide PulseStill, SimStill, KeepsPulse, KeepsSim, Decided, PulseMark, SimMark, PulseGoesOn, SimGoesOn;
  }

  // What the flags of the fields do.
  lemma FlagsMove(run: Run)
    requires run != []
    ensures
      var w, t, e, d := After(Before(run)), After(run), Last(run), Decided(run);
      && t.presentationNoted == ((w.presentationNoted && PulseGoesOn(w, e))
        || (e.Saw? && e.sample.armed && d.presentationNoted))
      && t.telemetryNoted == ((w.telemetryNoted && SimGoesOn(w, e)) || (e.Saw? && e.sample.armed && d.telemetryNoted))
  {
    var w := After(Before(run));
    AfterLast(run);
    if Last(run).Saw? && Last(run).sample.armed {
      NotesDecided(w, Last(run).sample);
      assert (After(run), Decided(run)) == Observed(w, Last(run).sample);
      hide After, Decided, Observed;
    }
  }

  lemma {:induction false} FlagsTellHistory(run: Run)
    requires Timed(run)
    ensures After(run).presentationNoted == PresentationNoted(run) && After(run).telemetryNoted == TelemetryNoted(run)
    decreases |run|
  {
    if run != [] {
      FlagsTellHistory(Before(run));
      FieldsTellHistory(Before(run));
      OldNotesStay(run, After(Before(run)));
      PresentationNotedGrows(run);
      TelemetryNotedGrows(run);
      FlagsMove(run);
      hide *;
    }
  }

  // Outside a trip, a stall of presentation alone, or of expected telemetry alone, is noted exactly at
  // the first sample that shows three seconds of it, and not again while it lasts.
  lemma NotedOnce(run: Run)
    requires run != [] && Timed(run) && Last(run).Saw? && Last(run).sample.armed
    ensures
      var w, s, d, before := After(Before(run)), Last(run).sample, Decided(run), Before(run);
      && (d.presentationNoted <==>
            !w.tripped && !d.trip && s.pulseAvailable && PulseQuiet(run, s.now)
            && !(PresentationNoted(before) && PulseGoesOn(w, Last(run))))
      && (d.telemetryNoted <==>
            !w.tripped && !d.trip && s.simFramesExpected && SimQuiet(run, s.now)
            && !(TelemetryNoted(before) && SimGoesOn(w, Last(run))))
  {
    var before, w, s := Before(run), After(Before(run)), Last(run).sample;
    FlagsTellHistory(before);
    FieldsTellHistory(run);
    NotesDecided(w, s);
    NoticedStays(w, s);
    var n, t := Noticed(w, s), After(run);
    assert t == Observed(w, s).0;
    assert PulseStalled(n, s) == PulseStalled(t, s) && SimStalled(n, s) == SimStalled(t, s);
    if s.pulseAvailable {
      PulseQuietTold(run, t, s);
    }
    SimQuietTold(run, t, s);
    hide After, Observed, PulseMark, SimMark, StreakMark, PulseQuiet, SimQuiet, PulseStalled, SimStalled, Wanted;
  }

  // ----- How long -----

  // The time since the earliest sample of the stall.
  ghost predicate PulseStilled(run: Run, now: nat, ms: nat) {
    && (exists i: nat :: PulseStill(run, i) && now - run[i].sample.now == ms)
    && (forall i: nat :: PulseStill(run, i) ==> now - run[i].sample.now <= ms)
  }

  ghost predicate SimStilled(run: Run, now: nat, ms: nat) {
    && (exists i: nat :: SimStill(run, i) && now - run[i].sample.now == ms)
    && (forall i: nat :: SimStill(run, i) ==> now - run[i].sample.now <= ms)
  }

  lemma StalledDecided(w: Watch, s: Sample)
    requires |w.tripTimes| == HOLD_TRIPS && s.armed && w.pulseSince <= s.now && w.simSince <= s.now
    ensures
      var n, d := Noticed(w, s), Observed(w, s).1;
      && (d.reason in {BothStalled, StalledWithoutTelemetry, PresentationStalled} ==>
            s.pulseAvailable && d.stalled == PulseStalled(n, s) >= STALL)
      && (d.reason in {StalledBeforeFirstSubmit, TelemetryStalled} ==> d.stalled == SimStalled(n, s) >= STALL)
      && (d.reason == StalledWithoutTelemetry ==> s.simFrames == 0)
        && (d.reason == BothStalled ==> SimStalled(n, s) >= STALL)
  {
    var n := Noticed(w, s);
    assert |n.tripTimes| == HOLD_TRIPS && n.tripped == w.tripped;
    hide Noticed, Progresses, CountRecent, Minus;
  }

  // The time reported with a stall is the time since the counter it names last moved.
  lemma StalledSinceProgress(run: Run)
    requires run != [] && Timed(run) && Last(run).Saw? && Last(run).sample.armed
    ensures
      var s, d := Last(run).sample, Decided(run);
      && (d.reason in {BothStalled, StalledWithoutTelemetry, PresentationStalled} ==>
        PulseStilled(run, s.now, d.stalled))
      && (d.reason in {StalledBeforeFirstSubmit, TelemetryStalled} ==> SimStilled(run, s.now, d.stalled))
  {
    var before, w, s := Before(run), After(Before(run)), Last(run).sample;
    FieldsTellHistory(run);
    FieldsTellHistory(before);
    SinceBefore(run);
    StalledDecided(w, s);
    NoticedStays(w, s);
    var n, t := Noticed(w, s), After(run);
    assert t == Observed(w, s).0;
    assert PulseStalled(n, s) == PulseStalled(t, s) && SimStalled(n, s) == SimStalled(t, s);
    PulseStalledSince(run, t, s);
    SimStalledSince(run, t, s);
    hide After, Observed, Noticed, StreakMark, Wanted, PulseMark, SimMark, PulseStilled, SimStilled, PulseStalled,
      SimStalled;
  }

  lemma PulseStalledSince(run: Run, t: Watch, s: Sample)
    requires PulseMark(run, t) && LastSample(run) == Some(s) && s.armed && t.pulseSince <= s.now
    ensures PulseStalled(t, s) >= STALL ==> PulseStilled(run, s.now, PulseStalled(t, s))
  {
  }

  lemma SimStalledSince(run: Run, t: Watch, s: Sample)
    requires SimMark(run, t) && LastSample(run) == Some(s) && s.armed && t.simSince <= s.now
    ensures SimStalled(t, s) >= STALL ==> SimStilled(run, s.now, SimStalled(t, s))
  {
  }

  // No mark lies after the last sample.
  lemma SinceBefore(run: Run)
    requires run != [] && Timed(run) && Last(run).Saw?
    requires PulseMark(Before(run), After(Before(run))) && SimMark(Before(run), After(Before(run)))
    ensures After(Before(run)).pulseSince <= Last(run).sample.now && After(Before(run)).simSince <= Last(run).sample.now
  {
    var before, w, n := Before(run), After(Before(run)), |run| - 1;
    hide After;
    if w.pulseSince != 0 {
      var i: nat :| PulseStill(before, i) && before[i].sample.now == w.pulseSince;
      assert run[i] == before[i] && run[n].Saw?;
    }
    if w.simSince != 0 {
      var i: nat :| SimStill(before, i) && before[i].sample.now == w.simSince;
      assert run[i] == before[i] && run[n].Saw?;
    }
  }

  // ----- Why -----

  // The reason that goes with what was decided at an event.
  function ReasonFor(e: Event, d: Decision): Reason {
    if d.hold then RepeatedStalls
    else if d.recover then (if e.Let? then ReleasedAfterHold else PresentationResumed)
    else if d.trip then
      if e.Let? || !e.sample.pulseAvailable then StalledBeforeFirstSubmit
      else if e.sample.simFrames == 0 then StalledWithoutTelemetry
      else BothStalled
    else if d.telemetryNoted then TelemetryStalled
    else if d.presentationNoted then PresentationStalled
    else NoReason
  }

  // Every decision names its reason, only a stall a time, and nothing is decided without arming.
  lemma ReasonTells(run: Run)
    requires run != []
    ensures
      var e, d := Last(run), Decided(run);
      && d.reason == ReasonFor(e, d)
      && (d.stalled != 0 ==> d.trip || d.telemetryNoted || d.presentationNoted)
      && (d.camerasWanted ==> d.trip)
      && (e.Saw? && !e.sample.armed ==> d.reason == NoReason)
  {
    var w := After(Before(run));
    if Last(run).Saw? && Last(run).sample.armed {
      var s := Last(run).sample;
      var n := Noticed(w, s);
      assert |n.tripTimes| == HOLD_TRIPS;
      if MustTrip(n, s) {
        TripReason(n, s);
      }
      hide Noticed, Progresses, CountRecent, Minus, PulseStalled, SimStalled, MustTrip, Tripping;
    }
  }

  lemma TripReason(n: Watch, s: Sample)
    requires |n.tripTimes| == HOLD_TRIPS && MustTrip(n, s)
    ensures
      var d := Tripping(n, s).1;
      d.trip && !d.hold && !d.recover && d.reason == ReasonFor(Saw(s), d)
  {
  }
}
