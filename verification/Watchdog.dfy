/** The presentation watchdog: what one sample does to its few fields. */
module Watchdog {
  const STALL: nat := 3000
  const RECOVERY: nat := 5000
  const HOLD_TRIPS: nat := 3
  const HOLD_WINDOW: nat := 300000
  const WRAP: nat := 0x1_0000_0000_0000_0000

  datatype Sample = Sample(
    now: nat, framePulse: nat, pulseAvailable: bool, simFrames: nat, simFramesExpected: bool, armed: bool,
      camerasWanted: bool)

  datatype Reason =
    | NoReason | RepeatedStalls | PresentationResumed | ReleasedAfterHold
    | BothStalled | StalledWithoutTelemetry | StalledBeforeFirstSubmit | PresentationStalled | TelemetryStalled

  datatype Decision = Decision(
    trip: bool, recover: bool, hold: bool, telemetryNoted: bool, presentationNoted: bool, camerasWanted: bool,
    reason: Reason, stalled: nat)

  const NOTHING := Decision(false, false, false, false, false, false, NoReason, 0)

  // The fields, as one value.
  datatype Watch = Watch(
    lastPulse: nat, pulseSince: nat, lastSim: nat, simSince: nat, recoverSince: nat,
    tripTimes: seq<nat>, trips: nat, counted: nat,
    tripped: bool, held: bool, wantedAtProgress: bool, telemetryNoted: bool, presentationNoted: bool)

  const FRESH := Watch(0, 0, 0, 0, 0, [0, 0, 0], 0, 0, false, false, false, false, false)

  // Subtraction in 64 bits.
  function Minus(a: nat, b: nat): nat {
    if a >= b then a - b else (a - b) % WRAP
  }

  // What is left, added back, gives the minuend again.
  lemma MinusIs(a: nat, b: nat)
    requires a < 0x1_0000_0000_0000_0000 && b < 0x1_0000_0000_0000_0000
    ensures Minus(a, b) < 0x1_0000_0000_0000_0000 && (Minus(a, b) + b) % 0x1_0000_0000_0000_0000 == a
  {
  }

  function Since(now: nat, then_: nat): nat {
    if now >= then_ then now - then_ else 0
  }

  predicate InWindow(at: nat, now: nat) {
    at != 0 && now >= at && now - at < HOLD_WINDOW
  }

  function CountRecent(times: seq<nat>, now: nat): nat {
    if times == [] then 0
    else CountRecent(times[..|times| - 1], now) + if InWindow(times[|times| - 1], now) then 1 else 0
  }

  predicate PulseAdvances(w: Watch, s: Sample) {
    s.pulseAvailable && (w.pulseSince == 0 || s.framePulse != w.lastPulse)
  }

  predicate SimAdvances(w: Watch, s: Sample) {
    w.simSince == 0 || s.simFrames != w.lastSim
  }

  predicate Progresses(w: Watch, s: Sample) {
    if s.pulseAvailable then PulseAdvances(w, s) else SimAdvances(w, s)
  }

  // The watch has taken note of what moved.
  function Noticed(w: Watch, s: Sample): Watch {
    var pulse := PulseAdvances(w, s) || !s.pulseAvailable;
    var sim := SimAdvances(w, s);
    w.(lastPulse := if pulse then s.framePulse else w.lastPulse,
       pulseSince := if pulse then s.now else w.pulseSince,
       presentationNoted := w.presentationNoted && !pulse,
       lastSim := if sim then s.simFrames else w.lastSim,
       simSince := if sim then s.now else w.simSince,
       telemetryNoted := w.telemetryNoted && !sim,
       wantedAtProgress := if Progresses(w, s) then s.camerasWanted else w.wantedAtProgress)
  }

  function Forgotten(w: Watch): Watch {
    w.(pulseSince := 0, simSince := 0, recoverSince := 0, telemetryNoted := false, presentationNoted := false)
  }

  function PulseStalled(w: Watch, s: Sample): nat {
    if s.pulseAvailable then Since(s.now, w.pulseSince) else 0
  }

  function SimStalled(w: Watch, s: Sample): nat {
    Since(s.now, w.simSince)
  }

  predicate MustTrip(w: Watch, s: Sample) {
    || (s.pulseAvailable && PulseStalled(w, s) >= STALL && (SimStalled(w, s) >= STALL || s.simFrames == 0))
    || (!s.pulseAvailable && s.simFramesExpected && SimStalled(w, s) >= STALL)
  }

  // While tripped: progress must last before the cameras come back.
  function Waited(w: Watch, s: Sample, progressing: bool): (r: (Watch, Decision))
    requires |w.tripTimes| == HOLD_TRIPS
    ensures |r.0.tripTimes| == HOLD_TRIPS
  {
    if w.held || !progressing then (w.(recoverSince := 0), NOTHING)
    else if w.recoverSince == 0 then (w.(recoverSince := s.now), NOTHING)
    else if Minus(s.now, w.recoverSince) < RECOVERY then (w, NOTHING)
    else if s.camerasWanted && CountRecent(w.tripTimes, s.now) >= HOLD_TRIPS then
      (w.(recoverSince := 0, held := true), NOTHING.(hold := true, reason := RepeatedStalls))
    else (w.(recoverSince := 0, tripped := false), NOTHING.(recover := true, reason := PresentationResumed))
  }

  function Tripping(w: Watch, s: Sample): (r: (Watch, Decision))
    requires |w.tripTimes| == HOLD_TRIPS
    ensures |r.0.tripTimes| == HOLD_TRIPS
  {
    var pulse := PulseStalled(w, s) >= STALL;
    (w.(tripped := true, trips := w.trips + 1, recoverSince := 0,
        tripTimes := if w.wantedAtProgress then w.tripTimes[w.counted % HOLD_TRIPS := if s.now != 0 then s.now else 1]
          else w.tripTimes,
        counted := if w.wantedAtProgress then w.counted + 1 else w.counted),
     NOTHING.(trip := true, camerasWanted := w.wantedAtProgress,
              reason := if !pulse then StalledBeforeFirstSubmit else if s.simFrames != 0 then BothStalled
                else StalledWithoutTelemetry,
              stalled := if pulse then PulseStalled(w, s) else SimStalled(w, s)))
  }

  // Stalls of one counter only are noted, once each.
  function Noting(w: Watch, s: Sample): (r: (Watch, Decision))
    requires |w.tripTimes| == HOLD_TRIPS
    ensures |r.0.tripTimes| == HOLD_TRIPS
  {
    var presentation := s.pulseAvailable && PulseStalled(w, s) >= STALL && !w.presentationNoted;
    var telemetry := s.simFramesExpected && SimStalled(w, s) >= STALL && !w.telemetryNoted;
    var d := if presentation
             then NOTHING.(presentationNoted := true, reason := PresentationStalled, stalled := PulseStalled(w, s))
               else NOTHING;
    (w.(presentationNoted := w.presentationNoted || presentation, telemetryNoted := w.telemetryNoted || telemetry),
     if telemetry then d.(telemetryNoted := true, reason := TelemetryStalled, stalled := SimStalled(w, s)) else d)
  }

  function Observed(w: Watch, s: Sample): (r: (Watch, Decision))
    requires |w.tripTimes| == HOLD_TRIPS
    ensures |r.0.tripTimes| == HOLD_TRIPS
  {
    if !s.armed then (Forgotten(w), NOTHING)
    else
      var n := Noticed(w, s);
      if n.tripped then Waited(n, s, Progresses(w, s))
      else if MustTrip(n, s) then Tripping(n, s)
      else Noting(n, s)
  }

  function Released(w: Watch): (r: (Watch, Decision))
    ensures |r.0.tripTimes| == |w.tripTimes|
  {
    if !w.held then (w, NOTHING)
    else (w.(held := false, tripped := false, recoverSince := 0),
      NOTHING.(recover := true, reason := ReleasedAfterHold))
  }

  class FreezeWatchdog {
    var lastPulse: nat
    var pulseSince: nat
    var lastSim: nat
    var simSince: nat
    var recoverSince: nat
    const tripTimes: array<nat>
    var trips: nat
    var counted: nat
    var tripped: bool
    var held: bool
    var wantedAtProgress: bool
    var telemetryNoted: bool
    var presentationNoted: bool

    ghost predicate Valid()
      reads this, tripTimes
    {
      tripTimes.Length == HOLD_TRIPS
    }

    ghost function State(): (w: Watch)
      requires Valid()
      reads this, tripTimes
      ensures |w.tripTimes| == HOLD_TRIPS
    {
      Watch(lastPulse, pulseSince, lastSim, simSince, recoverSince, tripTimes[..], trips, counted,
            tripped, held, wantedAtProgress, telemetryNoted, presentationNoted)
    }

    constructor ()
      ensures Valid() && State() == FRESH && fresh(tripTimes)
    {
      lastPulse, pulseSince, lastSim, simSince, recoverSince := 0, 0, 0, 0, 0;
      tripTimes := new nat[HOLD_TRIPS](_ => 0);
      trips, counted := 0, 0;
      tripped, held, wantedAtProgress, telemetryNoted, presentationNoted := false, false, false, false, false;
      new;
      assert tripTimes[..] == [0, 0, 0];
    }

    method RecentTrips(now: nat) returns (count: nat)
      requires Valid()
      ensures count == CountRecent(State().tripTimes, now)
    {
      count := 0;
      for i := 0 to tripTimes.Length
        invariant count == CountRecent(tripTimes[..i], now)
      {
        assert tripTimes[..i + 1][..i] == tripTimes[..i];
        if InWindow(tripTimes[i], now) {
          count := count + 1;
        }
      }
      assert tripTimes[..tripTimes.Length] == tripTimes[..];
    }

    method Notice(s: Sample) returns (progressing: bool)
      requires Valid()
      modifies this
      ensures Valid() && State() == Noticed(old(State()), s) && progressing == Progresses(old(State()), s)
    {
      var pulseAdvanced := s.pulseAvailable && (pulseSince == 0 || s.framePulse != lastPulse);
      if pulseAdvanced || !s.pulseAvailable {
        lastPulse, pulseSince, presentationNoted := s.framePulse, s.now, false;
      }
      var simAdvanced := simSince == 0 || s.simFrames != lastSim;
      if simAdvanced {
        lastSim, simSince, telemetryNoted := s.simFrames, s.now, false;
      }
      if pulseAdvanced || (!s.pulseAvailable && simAdvanced) {
        wantedAtProgress := s.camerasWanted;
      }
      progressing := if s.pulseAvailable then pulseAdvanced else simAdvanced;
    }

    method AwaitRecovery(s: Sample, progressing: bool) returns (decision: Decision)
      requires Valid()
      modifies this
      ensures Valid() && (State(), decision) == Waited(old(State()), s, progressing)
    {
      decision := NOTHING;
      if held || !progressing {
        recoverSince := 0;
        return;
      }
      if recoverSince == 0 {
        recoverSince := s.now;
      } else if Minus(s.now, recoverSince) >= RECOVERY {
        recoverSince := 0;
        var recent := RecentTrips(s.now);
        if s.camerasWanted && recent >= HOLD_TRIPS {
          held := true;
          return decision.(hold := true, reason := RepeatedStalls);
        }
        tripped := false;
        decision := decision.(recover := true, reason := PresentationResumed);
      }
    }

    method Trip(s: Sample) returns (decision: Decision)
      requires Valid()
      modifies this, tripTimes
      ensures Valid() && (State(), decision) == Tripping(old(State()), s)
    {
      var pulseStalled := if s.pulseAvailable && s.now >= pulseSince then s.now - pulseSince else 0;
      var simStalled := if s.now >= simSince then s.now - simSince else 0;
      tripped := true;
      if wantedAtProgress {
        tripTimes[counted % HOLD_TRIPS] := if s.now != 0 then s.now else 1;
        counted := counted + 1;
      }
      trips := trips + 1;
      recoverSince := 0;
      return NOTHING.(trip := true, camerasWanted := wantedAtProgress,
        reason := if pulseStalled < STALL then StalledBeforeFirstSubmit
                  else if s.simFrames != 0 then BothStalled else StalledWithoutTelemetry,
        stalled := if pulseStalled >= STALL then pulseStalled else simStalled);
    }

    method Observe(s: Sample) returns (decision: Decision)
      requires Valid()
      modifies this, tripTimes
      ensures Valid() && (State(), decision) == Observed(old(State()), s)
    {
      hide Noticed, Waited, Tripping, CountRecent;
      if !s.armed {
        pulseSince, simSince, recoverSince, telemetryNoted, presentationNoted := 0, 0, 0, false, false;
        return NOTHING;
      }
      var progressing := Notice(s);
      if tripped {
        decision := AwaitRecovery(s, progressing);
        return;
      }
      var pulseStalled := if s.pulseAvailable && s.now >= pulseSince then s.now - pulseSince else 0;
      var simStalled := if s.now >= simSince then s.now - simSince else 0;
      var telemetryStalled := s.simFramesExpected && simStalled >= STALL;
      if (s.pulseAvailable && pulseStalled >= STALL && (simStalled >= STALL || s.simFrames == 0))
         || (!s.pulseAvailable && telemetryStalled) {
        decision := Trip(s);
        return;
      }
      decision := NOTHING;
      if s.pulseAvailable && pulseStalled >= STALL && !presentationNoted {
        presentationNoted := true;
        decision := decision.(presentationNoted := true, reason := PresentationStalled, stalled := pulseStalled);
      }
      if telemetryStalled && !telemetryNoted {
        telemetryNoted := true;
        decision := decision.(telemetryNoted := true, reason := TelemetryStalled, stalled := simStalled);
      }
    }

    method Release() returns (decision: Decision)
      requires Valid()
      modifies this
      ensures Valid() && (State(), decision) == Released(old(State()))
    {
      decision := NOTHING;
      if held {
        held, tripped, recoverSince := false, false, 0;
        decision := decision.(recover := true, reason := ReleasedAfterHold);
      }
    }
  }

  // ----- The worker's release request -----

  datatype Look = Look(held: bool, knownOff: bool)

  // The last look is the first known OFF of the hold it belongs to.
  ghost predicate FirstKnownOff(looks: seq<Look>) {
    && looks != [] && looks[|looks| - 1].held && looks[|looks| - 1].knownOff
    && forall i :: 0 <= i < |looks| - 1 && looks[i].held && looks[i].knownOff ==>
         exists j :: i < j < |looks| && !looks[j].held
  }

  // A known OFF was seen in the hold that goes on.
  ghost predicate OffSeen(looks: seq<Look>) {
    exists i :: 0 <= i < |looks| && looks[i].knownOff && forall j :: i <= j < |looks| ==> looks[j].held
  }

  class StallHoldRelease {
    var requested: bool
    ghost var looks: seq<Look>

    ghost predicate Valid()
      reads this
    {
      requested == OffSeen(looks)
    }

    constructor ()
      ensures Valid() && looks == []
    {
      requested := false;
      looks := [];
    }

    // One release request per hold, at its first known OFF.
    method Observe(held: bool, knownOff: bool) returns (release: bool)
      requires Valid()
      modifies this
      ensures Valid() && looks == old(looks) + [Look(held, knownOff)]
      ensures release == FirstKnownOff(looks)
    {
      LookMore(looks, Look(held, knownOff));
      looks := looks + [Look(held, knownOff)];
      if !held {
        requested := false;
        return false;
      }
      if !knownOff || requested {
        return false;
      }
      requested := true;
      return true;
    }
  }

  lemma LookMore(looks: seq<Look>, look: Look)
    ensures OffSeen(looks + [look]) <==> look.held && (look.knownOff || OffSeen(looks))
    ensures FirstKnownOff(looks + [look]) <==> look.held && look.knownOff && !OffSeen(looks)
  {
    var more := looks + [look];
    var n := |looks|;
    assert more[n] == look && forall j :: 0 <= j < n ==> more[j] == looks[j];
    if look.held && OffSeen(looks) {
      var i :| 0 <= i < n && looks[i].knownOff && forall j :: i <= j < n ==> looks[j].held;
      assert more[i].knownOff && forall j :: i <= j < |more| ==> more[j].held;
      assert more[i].held && !exists j :: i < j < |more| && !more[j].held;
    }
    forall i | 0 <= i < n && more[i].knownOff && forall j :: i <= j < |more| ==> more[j].held ensures OffSeen(looks) {
      assert looks[i].knownOff && forall j :: i <= j < n ==> looks[j].held;
    }
    assert OffSeen(more) ==> more[n].held;
    if look.held && look.knownOff && !OffSeen(looks) {
      forall i | 0 <= i < n && more[i].held && more[i].knownOff ensures exists j :: i < j < |more| && !more[j].held {
        assert looks[i].knownOff;
        var j :| i <= j < n && !looks[j].held;
        assert !more[j].held;
      }
    }
  }
}
