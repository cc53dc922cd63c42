/** The aircraft session: what the simulator's lifecycle packets say, and which of them begin a session. */
module AircraftSession {
  import opened Common
  import opened Bits

  const FLOW_ID: nat := 39
  const FLOW_ID_OLD: nat := 40
  const SIM_EVENT: nat := 100
  const AIRCRAFT_EVENT: nat := 101
  const FLIGHT_EVENT: nat := 102
  const PAUSE_EVENT: nat := 103

  const FLT_LOAD: nat := 1
  const FLT_LOADED: nat := 2
  const TELEPORT_START: nat := 3
  const TELEPORT_DONE: nat := 4
  const BACK_TO_MAIN_MENU: nat := 9
  const FLIGHT_START: nat := 14
  const FLIGHT_END: nat := 15
  const MAX_EPOCH: nat := 0xFFFF_FFFF_FFFF_FFFF

  const FLOWS: set<nat> := {FLT_LOAD, FLT_LOADED, TELEPORT_START, TELEPORT_DONE, BACK_TO_MAIN_MENU, FLIGHT_START,
                            FLIGHT_END}
  const STARTS: set<nat> := {FLT_LOAD, TELEPORT_START, BACK_TO_MAIN_MENU, FLIGHT_END}

  // ----- Packets -----

  // A 32-bit word of the packet, little-endian.
  function Word(p: seq<byte>, i: nat): nat
    requires 4 * i + 4 <= |p|
  {
    var a: int, b: int, c: int, d: int := p[4 * i], p[4 * i + 1], p[4 * i + 2], p[4 * i + 3];
    a + 0x100 * b + 0x1_0000 * c + 0x100_0000 * d
  }

  predicate HasNul(p: seq<byte>, from: nat, count: nat)
    requires from + count <= |p|
  {
    0 in p[from..from + count]
  }

  // What a packet says, as its exact shape tells.
  datatype Notice = Ignored | Flow(event: nat) | Pause(on: bool) | Sim(on: bool) | NewAircraft

  function Told(p: seq<byte>): Notice {
    if |p| < 24 || |p| > 65536 || Word(p, 0) != |p| then Ignored
    else if (Word(p, 2) == FLOW_ID || Word(p, 2) == FLOW_ID_OLD) && |p| == 272 && HasNul(p, 16, 256) then
      if Word(p, 3) in FLOWS then Flow(Word(p, 3)) else Ignored
    else if Word(p, 2) == 4 && |p| == 24 && Word(p, 4) == PAUSE_EVENT then Pause(Word(p, 5) != 0)
    else if Word(p, 2) == 4 && |p| == 24 && Word(p, 4) == SIM_EVENT && Word(p, 5) <= 1 then Sim(Word(p, 5) != 0)
    else if Word(p, 2) == 6 && |p| == 288 && (Word(p, 4) == AIRCRAFT_EVENT || Word(p, 4) == FLIGHT_EVENT)
      && HasNul(p, 24, 260)
    then NewAircraft
    else Ignored
  }

  // ----- The fields -----

  datatype Life = Life(
    epoch: nat, known: bool, running: bool, paused: bool,
    load: bool, teleport: bool, end: bool,      // the three bits of what is pending
    lastFlow: nat)

  const FRESH := Life(0, false, false, false, false, false, false, 0)

  predicate Pending(l: Life) {
    l.load || l.teleport || l.end
  }

  function Changed(l: Life): Life {
    if l.epoch == MAX_EPOCH then l else l.(epoch := l.epoch + 1)
  }

  function AfterFlow(l: Life, event: nat): Life {
    var n := l.(lastFlow := event);
    if event in STARTS then
      var started := n.(load := n.load || event == FLT_LOAD, teleport := n.teleport || event == TELEPORT_START,
                        end := n.end || event == BACK_TO_MAIN_MENU || event == FLIGHT_END);
      if Pending(l) then started else Changed(started)
    else if event == FLT_LOADED then n.(load := false)
    else if event == TELEPORT_DONE then n.(teleport := false)
    else if event == FLIGHT_START then n.(end := false, paused := false)
    else n
  }

  // The fields after a notice, and whether it is reported.
  function Accepted(l: Life, notice: Notice): (Life, bool) {
    match notice
    case Ignored => (l, false)
    case Flow(event) =>
      var n := AfterFlow(l, event);
      (n, n.load != l.load || n.teleport != l.teleport || n.end != l.end)
    case Pause(on) => (l.(paused := on), false)
    case Sim(on) =>
      var transition := l.known && l.running != on && !Pending(l);
      var n := l.(known := true, running := on);
      (if transition then Changed(n) else n, transition)
    case NewAircraft => if Pending(l) then (l, false) else (Changed(l), true)
  }

  class AircraftSessionLifecycle {
    var epoch: nat
    var known: bool
    var running: bool
    var paused: bool
    var load: bool
    var teleport: bool
    var end: bool
    var lastFlow: nat

    ghost function State(): Life
      reads this
    {
      Life(epoch, known, running, paused, load, teleport, end, lastFlow)
    }

    constructor ()
      ensures State() == FRESH
    {
      epoch, known, running, paused, load, teleport, end, lastFlow := 0, false, false, false, false, false, false, 0;
    }

    method Change()
      modifies this
      ensures State() == Changed(old(State()))
    {
      if epoch != MAX_EPOCH {
        epoch := epoch + 1;
      }
    }

    method AcceptFlow(event: nat) returns (reported: bool)
      requires event in FLOWS
      modifies this
      ensures (State(), reported) == Accepted(old(State()), Flow(event))
    {
      lastFlow := event;
      var loadBefore, teleportBefore, endBefore := load, teleport, end;
      if event == FLT_LOAD || event == TELEPORT_START || event == BACK_TO_MAIN_MENU || event == FLIGHT_END {
        if event == FLT_LOAD {
          load := true;
        } else if event == TELEPORT_START {
          teleport := true;
        } else {
          end := true;
        }
        if !(loadBefore || teleportBefore || endBefore) {
          Change();
        }
      } else if event == FLT_LOADED {
        load := false;
      } else if event == TELEPORT_DONE {
        teleport := false;
      } else if event == FLIGHT_START {
        end, paused := false, false;
      }
      return load != loadBefore || teleport != teleportBefore || end != endBefore;
    }

    method Accept(p: seq<byte>) returns (reported: bool)
      modifies this
      ensures (State(), reported) == Accepted(old(State()), Told(p))
    {
      if |p| < 24 || |p| > 65536 || Word(p, 0) != |p| {
        return false;
      }
      if (Word(p, 2) == FLOW_ID || Word(p, 2) == FLOW_ID_OLD) && |p| == 272 && HasNul(p, 16, 256) {
        var event := Word(p, 3);
        if event !in FLOWS {
          return false;
        }
        reported := AcceptFlow(event);
        return;
      }
      if Word(p, 2) == 4 && |p| == 24 && Word(p, 4) == PAUSE_EVENT {
        paused := Word(p, 5) != 0;
        return false;
      }
      if Word(p, 2) == 4 && |p| == 24 && Word(p, 4) == SIM_EVENT && Word(p, 5) <= 1 {
        var on := Word(p, 5) != 0;
        var transition := known && running != on && !(load || teleport || end);
        known, running := true, on;
        if transition {
          Change();
        }
        return transition;
      }
      if Word(p, 2) == 6 && |p| == 288 && (Word(p, 4) == AIRCRAFT_EVENT || Word(p, 4) == FLIGHT_EVENT)
        && HasNul(p, 24, 260) {
        if !(load || teleport || end) {
          Change();
          return true;
        }
      }
      return false;
    }
  }

  // ----- History -----

  type History = seq<Notice>

  function Before(h: History): History
    requires h != []
  {
    h[..|h| - 1]
  }

  function Last(h: History): Notice
    requires h != []
  {
    h[|h| - 1]
  }

  function After(h: History): Life {
    if h == [] then FRESH else Accepted(After(Before(h)), Last(h)).0
  }

  function Reported(h: History): bool
    requires h != []
  {
    Accepted(After(Before(h)), Last(h)).1
  }

  predicate IsFlow(n: Notice, events: set<nat>) {
    n.Flow? && n.event in events
  }

  // One of the first events came, and none of the second since.
  ghost predicate Open(h: History, starts: set<nat>, ends: set<nat>) {
    exists i :: 0 <= i < |h| && IsFlow(h[i], starts) && forall j :: i < j < |h| ==> !IsFlow(h[j], ends)
  }

  // Flow events by the simulator's numbers: 1 loads a flight and 2 has loaded it, 3 and 4 begin and end a
  // teleport, 9 goes back to the menu, 14 and 15 start and end a flight.
  ghost predicate LoadOpen(h: History) {
    Open(h, {1}, {2})
  }

  ghost predicate TeleportOpen(h: History) {
    Open(h, {3}, {4})
  }

  // Only the start of a flight closes an end or a menu.
  ghost predicate EndOpen(h: History) {
    Open(h, {9, 15}, {14})
  }

  ghost predicate Loading(h: History) {
    LoadOpen(h) || TeleportOpen(h) || EndOpen(h)
  }

  // What the simulator last said of itself.
  function LastSim(h: History): Option<bool> {
    if h == [] then None else if Last(h).Sim? then Some(Last(h).on) else LastSim(Before(h))
  }

  // The last notice begins a session: a loading starts, the simulator starts or stops, or the
  // aircraft or flight changes, none of them within a loading.
  ghost predicate Begins(h: History)
    requires h != []
  {
    && !Loading(Before(h))
    && (IsFlow(Last(h), {1, 3, 9, 15}) || Last(h).NewAircraft?
      || (Last(h).Sim? && LastSim(Before(h)) == Some(!Last(h).on)))
  }

  ghost function Sessions(h: History): nat {
    if h == [] then 0 else Sessions(Before(h)) + if Begins(h) then 1 else 0
  }

  lemma OpenGrows(h: History, starts: set<nat>, ends: set<nat>)
    requires h != [] && starts !! ends
    ensures Open(h, starts, ends) <==>
        (IsFlow(Last(h), starts) || (Open(Before(h), starts, ends) && !IsFlow(Last(h), ends)))
  {
    var before := Before(h);
    assert forall i :: 0 <= i < |before| ==> before[i] == h[i];
    if Open(before, starts, ends) && !IsFlow(Last(h), ends) {
      var i :| 0 <= i < |before| && IsFlow(before[i], starts) && forall j :: i < j < |before| ==>
        !IsFlow(before[j], ends);
      assert IsFlow(h[i], starts) && forall j :: i < j < |h| ==> !IsFlow(h[j], ends);
    }
    if Open(h, starts, ends) && !IsFlow(Last(h), starts) {
      var i :| 0 <= i < |h| && IsFlow(h[i], starts) && forall j :: i < j < |h| ==> !IsFlow(h[j], ends);
      assert IsFlow(before[i], starts) && forall j :: i < j < |before| ==> !IsFlow(before[j], ends);
    }
  }

  lemma AllOpenGrow(h: History)
    requires h != []
    ensures LoadOpen(h) <==> (IsFlow(Last(h), {FLT_LOAD}) || (LoadOpen(Before(h)) && !IsFlow(Last(h), {FLT_LOADED})))
    ensures TeleportOpen(h) <==>
      (IsFlow(Last(h), {TELEPORT_START}) || (TeleportOpen(Before(h)) && !IsFlow(Last(h), {TELEPORT_DONE})))
    ensures EndOpen(h) <==>
      (IsFlow(Last(h), {BACK_TO_MAIN_MENU, FLIGHT_END}) || (EndOpen(Before(h)) && !IsFlow(Last(h), {FLIGHT_START})))
  {
    OpenGrows(h, {FLT_LOAD}, {FLT_LOADED});
    OpenGrows(h, {TELEPORT_START}, {TELEPORT_DONE});
    OpenGrows(h, {BACK_TO_MAIN_MENU, FLIGHT_END}, {FLIGHT_START});
  }

  // The fields agree with everything that was ever told.
  ghost predicate Tells(l: Life, h: History) {
    && l.load == LoadOpen(h) && l.teleport == TeleportOpen(h) && l.end == EndOpen(h)
    && l.known == LastSim(h).Some? && (l.known ==> l.running == LastSim(h).value)
    && l.epoch == (if Sessions(h) <= 0xFFFF_FFFF_FFFF_FFFF then Sessions(h) else 0xFFFF_FFFF_FFFF_FFFF)
  }

  // What one notice does to each field.
  lemma BitsMove(l: Life, n: Notice)
    ensures
      var t := Accepted(l, n).0;
      && t.load == (IsFlow(n, {FLT_LOAD}) || (l.load && !IsFlow(n, {FLT_LOADED})))
      && t.teleport == (IsFlow(n, {TELEPORT_START}) || (l.teleport && !IsFlow(n, {TELEPORT_DONE})))
      && t.end == (IsFlow(n, {BACK_TO_MAIN_MENU, FLIGHT_END}) || (l.end && !IsFlow(n, {FLIGHT_START})))
  {
    if n.Flow? {
      FlowBits(l, n.event);
      hide AfterFlow;
    }
  }

  lemma FlowBits(l: Life, event: nat)
    ensures
      var t := AfterFlow(l, event);
      && t.load == (event == FLT_LOAD || (l.load && event != FLT_LOADED))
      && t.teleport == (event == TELEPORT_START || (l.teleport && event != TELEPORT_DONE))
      && t.end == (event == BACK_TO_MAIN_MENU || event == FLIGHT_END || (l.end && event != FLIGHT_START))
  {
  }

  predicate BeginsFrom(l: Life, n: Notice) {
    !Pending(l) && (IsFlow(n, STARTS) || n.NewAircraft? || (n.Sim? && l.known && l.running != n.on))
  }

  lemma RestMoves(l: Life, n: Notice)
    ensures
      var (t, reported) := Accepted(l, n);
      && t.known == (l.known || n.Sim?) && t.running == (if n.Sim? then n.on else l.running)
      && t.epoch == (if BeginsFrom(l, n) && l.epoch != MAX_EPOCH then l.epoch + 1 else l.epoch)
      && (reported <==> (BeginsFrom(l, n) || t.load != l.load || t.teleport != l.teleport || t.end != l.end))
  {
    if n.Flow? {
      FlowMoves(l, n.event);
      hide AfterFlow, STARTS;
    }
  }

  lemma FlowMoves(l: Life, event: nat)
    ensures
      var t := AfterFlow(l, event);
      && t.known == l.known && t.running == l.running
      && t.epoch == (if !Pending(l) && event in STARTS && l.epoch != MAX_EPOCH then l.epoch + 1 else l.epoch)
      && (!Pending(l) && event in STARTS ==> Pending(t))
  {
  }

  lemma TellsMore(h: History)
    requires h != [] && Tells(After(Before(h)), Before(h))
    ensures Tells(After(h), h)
    ensures Reported(h) <==>
      (Begins(h) || LoadOpen(h) != LoadOpen(Before(h)) || TeleportOpen(h) != TeleportOpen(Before(h))
        || EndOpen(h) != EndOpen(Before(h)))
  {
    var l, n := After(Before(h)), Last(h);
    AllOpenGrow(h);
    BitsMove(l, n);
    RestMoves(l, n);
    assert After(h) == Accepted(l, n).0;
    hide LoadOpen, TeleportOpen, EndOpen, Accepted, After;
    assert Begins(h) == BeginsFrom(l, n);
  }

  lemma {:induction false} FieldsTellHistory(h: History)
    ensures Tells(After(h), h)
  {
    if h != [] {
      FieldsTellHistory(Before(h));
      TellsMore(h);
    }
  }

  // Every session is reported, and besides it only a change of what is loading.
  lemma SessionsReported(h: History)
    requires h != []
    ensures Begins(h) ==> Reported(h)
    ensures After(h).epoch != After(Before(h)).epoch ==> Reported(h)
    ensures Reported(h) && !Begins(h) ==>
      LoadOpen(h) != LoadOpen(Before(h)) || TeleportOpen(h) != TeleportOpen(Before(h))
        || EndOpen(h) != EndOpen(Before(h))
  {
    FieldsTellHistory(Before(h));
    TellsMore(h);
    hide LoadOpen, TeleportOpen, EndOpen, Begins;
  }

  lemma {:induction false} SessionsGrow(h: History, i: nat)
    requires i <= |h|
    ensures Sessions(h[..i]) <= Sessions(h)
  {
    if i < |h| {
      SessionsGrow(Before(h), i);
      assert Before(h)[..i] == h[..i];
    } else {
      assert h[..i] == h;
    }
  }

  // The epoch never decreases.
  lemma EpochNeverDecreases(h: History, i: nat)
    requires i <= |h|
    ensures After(h[..i]).epoch <= After(h).epoch
  {
    FieldsTellHistory(h);
    FieldsTellHistory(h[..i]);
    SessionsGrow(h, i);
  }

  // A loading that begins with notice i and goes on to j counts exactly one session, however many
  // starts, completions and aircraft changes come inside it.
  lemma {:induction false} OneSessionPerLoading(h: History, i: nat, j: nat)
    requires i < j <= |h| && !Loading(h[..i]) && forall k :: i < k <= j ==> Loading(h[..k])
    ensures Sessions(h[..j]) == Sessions(h[..i]) + 1
    decreases j
  {
    var upTo := h[..j];
    assert Before(upTo) == h[..j - 1];
    if j == i + 1 {
      AllOpenGrow(upTo);
      hide LoadOpen, TeleportOpen, EndOpen;
    } else {
      OneSessionPerLoading(h, i, j - 1);
      assert Loading(h[..j - 1]);
    }
  }

  // An end or a menu is left only by the start of a flight, whatever loads or completes meanwhile.
  lemma EndClosesOnFlightStart(h: History)
    requires h != [] && After(Before(h)).end && !After(h).end
    ensures Last(h) == Flow(14)
  {
    FieldsTellHistory(Before(h));
    FieldsTellHistory(h);
    AllOpenGrow(h);
  }

  // A pause was told, and since then neither its end nor the start of a flight.
  ghost predicate Paused(h: History) {
    exists i :: 0 <= i < |h| && h[i] == Pause(true) && forall j :: i < j < |h| ==>
      !h[j].Pause? && h[j] != Flow(14)
  }

  // The last flow event told, 0 before the first.
  ghost predicate LastFlow(h: History, event: nat) {
    if event == 0 then forall i :: 0 <= i < |h| ==> !h[i].Flow?
    else exists i :: 0 <= i < |h| && h[i] == Flow(event) && forall j :: i < j < |h| ==> !h[j].Flow?
  }

  // Notices as packets tell them.
  predicate FromPackets(h: History) {
    forall i :: 0 <= i < |h| && h[i].Flow? ==> h[i].event in FLOWS
  }

  lemma PausedGrows(h: History)
    requires h != []
    ensures Paused(h) <==>
      (Last(h) == Pause(true) || (Paused(Before(h)) && !Last(h).Pause? && Last(h) != Flow(14)))
  {
    var before, n := Before(h), |h| - 1;
    assert forall i :: 0 <= i < n ==> before[i] == h[i];
    if Paused(before) && !Last(h).Pause? && Last(h) != Flow(14) {
      var i :| 0 <= i < n && before[i] == Pause(true)
        && forall j :: i < j < n ==> !before[j].Pause? && before[j] != Flow(14);
      assert h[i] == Pause(true);
    }
    if Paused(h) && Last(h) != Pause(true) {
      var i :| 0 <= i < |h| && h[i] == Pause(true) && forall j :: i < j < |h| ==>
        !h[j].Pause? && h[j] != Flow(14);
      assert before[i] == Pause(true);
    }
  }

  lemma LastFlowGrows(h: History, event: nat)
    requires h != [] && FromPackets(h) && LastFlow(Before(h), event)
    ensures LastFlow(h, if Last(h).Flow? then Last(h).event else event)
  {
    var before, n := Before(h), |h| - 1;
    if Last(h).Flow? {
      assert h[n] == Flow(Last(h).event) && Last(h).event != 0;
    } else {
      assert forall i :: 0 <= i < n ==> h[i] == before[i];
      if event != 0 {
        var i :| 0 <= i < n && before[i] == Flow(event) && forall j :: i < j < n ==> !before[j].Flow?;
        assert h[i] == Flow(event);
      }
    }
  }

  lemma PauseMoves(l: Life, n: Notice)
    ensures
      var t := Accepted(l, n).0;
      && t.paused == (n == Pause(true) || (l.paused && !n.Pause? && n != Flow(FLIGHT_START)))
      && t.lastFlow == if n.Flow? then n.event else l.lastFlow
  {
    if n.Flow? {
      FlowPause(l, n.event);
      hide AfterFlow;
    }
  }

  lemma FlowPause(l: Life, event: nat)
    ensures AfterFlow(l, event).paused == (l.paused && event != FLIGHT_START) && AfterFlow(l, event).lastFlow == event
  {
  }

  // The pause and the last flow event are those of the whole history too.
  lemma {:induction false} PauseTellsHistory(h: History)
    requires FromPackets(h)
    ensures After(h).paused == Paused(h) && LastFlow(h, After(h).lastFlow)
  {
    if h != [] {
      PauseTellsHistory(Before(h));
      PausedGrows(h);
      LastFlowGrows(h, After(Before(h)).lastFlow);
      PauseMoves(After(Before(h)), Last(h));
      hide Paused, LastFlow, Accepted;
    }
  }
}
