/** What the identity cache publishes and when, against the history of requests and answers, and the answers'
    packets byte by byte. */
module IdentityPolls {
  import opened Bits
  import Session = AircraftSession
  import opened SessionPackets
  import opened AircraftIdentity

  // ----- The answers' packets -----

  // A word below 2^32 as the simulator sends it.
  predicate SaysWord(p: seq<byte>, at: nat, word: nat) {
    exists a: byte, b: byte, c: byte, d: byte ::
      word == a + 0x100 * b + 0x1_0000 * c + 0x100_0000 * d && Says(p, at, [a, b, c, d])
  }

  // The data of an object: message 8, definition 5, no flags, one datum, a string of 256 bytes that ends.
  predicate TypeAnswer(p: seq<byte>, request: nat) {
    && |p| == 296 && Says(p, 0, [0x28, 0x01, 0, 0]) && Says(p, 8, [8, 0, 0, 0]) && SaysWord(p, 12, request)
    && Says(p, 20, [5, 0, 0, 0]) && Says(p, 24, [0, 0, 0, 0]) && Says(p, 36, [1, 0, 0, 0]) && 0 in p[40..296]
  }

  // A state of the system: message 15, a string of 260 bytes that ends.
  predicate PathAnswer(p: seq<byte>, request: nat) {
    && |p| == 284 && Says(p, 0, [0x1C, 0x01, 0, 0]) && Says(p, 8, [15, 0, 0, 0]) && SaysWord(p, 12, request)
    && 0 in p[24..284]
  }

  lemma SaysRequest(p: seq<byte>, request: nat)
    requires |p| >= 16
    ensures Session.Word(p, 3) == request <==> SaysWord(p, 12, request)
  {
    var a, b, c, d := p[12], p[13], p[14], p[15];
    assert p[12..16] == [a, b, c, d];
    assert Says(p, 12, [a, b, c, d]);
    if a: byte, b: byte, c: byte, d: byte :|
      request == a + 0x100 * b + 0x1_0000 * c + 0x100_0000 * d && Says(p, 12, [a, b, c, d]) {
      WordIs(p, 3, a, b, c, d);
    }
    hide Says;
  }

  // What the cache takes for an answer is one.
  lemma TypesExactly(p: seq<byte>, request: nat)
    ensures IsType(p, request) <==> TypeAnswer(p, request)
  {
    if |p| == 296 {
      WordIs(p, 0, 0x28, 0x01, 0, 0);
      WordIs(p, 2, 8, 0, 0, 0);
      WordIs(p, 5, 5, 0, 0, 0);
      WordIs(p, 6, 0, 0, 0, 0);
      WordIs(p, 9, 1, 0, 0, 0);
      SaysRequest(p, request);
      assert p[40..] == p[40..296];
    }
    hide Session.Word, Says, SaysWord;
  }

  lemma PathsExactly(p: seq<byte>, request: nat)
    ensures IsPath(p, request) <==> PathAnswer(p, request)
  {
    if |p| == 284 {
      WordIs(p, 0, 0x1C, 0x01, 0, 0);
      WordIs(p, 2, 15, 0, 0, 0);
      SaysRequest(p, request);
      assert p[24..] == p[24..284];
    }
    hide Session.Word, Says, SaysWord;
  }

  // ----- Answers that wait for the other one -----

  datatype Kind = TypeText | PathText

  function Other(kind: Kind): Kind {
    if kind.TypeText? then PathText else TypeText
  }

  // Event i answers the request of its time.
  ghost predicate Answered(h: History, i: nat, kind: Kind) {
    && i < |h| && h[i].Answer? && h[i].now != 0
    && var (typeRequest, pathRequest) := Current(h[..i]);
       if kind.TypeText? then TypeAnswer(h[i].packet, typeRequest) else PathAnswer(h[i].packet, pathRequest)
  }

  // The request IDs in force: those of the last request.
  function Current(h: History): (nat, nat) {
    Asks(h)[|Asks(h)| - 1]
  }

  // Answer i is not part of a publication yet, and belongs to the request in force.
  ghost predicate Waits(h: History, i: nat, kind: Kind)
    decreases |h|, 2
  {
    && Answered(h, i, kind)
    && (forall k :: i < k < |h| ==> !h[k].Begin?)
    && forall k :: i <= k < |h| ==> !PublishedAt(h, k)
  }

  // Event k was one that publishes.
  ghost predicate PublishedAt(h: History, k: nat)
    decreases |h|, 1
  {
    k < |h| && Publishes(h[..k + 1])
  }

  // The last event is an answer, and one of the other kind waits for it.
  ghost predicate Publishes(h: History)
    decreases |h|, 0
  {
    && h != []
    && exists i: nat, kind :: Answered(h, |h| - 1, kind) && Waits(Before(h), i, Other(kind))
  }

  // The latest of its kind.
  ghost predicate Latest(h: History, i: nat, kind: Kind) {
    Waits(h, i, kind) && forall k :: i < k < |h| ==> !Answered(h, k, kind)
  }

  function TextOf(e: Event, kind: Kind): seq<byte>
    requires e.Answer? && |e.packet| >= 40
  {
    if kind.TypeText? then e.packet[40..] else e.packet[24..]
  }

  // What waits is the latest answer of its kind; the time is 0 where none waits.
  ghost predicate Holds(h: History, kind: Kind, text: seq<byte>, ms: nat) {
    if ms == 0 then forall i: nat :: !Waits(h, i, kind)
    else exists i: nat ::
      Latest(h, i, kind) && h[i].Answer? && |h[i].packet| >= 40 && text == TextOf(h[i], kind) && ms == h[i].now
  }

  // A publication pairs the last answer with the latest waiting one of the other kind; nothing else changes
  // what is published.
  ghost predicate PublishesPair(h: History, b: Cache, c: Cache)
    requires h != []
  {
    if Publishes(h) then
      && h[|h| - 1].Answer? && |h[|h| - 1].packet| >= 40
      && var e := h[|h| - 1];
         || (&& Answered(h, |h| - 1, TypeText) && c.type_ == TextOf(e, TypeText) && c.typeMs == e.now
             && c.pathMs != 0 && Holds(Before(h), PathText, c.path, c.pathMs))
         || (&& Answered(h, |h| - 1, PathText) && c.path == TextOf(e, PathText) && c.pathMs == e.now
             && c.typeMs != 0 && Holds(Before(h), TypeText, c.type_, c.typeMs))
    else c.type_ == b.type_ && c.path == b.path && c.typeMs == b.typeMs && c.pathMs == b.pathMs
  }

  lemma {:induction false} RequestInForce(h: History)
    ensures (After(h).typeRequest, After(h).pathRequest) == Current(h)
  {
    if h != [] {
      RequestInForce(Before(h));
      hide IsType, IsPath;
    }
  }

  lemma AnsweredBefore(h: History, i: nat, kind: Kind)
    requires h != [] && i < |h| - 1
    ensures Answered(h, i, kind) <==> Answered(Before(h), i, kind)
  {
    assert h[..i] == Before(h)[..i];
  }

  // One more event.
  lemma WaitsMore(h: History, i: nat, kind: Kind)
    requires h != [] && i < |h| - 1
    ensures Waits(h, i, kind) <==> Waits(Before(h), i, kind) && !h[|h| - 1].Begin? && !Publishes(h)
  {
    var b := Before(h);
    AnsweredBefore(h, i, kind);
    assert h[..|h|] == h;
    assert forall k :: 0 <= k < |b| ==> b[k] == h[k];
    forall k: nat | k < |b| ensures PublishedAt(b, k) == PublishedAt(h, k) {
      assert b[..k + 1] == h[..k + 1];
    }
    assert PublishedAt(h, |h| - 1) == Publishes(h);
    hide Answered, Publishes, PublishedAt;
  }

  lemma WaitsLast(h: History, kind: Kind)
    requires h != []
    ensures Waits(h, |h| - 1, kind) <==> Answered(h, |h| - 1, kind) && !Publishes(h)
  {
    assert h[..|h|] == h;
    assert PublishedAt(h, |h| - 1) == Publishes(h);
    hide Answered, Publishes, PublishedAt;
  }

  lemma WaitsInside(h: History)
    ensures forall i: nat, kind :: Waits(h, i, kind) ==> i < |h|
  {
    hide Publishes;
  }

  // The earlier answers wait on, unless all is published or asked anew.
  ghost predicate Carries(h: History, kind: Kind)
    requires h != []
  {
    && (forall i: nat :: i < |h| - 1 ==>
          (Waits(h, i, kind) <==> Waits(Before(h), i, kind) && !h[|h| - 1].Begin? && !Publishes(h)))
    && (forall i: nat :: i < |h| - 1 ==> (Answered(h, i, kind) <==> Answered(Before(h), i, kind)))
    && (forall i: nat :: Waits(Before(h), i, kind) ==> i < |h| - 1)
    && (forall i: nat :: Waits(h, i, kind) ==> i < |h|)
    && (Waits(h, |h| - 1, kind) <==> Answered(h, |h| - 1, kind) && !Publishes(h))
  }

  lemma AllCarry(h: History, kind: Kind)
    requires h != []
    ensures Carries(h, kind)
  {
    WaitsInside(Before(h));
    WaitsInside(h);
    WaitsLast(h, kind);
    forall i: nat | i < |h| - 1
      ensures Waits(h, i, kind) <==> Waits(Before(h), i, kind) && !h[|h| - 1].Begin? && !Publishes(h)
      ensures Answered(h, i, kind) <==> Answered(Before(h), i, kind)
    {
      WaitsMore(h, i, kind);
      AnsweredBefore(h, i, kind);
    }
    hide Waits, Answered, Publishes;
  }

  // What waits after one more event.
  lemma NothingHeld(h: History, kind: Kind)
    requires h != [] && (Publishes(h) || h[|h| - 1].Begin?)
    ensures Holds(h, kind, [], 0)
  {
    hide Waits, Answered, Publishes;
    AnswersAreLong(h, |h| - 1, kind);
    forall i: nat ensures !Waits(h, i, kind) {
      WaitsInside(h);
      if i < |h| - 1 {
        WaitsMore(h, i, kind);
      } else if i == |h| - 1 {
        WaitsLast(h, kind);
      }
    }
  }

  lemma LatestOn(h: History, i: nat, kind: Kind)
    requires h != [] && Latest(Before(h), i, kind)
    requires !Publishes(h) && h[|h| - 1].Answer? && !Answered(h, |h| - 1, kind)
    ensures i < |h| - 1 && Latest(h, i, kind)
  {
    hide Waits, Answered, Publishes;
    var b, n := Before(h), |h| - 1;
    assert Waits(b, i, kind);
    WaitsInside(b);
    WaitsMore(h, i, kind);
    forall k: nat | i < k < |h| ensures !Answered(h, k, kind) {
      if k < n {
        assert !Answered(b, k, kind);
        AnsweredBefore(h, k, kind);
      }
    }
  }

  lemma HeldOn(h: History, kind: Kind, text: seq<byte>, ms: nat)
    requires h != [] && Holds(Before(h), kind, text, ms)
    requires !Publishes(h) && h[|h| - 1].Answer? && !Answered(h, |h| - 1, kind)
    ensures Holds(h, kind, text, ms)
  {
    var b := Before(h);
    if ms == 0 {
      AllCarry(h, kind);
      hide Waits, Answered, Publishes;
      forall i: nat ensures !Waits(h, i, kind) {
        assert !Waits(b, i, kind);
      }
    } else {
      hide Waits, Answered, Publishes, Latest;
      var i: nat :| Latest(b, i, kind) && b[i].Answer? && |b[i].packet| >= 40 && text == TextOf(b[i], kind)
        && ms == b[i].now;
      LatestOn(h, i, kind);
      assert h[i] == b[i];
    }
  }

  lemma NewHeld(h: History, kind: Kind)
    requires h != [] && !Publishes(h) && Answered(h, |h| - 1, kind)
    ensures
      var e := h[|h| - 1];
      e.Answer? && |e.packet| >= 40 && e.now != 0 && Holds(h, kind, TextOf(e, kind), e.now)
  {
    AllCarry(h, kind);
    AnswersAreLong(h, |h| - 1, kind);
    hide Waits, Answered, Publishes;
    assert Latest(h, |h| - 1, kind);
  }

  lemma HoldsMore(h: History, kind: Kind, text: seq<byte>, ms: nat)
    requires h != [] && Holds(Before(h), kind, text, ms)
    ensures Publishes(h) || h[|h| - 1].Begin? ==> Holds(h, kind, [], 0)
    ensures !Publishes(h) && h[|h| - 1].Answer? && !Answered(h, |h| - 1, kind) ==> Holds(h, kind, text, ms)
    ensures !Publishes(h) && Answered(h, |h| - 1, kind) ==>
      var e := h[|h| - 1];
      e.Answer? && |e.packet| >= 40 && e.now != 0 && Holds(h, kind, TextOf(e, kind), e.now)
  {
    hide Waits, Answered, Publishes, Holds;
    if Publishes(h) || h[|h| - 1].Begin? {
      NothingHeld(h, kind);
    }
    if !Publishes(h) && Answered(h, |h| - 1, kind) {
      NewHeld(h, kind);
    } else if !Publishes(h) && h[|h| - 1].Answer? {
      HeldOn(h, kind, text, ms);
    }
  }

  lemma AnswersAreLong(h: History, i: nat, kind: Kind)
    ensures Answered(h, i, kind) ==> h[i].Answer? && |h[i].packet| >= 40 && h[i].now != 0
    ensures Answered(h, i, kind) ==> !Answered(h, i, Other(kind))
    ensures i < |h| && h[i].Begin? ==> !Answered(h, i, kind)
  {
    hide Says, SaysWord, Asks;
  }

  // ----- The cache against all that -----

  ghost predicate Tells(h: History, c: Cache) {
    Holds(h, TypeText, c.pendingType, c.pendingTypeMs) && Holds(h, PathText, c.pendingPath, c.pendingPathMs)
  }

  // What one event does to the fields, from what waits.
  lemma EventMoves(h: History, b: Cache)
    requires h != [] && b == After(Before(h)) && Tells(Before(h), b)
    ensures
      var c, e, n := After(h), h[|h| - 1], |h| - 1;
      var isType, isPath := Answered(h, n, TypeText), Answered(h, n, PathText);
      && (e.Begin? ==> c.pendingTypeMs == 0 && c.pendingPathMs == 0 && SameShown(b, c))
      && (e.Answer? && !isType && !isPath ==> c == b)
      && (isType ==> !isPath && e.Answer? && |e.packet| >= 40 && c == Settled(b.(pendingType := TextOf(e, TypeText),
            pendingTypeMs := e.now)))
      && (isPath ==> e.Answer? && |e.packet| >= 40 && c == Settled(b.(pendingPath := TextOf(e, PathText),
            pendingPathMs := e.now)))
  {
    var e, n := h[|h| - 1], |h| - 1;
    RequestInForce(Before(h));
    assert h[..n] == Before(h);
    AnswersAreLong(h, n, TypeText);
    AnswersAreLong(h, n, PathText);
    Step(h);
    if e.Answer? {
      TypesExactly(e.packet, b.typeRequest);
      PathsExactly(e.packet, b.pathRequest);
    }
    hide Asks, IsType, IsPath, TypeAnswer, PathAnswer, Holds, After, Settled;
  }

  predicate SameShown(b: Cache, c: Cache) {
    c.type_ == b.type_ && c.path == b.path && c.typeMs == b.typeMs && c.pathMs == b.pathMs
  }

  // Something is published exactly when both texts are there.
  lemma PublishesWhen(h: History, b: Cache)
    requires h != [] && Tells(Before(h), b)
    ensures Publishes(h) <==>
        (Answered(h, |h| - 1, TypeText) && b.pendingPathMs != 0)
          || (Answered(h, |h| - 1, PathText) && b.pendingTypeMs != 0)
  {
    var p, n := Before(h), |h| - 1;
    SomeWaits(p, TypeText, b.pendingType, b.pendingTypeMs);
    SomeWaits(p, PathText, b.pendingPath, b.pendingPathMs);
    assert Publishes(h) <==>
      (exists i: nat :: Answered(h, n, TypeText) && Waits(p, i, PathText))
      || (exists i: nat :: Answered(h, n, PathText) && Waits(p, i, TypeText)) by {
      PublishesByKind(h);
    }
    hide Waits, Holds, Answered, Publishes;
  }

  lemma PublishesByKind(h: History)
    requires h != []
    ensures Publishes(h) <==>
      || (exists i: nat :: Answered(h, |h| - 1, TypeText) && Waits(Before(h), i, PathText))
      || (exists i: nat :: Answered(h, |h| - 1, PathText) && Waits(Before(h), i, TypeText))
  {
    hide Waits, Answered;
    var p, n := Before(h), |h| - 1;
    if i: nat :| Answered(h, n, TypeText) && Waits(p, i, PathText) {
      assert Answered(h, n, TypeText) && Waits(p, i, Other(TypeText));
    }
    if i: nat :| Answered(h, n, PathText) && Waits(p, i, TypeText) {
      assert Answered(h, n, PathText) && Waits(p, i, Other(PathText));
    }
  }

  lemma SomeWaits(h: History, kind: Kind, text: seq<byte>, ms: nat)
    requires Holds(h, kind, text, ms)
    ensures (exists i: nat :: Waits(h, i, kind)) <==> ms != 0
  {
    hide Waits;
    if ms != 0 {
      var i: nat :| Latest(h, i, kind);
      assert Waits(h, i, kind);
    }
  }

  // Over any history: what waits is the latest answer of its kind to the request in force, and a pair is
  // published exactly when an answer finds one of the other kind waiting.
  lemma {:induction false} PublishesExactly(h: History)
    ensures Tells(h, After(h))
    ensures h != [] ==> PublishesPair(h, After(Before(h)), After(h))
  {
    if h == [] {
      NothingWaits();
    } else {
      var b, c := After(Before(h)), After(h);
      PublishesExactly(Before(h));
      EventMoves(h, b);
      PublishesWhen(h, b);
      HoldsMore(h, TypeText, b.pendingType, b.pendingTypeMs);
      HoldsMore(h, PathText, b.pendingPath, b.pendingPathMs);
      hide After, Answered, Waits, Publishes, Asks;
    }
  }

  lemma NothingWaits()
    ensures Tells([], After([]))
  {
    WaitsInside([]);
    hide Waits;
  }
}
