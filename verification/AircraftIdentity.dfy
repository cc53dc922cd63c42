/** The aircraft's type and path, asked for together, and the automatic choice of a profile for it. */
module AircraftIdentity {
  import opened Bits
  import Session = AircraftSession

  const FIRST_TYPE_REQUEST: nat := 5
  const FIRST_PATH_REQUEST: nat := 6
  const FRESH_FOR: nat := 3000

  // ----- Packets -----

  predicate TypeShape(p: seq<byte>) {
    && |p| == 296 && Session.Word(p, 0) == 296 && Session.Word(p, 2) == 8
    && Session.Word(p, 5) == 5 && Session.Word(p, 6) == 0 && Session.Word(p, 9) == 1
  }

  predicate PathShape(p: seq<byte>) {
    |p| == 284 && Session.Word(p, 0) == 284 && Session.Word(p, 2) == 15
  }

  lemma Shapes(p: seq<byte>)
    ensures TypeShape(p) ==> |p| == 296 && !PathShape(p)
    ensures PathShape(p) ==> |p| == 284
  {
  }

  predicate IsType(p: seq<byte>, request: nat) {
    TypeShape(p) && Session.Word(p, 3) == request && 0 in p[40..]
  }

  predicate IsPath(p: seq<byte>, request: nat) {
    PathShape(p) && Session.Word(p, 3) == request && 0 in p[24..]
  }

  // ----- The cache -----

  datatype Cache = Cache(
    typeRequest: nat, pathRequest: nat,
    pendingType: seq<byte>, pendingPath: seq<byte>, pendingTypeMs: nat, pendingPathMs: nat,
    type_: seq<byte>, path: seq<byte>, typeMs: nat, pathMs: nat)

  const EMPTY := Cache(FIRST_TYPE_REQUEST, FIRST_PATH_REQUEST, [], [], 0, 0, [], [], 0, 0)

  function Asked(c: Cache, typeRequest: nat, pathRequest: nat): Cache {
    c.(typeRequest := typeRequest, pathRequest := pathRequest, pendingType := [], pendingPath := [], pendingTypeMs := 0,
      pendingPathMs := 0)
  }

  // Both answers are in: they become the value together.
  function Settled(c: Cache): Cache {
    if c.pendingTypeMs == 0 || c.pendingPathMs == 0 then c
    else c.(type_ := c.pendingType, path := c.pendingPath, typeMs := c.pendingTypeMs, pathMs := c.pendingPathMs,
            pendingTypeMs := 0, pendingPathMs := 0)
  }

  function Received(c: Cache, p: seq<byte>, now: nat): Cache {
    if now == 0 then c
    else if IsType(p, c.typeRequest) then Settled(c.(pendingType := p[40..], pendingTypeMs := now))
    else if IsPath(p, c.pathRequest) then Settled(c.(pendingPath := p[24..], pendingPathMs := now))
    else c
  }

  function UpToNul(text: seq<byte>): seq<byte> {
    if text == [] || text[0] == 0 then [] else [text[0]] + UpToNul(text[1..])
  }

  class AircraftIdentityCache {
    var typeRequest: nat
    var pathRequest: nat
    var pendingType: seq<byte>
    var pendingPath: seq<byte>
    var pendingTypeMs: nat
    var pendingPathMs: nat
    var type_: seq<byte>
    var path: seq<byte>
    var typeMs: nat
    var pathMs: nat

    ghost function State(): Cache
      reads this
    {
      Cache(typeRequest, pathRequest, pendingType, pendingPath, pendingTypeMs, pendingPathMs, type_, path, typeMs,
        pathMs)
    }

    constructor ()
      ensures State() == EMPTY
    {
      typeRequest, pathRequest := FIRST_TYPE_REQUEST, FIRST_PATH_REQUEST;
      pendingType, pendingPath, pendingTypeMs, pendingPathMs := [], [], 0, 0;
      type_, path, typeMs, pathMs := [], [], 0, 0;
    }

    method BeginRequest(typeRequest: nat, pathRequest: nat)
      modifies this
      ensures State() == Asked(old(State()), typeRequest, pathRequest)
    {
      this.typeRequest, this.pathRequest := typeRequest, pathRequest;
      pendingType, pendingPath, pendingTypeMs, pendingPathMs := [], [], 0, 0;
    }

    method Accept(p: seq<byte>, now: nat) returns (accepted: bool)
      modifies this
      ensures State() == Received(old(State()), p, now)
      ensures accepted <==> now != 0 && (IsType(p, old(typeRequest)) || IsPath(p, old(pathRequest)))
    {
      Shapes(p);
      hide TypeShape, PathShape, Session.Word;
      if |p| < 24 || |p| > 65536 || now == 0 {
        return false;
      }
      var isType := TypeShape(p) && Session.Word(p, 3) == typeRequest;
      var isPath := PathShape(p) && Session.Word(p, 3) == pathRequest;
      if !isType && !isPath {
        return false;
      }
      var text := if isType then p[40..] else p[24..];
      if 0 !in text {
        return false;
      }
      if isType {
        pendingType, pendingTypeMs := text, now;
      } else {
        pendingPath, pendingPathMs := text, now;
      }
      if pendingTypeMs != 0 && pendingPathMs != 0 {
        type_, path, typeMs, pathMs := pendingType, pendingPath, pendingTypeMs, pendingPathMs;
        pendingTypeMs, pendingPathMs := 0, 0;
      }
      return true;
    }

    // A sample is as old as the older answer, and fresh for three seconds. The profile is detected from
    // both texts, each up to its first NUL, once there are any.
    method Sample(now: nat, detect: (seq<byte>, seq<byte>) -> nat) returns (sampleMs: nat, fresh_: bool, profile: nat)
      ensures sampleMs <= typeMs && sampleMs <= pathMs && (sampleMs == typeMs || sampleMs == pathMs)
      ensures fresh_ <==> sampleMs != 0 && sampleMs <= now <= sampleMs + 3000
      ensures profile == if sampleMs != 0 then detect(UpToNul(type_), UpToNul(path)) else 0
    {
      sampleMs := if pathMs < typeMs then pathMs else typeMs;
      fresh_ := sampleMs != 0 && now >= sampleMs && now - sampleMs <= FRESH_FOR;
      profile := if sampleMs != 0 then detect(UpToNul(type_), UpToNul(path)) else 0;
    }
  }

  // ----- Polls -----

  // What reaches the cache. An answer belongs to the poll that asked for it, whenever it arrives.
  datatype Event = Begin(typeRequest: nat, pathRequest: nat) | Answer(packet: seq<byte>, now: nat, poll: nat)

  type History = seq<Event>

  function Before(h: History): History
    requires h != []
  {
    h[..|h| - 1]
  }

  function After(h: History): Cache {
    if h == [] then EMPTY
    else
      match h[|h| - 1]
      case Begin(t, p) => Asked(After(Before(h)), t, p)
      case Answer(packet, now, _) => Received(After(Before(h)), packet, now)
  }

  // The request IDs of every poll, type first. Poll 0 is what is asked before the first request.
  type Ids = seq<(nat, nat)>

  function Asks(h: History): (ids: Ids)
    ensures 0 < |ids| <= |h| + 1 && ids[0] == (5, 6)
  {
    if h == [] then [(5, 6)]
    else
      match h[|h| - 1]
      case Begin(t, p) => Asks(Before(h)) + [(t, p)]
      case Answer(_, _, _) => Asks(Before(h))
  }

  function Polls(h: History): nat {
    |Asks(h)| - 1
  }

  // An answer carries the request ID of its poll.
  ghost predicate Answers(ids: Ids, e: Event) {
    e.Answer? ==>
      && e.poll < |ids|
      && (TypeShape(e.packet) ==> Session.Word(e.packet, 3) == ids[e.poll].0)
      && (PathShape(e.packet) ==> Session.Word(e.packet, 3) == ids[e.poll].1)
  }

  ghost predicate Honest(h: History) {
    forall i :: 0 <= i < |h| ==> Answers(Asks(h[..i]), h[i])
  }

  // No poll reuses a request ID of an earlier one.
  ghost predicate Unshared(ids: Ids) {
    forall j, k :: 0 <= j < k < |ids| ==> ids[j].0 != ids[k].0 && ids[j].1 != ids[k].1
  }

  ghost predicate TypeCame(h: History, text: seq<byte>, poll: nat) {
    exists i :: 0 <= i < |h| && h[i].Answer? && h[i].poll == poll && TypeShape(h[i].packet) && text == h[i].packet[40..]
  }

  ghost predicate PathCame(h: History, text: seq<byte>, poll: nat) {
    exists i :: 0 <= i < |h| && h[i].Answer? && h[i].poll == poll && PathShape(h[i].packet) && text == h[i].packet[24..]
  }

  // Type and path came in answer to the same poll.
  ghost predicate SamePoll(h: History, type_: seq<byte>, path: seq<byte>) {
    exists poll: nat :: TypeCame(h, type_, poll) && PathCame(h, path, poll)
  }

  ghost predicate Kept(h: History) {
    var c := After(h);
    && (c.typeRequest, c.pathRequest) == Asks(h)[Polls(h)]
    && (c.pendingTypeMs != 0 ==> TypeCame(h, c.pendingType, Polls(h)))
    && (c.pendingPathMs != 0 ==> PathCame(h, c.pendingPath, Polls(h)))
    && (c.typeMs != 0 <==> c.pathMs != 0)
    && (c.typeMs != 0 ==> SamePoll(h, c.type_, c.path))
  }

  lemma UnsharedBefore(h: History)
    requires h != []
    ensures Unshared(Asks(h)) ==> Unshared(Asks(Before(h)))
  {
    assert Asks(h)[..|Asks(Before(h))|] == Asks(Before(h));
  }

  lemma HonestBefore(h: History)
    requires h != []
    ensures Honest(h) <==> Honest(Before(h)) && Answers(Asks(Before(h)), h[|h| - 1])
  {
    hide Answers, Asks;
    var before := Before(h);
    assert before == h[..|before|];
    assert forall i :: 0 <= i < |before| ==> before[i] == h[i] && before[..i] == h[..i];
  }

  lemma CameBefore(h: History, text: seq<byte>, poll: nat)
    requires h != []
    ensures TypeCame(Before(h), text, poll) ==> TypeCame(h, text, poll)
    ensures PathCame(Before(h), text, poll) ==> PathCame(h, text, poll)
  {
    var before := Before(h);
    assert forall i :: 0 <= i < |before| ==> before[i] == h[i];
  }

  // An accepted answer belongs to the current poll.
  lemma AcceptedIsCurrent(h: History)
    requires h != [] && Honest(h) && Unshared(Asks(h)) && h[|h| - 1].Answer?
    requires (After(Before(h)).typeRequest, After(Before(h)).pathRequest) == Asks(h)[Polls(h)]
    ensures
      var c, e := After(Before(h)), h[|h| - 1];
      && (IsType(e.packet, c.typeRequest) ==> TypeCame(h, e.packet[40..], Polls(h)))
      && (IsPath(e.packet, c.pathRequest) ==> PathCame(h, e.packet[24..], Polls(h)))
  {
    HonestBefore(h);
    assert Answers(Asks(h), h[|h| - 1]);
  }

  lemma KeptMore(h: History)
    requires h != [] && Honest(h) && Unshared(Asks(h)) && Kept(Before(h))
    ensures Kept(h)
  {
    if h[|h| - 1].Answer? {
      AnsweredKept(h, After(Before(h)), h[|h| - 1]);
    } else {
      SameBefore(h, After(Before(h)).type_, After(Before(h)).path);
      AskedKept(h, h[|h| - 1]);
    }
  }

  lemma AnsweredKept(h: History, c: Cache, e: Event)
    requires h != [] && Honest(h) && Unshared(Asks(h)) && Kept(Before(h))
    requires c == After(Before(h)) && e == h[|h| - 1] && e.Answer?
    ensures Kept(h)
  {
    hide TypeCame, PathCame, SamePoll;
    CameBefore(h, c.pendingType, Polls(h));
    CameBefore(h, c.pendingPath, Polls(h));
    SameBefore(h, c.type_, c.path);
    assert Asks(h) == Asks(Before(h));
    AcceptedIsCurrent(h);
    hide Honest, Unshared;
    Step(h);
    Shapes(e.packet);
    KeptAnswer(h, c, e);
  }

  lemma AskedKept(h: History, e: Event)
    requires h != [] && e == h[|h| - 1] && e.Begin?
    requires Kept(Before(h)) && (SamePoll(Before(h), After(Before(h)).type_, After(Before(h)).path) ==>
        SamePoll(h, After(Before(h)).type_, After(Before(h)).path))
    ensures Kept(h)
  {
    hide TypeCame, PathCame, SamePoll;
  }

  lemma KeptAnswer(h: History, c: Cache, e: Event)
    requires e.Answer? && After(h) == Received(c, e.packet, e.now)
        && (c.typeRequest, c.pathRequest) == Asks(h)[Polls(h)]
    requires c.pendingTypeMs != 0 ==> TypeCame(h, c.pendingType, Polls(h))
    requires c.pendingPathMs != 0 ==> PathCame(h, c.pendingPath, Polls(h))
    requires (c.typeMs != 0 <==> c.pathMs != 0) && (c.typeMs != 0 ==> SamePoll(h, c.type_, c.path))
    requires IsType(e.packet, c.typeRequest) ==> TypeCame(h, e.packet[40..], Polls(h))
    requires IsPath(e.packet, c.pathRequest) ==> PathCame(h, e.packet[24..], Polls(h))
    ensures Kept(h)
  {
    var d := Received(c, e.packet, e.now);
    var poll := Polls(h);
    Shapes(e.packet);
    hide TypeCame, PathCame, After, Polls, Asks, TypeShape, PathShape, Session.Word;
    assert TypeCame(h, d.type_, poll) && PathCame(h, d.path, poll) ==> SamePoll(h, d.type_, d.path);
    hide SamePoll;
  }

  lemma SameBefore(h: History, type_: seq<byte>, path: seq<byte>)
    requires h != []
    ensures SamePoll(Before(h), type_, path) ==> SamePoll(h, type_, path)
  {
    if SamePoll(Before(h), type_, path) {
      var poll: nat :| TypeCame(Before(h), type_, poll) && PathCame(Before(h), path, poll);
      CameBefore(h, type_, poll);
      CameBefore(h, path, poll);
    }
  }

  // With fresh request IDs a published type and path always come from the same poll, however late,
  // doubled or out of order the answers arrive.
  lemma {:induction false} PublishedFromOnePoll(h: History)
    requires Honest(h) && Unshared(Asks(h))
    ensures Kept(h)
  {
    if h != [] {
      HonestBefore(h);
      UnsharedBefore(h);
      PublishedFromOnePoll(Before(h));
      KeptMore(h);
    }
  }

  // The published pair is not from one poll.
  ghost predicate Mixed(h: History) {
    After(h).typeMs != 0 && !SamePoll(h, After(h).type_, After(h).path)
  }

  function Begins(ids: Ids): History {
    if ids == [] then [] else Begins(ids[..|ids| - 1]) + [Begin(ids[|ids| - 1].0, ids[|ids| - 1].1)]
  }

  // Requests alone publish nothing.
  lemma {:induction false} BeginsMore(h: History, ids: Ids)
    ensures Asks(h + Begins(ids)) == Asks(h) + ids
    ensures Honest(h) ==> Honest(h + Begins(ids))
    ensures Shown(h + Begins(ids)) == Shown(h)
  {
    var all := h + Begins(ids);
    if ids == [] {
      assert all == h;
    } else {
      BeginsMore(h, ids[..|ids| - 1]);
      BeginsLast(h, ids);
      hide Asks, Honest, Shown, Begins;
      OneMore(all);
      LastSplit(Asks(h), ids);
    }
  }

  lemma LastSplit(first: Ids, ids: Ids)
    requires ids != []
    ensures first + ids == first + ids[..|ids| - 1] + [ids[|ids| - 1]]
  {
  }

  function Shown(h: History): (seq<byte>, seq<byte>, nat, nat) {
    var c := After(h);
    (c.type_, c.path, c.typeMs, c.pathMs)
  }

  lemma BeginsLast(h: History, ids: Ids)
    requires ids != []
    ensures
      var all, last := h + Begins(ids), ids[|ids| - 1];
      all != [] && Before(all) == h + Begins(ids[..|ids| - 1]) && all[|all| - 1] == Begin(last.0, last.1)
  {
  }

  lemma OneMore(h: History)
    requires h != [] && h[|h| - 1].Begin?
    ensures Asks(h) == Asks(Before(h)) + [(h[|h| - 1].typeRequest, h[|h| - 1].pathRequest)]
    ensures Honest(Before(h)) ==> Honest(h)
    ensures Shown(h) == Shown(Before(h))
  {
    HonestBefore(h);
    hide Honest;
  }

  // Request `at` reuses the type ID of poll `a` and the path ID of poll `b`: their answers, come late,
  // are published together.
  function Mixing(ids: Ids, at: nat, type_: Event, path: Event): History
    requires at < |ids|
  {
    Begins(ids[1..at + 1]) + [type_, path] + Begins(ids[at + 1..])
  }

  lemma ReusedRequestsMix(ids: Ids, at: nat, type_: Event, path: Event)
    requires at < |ids| && ids[0] == (5, 6)
    requires type_.Answer? && IsType(type_.packet, ids[at].0) && type_.now != 0
    requires path.Answer? && IsPath(path.packet, ids[at].1) && path.now != 0
    requires type_.poll <= at && path.poll <= at && type_.poll != path.poll
    requires ids[type_.poll].0 == ids[at].0 && ids[path.poll].1 == ids[at].1
    ensures
      var h := Mixing(ids, at, type_, path);
      Honest(h) && Asks(h) == ids && Mixed(h)
  {
    var asked := Begins(ids[1..at + 1]);
    Begun(ids, at);
    Late(ids, at, type_, path);
    OnlyAnswers(ids, at, type_, path);
    hide SamePoll, Begins, After, Asks, Honest, IsType, IsPath, TypeShape, PathShape, Answers, Mixed;
    MixedFrom(asked, ids[..at + 1], ids[at + 1..], type_, path);
    assert ids[..at + 1] + ids[at + 1..] == ids;
  }

  lemma MixedFrom(asked: History, ids: Ids, rest: Ids, type_: Event, path: Event)
    requires Honest(asked) && Asks(asked) == ids && After(asked).pendingTypeMs == 0 && After(asked).pendingPathMs == 0
    requires type_.Answer? && |type_.packet| == 296 && IsType(type_.packet, After(asked).typeRequest) && type_.now != 0
    requires path.Answer? && |path.packet| == 284 && IsPath(path.packet, After(asked).pathRequest) && path.now != 0
    requires Answers(ids, type_) && Answers(ids, path)
    requires !SamePoll(asked + [type_, path] + Begins(rest), type_.packet[40..], path.packet[24..])
    ensures
      var h := asked + [type_, path] + Begins(rest);
      Honest(h) && Asks(h) == ids + rest && Mixed(h)
  {
    hide SamePoll, Begins, After, Asks, Honest, IsType, IsPath, Answers, Mixed;
    Published(asked, type_, path);
    MixedLater(asked + [type_, path], rest, type_.packet[40..], path.packet[24..]);
  }

  // The answers are honest: the current request has their IDs.
  lemma Late(ids: Ids, at: nat, type_: Event, path: Event)
    requires at < |ids|
    requires type_.Answer? && IsType(type_.packet, ids[at].0) && path.Answer? && IsPath(path.packet, ids[at].1)
    requires type_.poll <= at && path.poll <= at
    requires ids[type_.poll].0 == ids[at].0 && ids[path.poll].1 == ids[at].1
    ensures TypeShape(type_.packet) && PathShape(path.packet) && |type_.packet| == 296 && |path.packet| == 284
    ensures Answers(ids[..at + 1], type_) && Answers(ids[..at + 1], path)
  {
    Shapes(type_.packet);
    Shapes(path.packet);
    hide TypeShape, PathShape, Session.Word;
  }

  lemma MixedLater(h: History, ids: Ids, type_: seq<byte>, path: seq<byte>)
    requires Honest(h) && After(h).type_ == type_ && After(h).path == path && After(h).typeMs != 0
    requires !SamePoll(h + Begins(ids), type_, path)
    ensures Honest(h + Begins(ids)) && Asks(h + Begins(ids)) == Asks(h) + ids && Mixed(h + Begins(ids))
  {
    BeginsMore(h, ids);
    hide SamePoll, After, Asks, Honest, Begins;
  }

  // Both answers, one after the other.
  lemma Published(asked: History, type_: Event, path: Event)
    requires Honest(asked) && After(asked).pendingTypeMs == 0 && After(asked).pendingPathMs == 0
    requires type_.Answer? && IsType(type_.packet, After(asked).typeRequest) && type_.now != 0
        && Answers(Asks(asked), type_)
    requires path.Answer? && IsPath(path.packet, After(asked).pathRequest) && path.now != 0
        && Answers(Asks(asked), path)
    ensures
      var both := asked + [type_, path];
      && Honest(both) && Asks(both) == Asks(asked)
      && After(both).type_ == type_.packet[40..] && After(both).path == path.packet[24..] && After(both).typeMs != 0
  {
    var typed, both := asked + [type_], asked + [type_, path];
    Shapes(type_.packet);
    Shapes(path.packet);
    hide TypeShape, PathShape, Session.Word, Honest;
    assert Before(typed) == asked && Before(both) == typed;
    HonestBefore(typed);
    HonestBefore(both);
    hide Answers;
    Step(typed);
    Step(both);
  }

  lemma Begun(ids: Ids, at: nat)
    requires at < |ids| && ids[0] == (5, 6)
    ensures
      var asked := Begins(ids[1..at + 1]);
      && Asks(asked) == ids[..at + 1] && Honest(asked)
      && After(asked).typeRequest == ids[at].0 && After(asked).pathRequest == ids[at].1
      && After(asked).pendingTypeMs == 0 && After(asked).pendingPathMs == 0
  {
    var more := ids[1..at + 1];
    AllBegun(more);
    assert [ids[0]] + more == ids[..at + 1];
    hide Asks, Honest;
    if more != [] {
      assert more[|more| - 1] == ids[at];
      LastBegun(more);
    }
  }

  lemma AllBegun(more: Ids)
    ensures Asks(Begins(more)) == [(5, 6)] + more && Honest(Begins(more))
  {
    BeginsMore([], more);
    assert [] + Begins(more) == Begins(more);
  }

  lemma LastBegun(more: Ids)
    requires more != []
    ensures
      var c, last := After(Begins(more)), more[|more| - 1];
      c.typeRequest == last.0 && c.pathRequest == last.1 && c.pendingTypeMs == 0 && c.pendingPathMs == 0
  {
    Step(Begins(more));
  }

  lemma {:induction false} BeginsAre(ids: Ids)
    ensures forall e :: e in Begins(ids) ==> e.Begin?
  {
    if ids != [] {
      BeginsAre(ids[..|ids| - 1]);
    }
  }

  // One answer of each kind came, for different polls.
  lemma OnlyAnswers(ids: Ids, at: nat, type_: Event, path: Event)
    requires at < |ids| && type_.Answer? && path.Answer? && TypeShape(type_.packet) && PathShape(path.packet)
    requires type_.poll != path.poll
    ensures !SamePoll(Mixing(ids, at, type_, path), type_.packet[40..], path.packet[24..])
  {
    var h := Mixing(ids, at, type_, path);
    BeginsAre(ids[1..at + 1]);
    BeginsAre(ids[at + 1..]);
    Shapes(type_.packet);
    Shapes(path.packet);
    hide TypeShape, PathShape, Begins;
    forall i | 0 <= i < |h| && h[i].Answer?
      ensures h[i] == type_ || h[i] == path
    {
      assert h[i] in h;
    }
  }

  // ----- Packets that exist -----

  function Bytes(words: seq<nat>): (bytes: seq<byte>)
    ensures |bytes| == 4 * |words|
  {
    if words == [] then []
    else
      var w := words[0];
      [w % 0x100, w / 0x100 % 0x100, w / 0x1_0000 % 0x100, w / 0x100_0000 % 0x100] + Bytes(words[1..])
  }

  lemma {:induction false} WordOfBytes(words: seq<nat>, i: nat, more: seq<byte>)
    requires i < |words| && words[i] < 0x1_0000_0000
    ensures Session.Word(Bytes(words) + more, i) == words[i]
  {
    var p := Bytes(words) + more;
    if i == 0 {
      Digits(words[0]);
    } else {
      WordOfBytes(words[1..], i - 1, more);
      assert p[4..] == Bytes(words[1..]) + more;
    }
  }

  lemma Digits(w: nat)
    requires w < 0x1_0000_0000
    ensures w == w % 0x100 + 0x100 * (w / 0x100 % 0x100) + 0x1_0000 * (w / 0x1_0000 % 0x100)
        + 0x100_0000 * (w / 0x100_0000 % 0x100)
  {
  }

  function Nuls(n: nat): (bytes: seq<byte>)
    ensures |bytes| == n
  {
    seq(n, _ => 0)
  }

  function TypePacket(request: nat): seq<byte> {
    Bytes([296, 0, 8, request, 0, 5, 0, 0, 0, 1]) + Nuls(256)
  }

  function PathPacket(request: nat): seq<byte> {
    Bytes([284, 0, 15, request, 0, 0]) + Nuls(260)
  }

  lemma PacketsExist(request: nat)
    requires request < 0x1_0000_0000
    ensures IsType(TypePacket(request), request) && IsPath(PathPacket(request), request)
  {
    var t, p := [296, 0, 8, request, 0, 5, 0, 0, 0, 1], [284, 0, 15, request, 0, 0];
    assert TypePacket(request)[40..] == Nuls(256) && Nuls(256)[0] == 0;
    assert PathPacket(request)[24..] == Nuls(260) && Nuls(260)[0] == 0;
    hide Session.Word, Bytes, Nuls;
    WordOfBytes(t, 0, Nuls(256));
    WordOfBytes(t, 2, Nuls(256));
    WordOfBytes(t, 3, Nuls(256));
    WordOfBytes(t, 5, Nuls(256));
    WordOfBytes(t, 6, Nuls(256));
    WordOfBytes(t, 9, Nuls(256));
    WordOfBytes(p, 0, Nuls(260));
    WordOfBytes(p, 2, Nuls(260));
    WordOfBytes(p, 3, Nuls(260));
  }

  // Request IDs are 32-bit words.
  ghost predicate Wire(ids: Ids) {
    && ids != [] && ids[0] == (5, 6)
    && forall k :: 0 <= k < |ids| ==> ids[k].0 < 0x1_0000_0000 && ids[k].1 < 0x1_0000_0000
  }

  // Whatever answers come, nothing is mixed, exactly when no poll reuses an ID of an earlier one.
  lemma NeverMixedExactly(ids: Ids)
    requires Wire(ids)
    ensures (forall h: History :: Honest(h) && Asks(h) == ids ==> !Mixed(h)) <==> Unshared(ids)
  {
    forall h: History | Unshared(ids) && Honest(h) && Asks(h) == ids
      ensures !Mixed(h)
    {
      PublishedFromOnePoll(h);
    }
    if !Unshared(ids) {
      var j, k :| 0 <= j < k < |ids| && (ids[j].0 == ids[k].0 || ids[j].1 == ids[k].1);
      SharedMixes(ids, j, k);
    }
  }

  lemma SharedMixes(ids: Ids, j: nat, k: nat)
    requires Wire(ids) && j < k < |ids| && (ids[j].0 == ids[k].0 || ids[j].1 == ids[k].1)
    ensures exists h: History :: Honest(h) && Asks(h) == ids && Mixed(h)
  {
    var a, b := if ids[j].0 == ids[k].0 then j else k, if ids[j].0 == ids[k].0 then k else j;
    PacketsExist(ids[k].0);
    PacketsExist(ids[k].1);
    ReusedRequestsMix(ids, k, Answer(TypePacket(ids[k].0), 1, a), Answer(PathPacket(ids[k].1), 1, b));
  }

  lemma Step(h: History)
    requires h != []
    ensures
      After(h) == match h[|h| - 1]
                  case Begin(t, p) => Asked(After(Before(h)), t, p)
                  case Answer(packet, now, _) => Received(After(Before(h)), packet, now)
  {
  }

  // ----- The automatic profile -----

  datatype Observation = Observation(id: nat, sampleMs: nat, variant: nat)

  class AutoProfileSelection {
    var candidate: nat
    var variant: nat
    var first: nat
    ghost var seen: seq<Observation>

    ghost predicate Valid()
      reads this
    {
      && (candidate != 0 ==> Trailing(seen, candidate, variant, first))
      && (candidate == 0 ==> seen == [] || !Usable(seen[|seen| - 1]))
    }

    constructor ()
      ensures Valid() && seen == []
    {
      candidate, variant, first := 0, 0, 0;
      seen := [];
    }

    // A profile is chosen exactly when an earlier sample agrees with this one and nothing between
    // them disagreed or was missing.
    method Observe(id: nat, sampleMs: nat, variant: nat) returns (chosen: nat)
      requires Valid()
      modifies this
      ensures Valid() && seen == old(seen) + [Observation(id, sampleMs, variant)]
      ensures chosen == if Agrees(seen) then id else 0
    {
      var o := Observation(id, sampleMs, variant);
      ghost var was := seen;
      seen := seen + [o];
      ObserveMore(was, o, candidate, this.variant, first);
      if id == 0 || sampleMs == 0 {
        candidate := 0;
        return 0;
      }
      if id != candidate || variant != this.variant || sampleMs < first {
        candidate, this.variant, first := id, variant, sampleMs;
        return 0;
      }
      return if sampleMs > first then id else 0;
    }
  }

  predicate Usable(o: Observation) {
    o.id != 0 && o.sampleMs != 0
  }

  predicate Same(o: Observation, p: Observation) {
    Usable(o) && Usable(p) && o.id == p.id && o.variant == p.variant
  }

  // From i to the end all samples are of one aircraft.
  ghost predicate Series(seen: seq<Observation>, i: nat) {
    i < |seen| && forall j :: i <= j < |seen| ==> Same(seen[j], seen[|seen| - 1])
  }

  ghost predicate Agrees(seen: seq<Observation>) {
    exists i: nat :: Series(seen, i) && seen[i].sampleMs < seen[|seen| - 1].sampleMs
  }

  // The last series is of this aircraft, and this is its least sample time.
  ghost predicate Trailing(seen: seq<Observation>, id: nat, variant: nat, first: nat) {
    && seen != [] && seen[|seen| - 1].id == id && seen[|seen| - 1].variant == variant
    && (exists i: nat :: Series(seen, i) && seen[i].sampleMs == first)
    && (forall i: nat :: Series(seen, i) ==> first <= seen[i].sampleMs)
  }

  lemma SeriesGrows(seen: seq<Observation>, o: Observation, i: nat)
    requires i < |seen|
    ensures Series(seen + [o], i) <==> (Series(seen, i) && Same(seen[|seen| - 1], o))
  {
    var more := seen + [o];
    assert forall j :: 0 <= j < |seen| ==> more[j] == seen[j];
  }

  lemma ObserveMore(seen: seq<Observation>, o: Observation, id: nat, variant: nat, first: nat)
    requires id != 0 ==> Trailing(seen, id, variant, first)
    requires id == 0 ==> seen == [] || !Usable(seen[|seen| - 1])
    ensures
      var more := seen + [o];
      var goesOn := id != 0 && Usable(o) && o.id == id && o.variant == variant;
      && (!Usable(o) ==> !Agrees(more))
      && (Usable(o) && !goesOn ==> !Agrees(more) && Trailing(more, o.id, o.variant, o.sampleMs))
      && (goesOn && o.sampleMs < first ==> !Agrees(more) && Trailing(more, o.id, o.variant, o.sampleMs))
      && (goesOn && first <= o.sampleMs ==>
        Trailing(more, id, variant, first) && (Agrees(more) <==> first < o.sampleMs))
  {
    var more, n := seen + [o], |seen|;
    assert Usable(o) ==> Series(more, n);
    forall i: nat | i < n ensures Series(more, i) <==> (Series(seen, i) && Same(seen[n - 1], o)) {
      SeriesGrows(seen, o, i);
    }
    if id != 0 {
      var i: nat :| Series(seen, i) && seen[i].sampleMs == first;
      assert Series(more, i) <==> Same(seen[n - 1], o);
    }
  }
}
