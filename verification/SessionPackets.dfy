/** The simulator's packets byte by byte: which of them say what. */
module SessionPackets {
  import opened Bits
  import opened AircraftSession

  // The bytes of a packet from `at` on, least significant first as the simulator sends its words.
  predicate Says(p: seq<byte>, at: nat, word: seq<byte>) {
    at + |word| <= |p| && p[at..at + |word|] == word
  }

  // A flow event: 272 bytes, message 39 or 40, the event, and a text that ends.
  predicate FlowPacket(p: seq<byte>, event: byte) {
    && |p| == 272 && Says(p, 0, [0x10, 0x01, 0, 0]) && (Says(p, 8, [39, 0, 0, 0]) || Says(p, 8, [40, 0, 0, 0]))
    && Says(p, 12, [event, 0, 0, 0]) && 0 in p[16..272]
  }

  // A system event of 24 bytes with its number and its data.
  predicate EventPacket(p: seq<byte>, event: byte) {
    |p| == 24 && Says(p, 0, [24, 0, 0, 0]) && Says(p, 8, [4, 0, 0, 0]) && Says(p, 16, [event, 0, 0, 0])
  }

  // A file event of 288 bytes: event 101 or 102, and a file name that ends.
  predicate FilePacket(p: seq<byte>) {
    && |p| == 288 && Says(p, 0, [0x20, 0x01, 0, 0]) && Says(p, 8, [6, 0, 0, 0])
    && (Says(p, 16, [101, 0, 0, 0]) || Says(p, 16, [102, 0, 0, 0])) && 0 in p[24..284]
  }

  lemma WordIs(p: seq<byte>, i: nat, a: byte, b: byte, c: byte, d: byte)
    requires 4 * i + 4 <= |p|
    ensures Word(p, i) == a + 0x100 * b + 0x1_0000 * c + 0x100_0000 * d <==> Says(p, 4 * i, [a, b, c, d])
  {
    var word := p[4 * i..4 * i + 4];
    assert word[0] == p[4 * i] && word[1] == p[4 * i + 1] && word[2] == p[4 * i + 2] && word[3] == p[4 * i + 3];
    Digits(p[4 * i], p[4 * i + 1], p[4 * i + 2], p[4 * i + 3], a, b, c, d);
  }

  lemma Digits(a: byte, b: byte, c: byte, d: byte, e: byte, f: byte, g: byte, h: byte)
    ensures a + 0x100 * b + 0x1_0000 * c + 0x100_0000 * d == e + 0x100 * f + 0x1_0000 * g + 0x100_0000 * h ==>
        a == e && b == f && c == g && d == h
  {
  }

  // ----- What is told, exactly -----

  lemma FlowsTold(p: seq<byte>, event: byte)
    ensures Told(p) == Flow(event) <==> event in {1, 2, 3, 4, 9, 14, 15} && FlowPacket(p, event)
  {
    if |p| == 272 {
      WordIs(p, 0, 0x10, 0x01, 0, 0);
      WordIs(p, 2, 39, 0, 0, 0);
      WordIs(p, 2, 40, 0, 0, 0);
      WordIs(p, 3, event, 0, 0, 0);
    }
    hide Word, Says;
  }

  lemma PausesTold(p: seq<byte>, on: bool)
    ensures Told(p) == Pause(on) <==> EventPacket(p, 103) && (on <==> !Says(p, 20, [0, 0, 0, 0]))
  {
    EventWords(p, 103);
    if |p| == 24 {
      WordIs(p, 5, 0, 0, 0, 0);
    }
    hide Word, Says;
  }

  lemma SimsTold(p: seq<byte>, on: bool)
    ensures Told(p) == Sim(on) <==> EventPacket(p, 100) && Says(p, 20, [if on then 1 else 0, 0, 0, 0])
  {
    EventWords(p, 100);
    if |p| == 24 {
      WordIs(p, 5, 0, 0, 0, 0);
      WordIs(p, 5, 1, 0, 0, 0);
    }
    hide Word, Says;
  }

  lemma EventWords(p: seq<byte>, event: byte)
    ensures EventPacket(p, event) <==> |p| == 24 && Word(p, 0) == 24 && Word(p, 2) == 4 && Word(p, 4) == event
  {
    if |p| == 24 {
      WordIs(p, 0, 24, 0, 0, 0);
      WordIs(p, 2, 4, 0, 0, 0);
      WordIs(p, 4, event, 0, 0, 0);
    }
    hide Word, Says;
  }

  lemma AircraftTold(p: seq<byte>)
    ensures Told(p) == NewAircraft <==> FilePacket(p)
  {
    if |p| == 288 {
      WordIs(p, 0, 0x20, 0x01, 0, 0);
      WordIs(p, 2, 6, 0, 0, 0);
      WordIs(p, 4, 101, 0, 0, 0);
      WordIs(p, 4, 102, 0, 0, 0);
    }
    hide Word, Says;
  }

  // What a packet says is told by its bytes alone.
  lemma ToldExactly(p: seq<byte>)
    ensures forall e: nat :: Told(p) == Flow(e) <==> e in {1, 2, 3, 4, 9, 14, 15} && FlowPacket(p, e)
    ensures forall on :: Told(p) == Pause(on) <==> EventPacket(p, 103) && (on <==> !Says(p, 20, [0, 0, 0, 0]))
    ensures forall on :: Told(p) == Sim(on) <==> EventPacket(p, 100) && Says(p, 20, [if on then 1 else 0, 0, 0, 0])
    ensures Told(p) == NewAircraft <==> FilePacket(p)
  {
    hide FlowPacket, EventPacket, FilePacket, Says;
    forall e: nat ensures Told(p) == Flow(e) <==> e in {1, 2, 3, 4, 9, 14, 15} && FlowPacket(p, e) {
      if e < 256 {
        FlowsTold(p, e);
      }
    }
    forall on ensures Told(p) == Pause(on) <==> EventPacket(p, 103) && (on <==> !Says(p, 20, [0, 0, 0, 0])) {
      PausesTold(p, on);
    }
    forall on ensures Told(p) == Sim(on) <==> EventPacket(p, 100) && Says(p, 20, [if on then 1 else 0, 0, 0, 0]) {
      SimsTold(p, on);
    }
    AircraftTold(p);
  }
}
