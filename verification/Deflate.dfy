/** The symbols of the deflate writer: the fixed code, lengths and distances with their extra bits, and the
    bits of each token. */
module Deflate {
  import opened Bits
  import opened BitWriters
  import opened Inflate

  const WINDOW := 32768
  const MIN_MATCH := 3
  const MAX_MATCH := 258
  const MAX_CHAIN := 48

  const LENGTH_BASE: seq<nat> := [3, 4, 5, 6, 7, 8, 9, 10, 11, 13, 15, 17, 19, 23, 27,
                                  31, 35, 43, 51, 59, 67, 83, 99, 115, 131, 163, 195, 227, 258]
  const LENGTH_EXTRA: seq<nat> := [0, 0, 0, 0, 0, 0, 0, 0, 1, 1, 1, 1, 2, 2, 2,
                                   2, 3, 3, 3, 3, 4, 4, 4, 4, 5, 5, 5, 5, 0]
  const DISTANCE_BASE: seq<nat> := [1, 2, 3, 4, 5, 7, 9, 13, 17, 25,
                                    33, 49, 65, 97, 129, 193, 257, 385, 513, 769,
                                    1025, 1537, 2049, 3073, 4097, 6145, 8193, 12289, 16385, 24577]
  const DISTANCE_EXTRA: seq<nat> := [0, 0, 0, 0, 1, 1, 2, 2, 3, 3, 4, 4, 5, 5, 6,
                                     6, 7, 7, 8, 8, 9, 9, 10, 10, 11, 11, 12, 12, 13, 13]

  // ----- Length and distance codes -----

  // The code whose range holds a length (or a distance): the last one that starts at or below it.
  function LengthCode(length: nat, top: nat := 285): (code: nat)
    requires 257 <= top <= 285 && MIN_MATCH <= length
    ensures 257 <= code <= top && FirstLength(code) <= length
    ensures code == top || length < FirstLength(code + 1)
  {
    if FirstLength(top) <= length then top else LengthCode(length, top - 1)
  }

  function DistanceCode(distance: nat, top: nat := 29): (code: nat)
    requires top < 30 && 1 <= distance
    ensures code <= top && FirstDistance(code) <= distance
    ensures code == top || distance < FirstDistance(code + 1)
  {
    if FirstDistance(top) <= distance then top else DistanceCode(distance, top - 1)
  }

  // The writer's tables are those of RFC 1951 section 3.2.5.
  lemma {:induction false} LengthTable(k: nat)
    requires k < 29
    ensures |LENGTH_BASE| == |LENGTH_EXTRA| == 29
    ensures LENGTH_BASE[k] == FirstLength(257 + k) && LENGTH_EXTRA[k] == LengthExtraBits(257 + k)
  {
    LengthExtras(k);
    if k > 0 {
      LengthTable(k - 1);
      Pow2Small();
    }
  }

  lemma LengthExtras(k: nat)
    requires k < 29
    ensures |LENGTH_EXTRA| == 29 && LENGTH_EXTRA[k] == LengthExtraBits(257 + k)
  {
  }

  lemma {:induction false} DistanceTable(k: nat)
    requires k < 30
    ensures |DISTANCE_BASE| == |DISTANCE_EXTRA| == 30
    ensures DISTANCE_BASE[k] == FirstDistance(k) && DISTANCE_EXTRA[k] == DistanceExtraBits(k)
  {
    hide DISTANCE_BASE, DISTANCE_EXTRA, Pow2, DistanceExtraBits;
    DistanceExtras(k);
    DistanceStep(k);
    if k > 0 {
      DistanceTable(k - 1);
    }
  }

  lemma DistanceStep(k: nat)
    requires k < 30
    ensures |DISTANCE_BASE| == 30 && DISTANCE_BASE[0] == 1
    ensures k > 0 ==> DISTANCE_BASE[k] == DISTANCE_BASE[k - 1] + Pow2(DistanceExtraBits(k - 1))
  {
    hide DISTANCE_EXTRA;
    Pow2Small();
    if k < 12 {
    } else if k < 18 {
    } else if k < 24 {
    } else {
    }
  }

  lemma DistanceExtras(k: nat)
    requires k < 30
    ensures |DISTANCE_EXTRA| == 30 && DISTANCE_EXTRA[k] == DistanceExtraBits(k)
  {
  }

  // Code 284 could also say 258; every longer range ends where the next begins.
  lemma LastRanges()
    ensures FirstLength(284) == 227 && FirstDistance(29) == 24577
  {
    hide FirstLength, FirstDistance;
    LengthTable(27);
    DistanceTable(29);
  }

  // ----- Tokens as bits -----

  // The matches the writer may emit.
  predicate Encodable(t: Token) {
    match t
    case Literal(_) => true
    case Match(length, distance) => MIN_MATCH <= length <= MAX_MATCH && 1 <= distance <= WINDOW
    case EndOfBlock => true
  }

  function DistanceBits(distance: nat): seq<bool>
    requires 1 <= distance
  {
    var code := DistanceCode(distance);
    HighFirst(code, 5) + LowBits(distance - FirstDistance(code), DistanceExtraBits(code))
  }

  function LengthBits(length: nat): seq<bool>
    requires MIN_MATCH <= length
  {
    var code := LengthCode(length);
    FixedCode(code) + LowBits(length - FirstLength(code), LengthExtraBits(code))
  }

  function TokenBits(t: Token): seq<bool>
    requires Encodable(t)
  {
    match t
    case Literal(b) => FixedCode(b)
    case Match(length, distance) => LengthBits(length) + DistanceBits(distance)
    case EndOfBlock => FixedCode(256)
  }

  lemma TakeLowInverse(v: nat, n: nat, rest: seq<bool>)
    requires v < Pow2(n)
    ensures TakeLow(LowBits(v, n) + rest, n) == Got(v, rest)
  {
    LowBitsInverse(v, n);
    assert (LowBits(v, n) + rest)[..n] == LowBits(v, n);
    assert (LowBits(v, n) + rest)[n..] == rest;
  }

  lemma TakeHighInverse(v: nat, n: nat, rest: seq<bool>)
    requires v < Pow2(n)
    ensures TakeHigh(HighFirst(v, n) + rest, n) == Got(v, rest)
  {
    HighFirstInverse(v, n);
    assert (HighFirst(v, n) + rest)[..n] == HighFirst(v, n);
    assert (HighFirst(v, n) + rest)[n..] == rest;
  }

  // A shorter read of the same code sees its leading bits.
  lemma TakeHighPrefix(v: nat, n: nat, rest: seq<bool>)
    requires v < Pow2(n + 1)
    ensures HighFirst(v, n + 1) + rest == HighFirst(v / 2, n) + ([v % 2 == 1] + rest)
    ensures TakeHigh(HighFirst(v, n + 1) + rest, n) == Got(v / 2, [v % 2 == 1] + rest)
  {
    HighFirstHalf(v, n);
    assert HighFirst(v, n + 1) + rest == HighFirst(v / 2, n) + ([v % 2 == 1] + rest);
    TakeHighInverse(v / 2, n, [v % 2 == 1] + rest);
  }

  // The fixed code is prefix-free: the reader recovers each symbol, whatever follows.
  lemma SymbolRoundTrip(symbol: nat, rest: seq<bool>)
    requires symbol < 288
    ensures TakeSymbol(FixedCode(symbol) + rest) == Got(symbol, rest)
  {
    hide TakeHigh, HighFirst, Pow2;
    Pow2Small();
    if symbol < 144 {
      EightBits(0x30 + symbol, rest);
    } else if symbol < 256 {
      var v := 0x190 + symbol - 144;
      TakeHighInverse(v, 9, rest);
      TakeHighPrefix(v, 8, rest);
      EightBits(v / 2, [v % 2 == 1] + rest);
    } else if symbol < 280 {
      TakeHighInverse(symbol - 256, 7, rest);
    } else {
      EightBits(0xC0 + symbol - 280, rest);
    }
  }

  lemma EightBits(v: nat, rest: seq<bool>)
    requires v < 256
    ensures TakeHigh(HighFirst(v, 8) + rest, 8) == Got(v, rest)
    ensures TakeHigh(HighFirst(v, 8) + rest, 7).Got?
    ensures TakeHigh(HighFirst(v, 8) + rest, 7).value == v / 2
  {
    Pow2Small();
    TakeHighInverse(v, 8, rest);
    TakeHighPrefix(v, 7, rest);
  }

  // Extra bits always fit.
  lemma LengthFits(length: nat)
    requires MIN_MATCH <= length <= MAX_MATCH
    ensures
      var code := LengthCode(length);
      LengthExtraBits(code) <= 5 && length - FirstLength(code) < Pow2(LengthExtraBits(code))
  {
    var code := LengthCode(length);
    if code == 284 {
      LastRanges();
      Pow2Small();
    }
  }

  lemma DistanceFits(distance: nat)
    requires 1 <= distance <= WINDOW
    ensures
      var code := DistanceCode(distance);
      DistanceExtraBits(code) <= 13 && distance - FirstDistance(code) < Pow2(DistanceExtraBits(code))
  {
    var code := DistanceCode(distance);
    if code == 29 {
      LastRanges();
      Pow2Small();
    }
  }

  lemma DistanceRoundTrip(distance: nat, rest: seq<bool>)
    requires 1 <= distance <= WINDOW
    ensures TakeDistance(DistanceBits(distance) + rest) == Got(distance, rest)
  {
    hide FirstDistance, DistanceExtraBits, DistanceCode, HighFirst, LowBits, LowValue, HighValue;
    var code := DistanceCode(distance);
    var n, excess := DistanceExtraBits(code), distance - FirstDistance(code);
    DistanceFits(distance);
    var more := LowBits(excess, n);
    assert DistanceBits(distance) + rest == HighFirst(code, 5) + (more + rest);
    assert code < Pow2(5) by {
      Pow2Small();
    }
    TakeHighInverse(code, 5, more + rest);
    TakeLowInverse(excess, n, rest);
  }

  lemma MatchRoundTrip(length: nat, distance: nat, rest: seq<bool>)
    requires Encodable(Match(length, distance))
    ensures TakeToken(LengthBits(length) + DistanceBits(distance) + rest) == Got(Match(length, distance), rest)
  {
    hide LengthCode, FirstLength, LengthExtraBits, FixedCode, TakeSymbol, TakeDistance, DistanceBits;
    var code := LengthCode(length);
    var n, excess := LengthExtraBits(code), length - FirstLength(code);
    LengthFits(length);
    var more, last := LowBits(excess, n), DistanceBits(distance) + rest;
    assert LengthBits(length) + DistanceBits(distance) + rest == FixedCode(code) + (more + last);
    SymbolRoundTrip(code, more + last);
    TakeLowInverse(excess, n, last);
    DistanceRoundTrip(distance, rest);
  }

  lemma TokenRoundTrip(t: Token, rest: seq<bool>)
    requires Encodable(t)
    ensures TakeToken(TokenBits(t) + rest) == Got(t, rest)
  {
    match t
    case Literal(b) => SymbolRoundTrip(b, rest);
    case EndOfBlock => SymbolRoundTrip(256, rest);
    case Match(length, distance) => MatchRoundTrip(length, distance, rest);
  }
}
