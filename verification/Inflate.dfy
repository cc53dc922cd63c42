/** A reader of DEFLATE streams made of one final fixed-Huffman block, after RFC 1951
    sections 3.2.3, 3.2.5 and 3.2.6. It shares no table with the writer: the ranges of the
    length and distance codes follow from the numbers of their extra bits. */
module Inflate {
  import opened Bits

  datatype Read<+T> = Bad | Got(value: T, rest: seq<bool>)

  datatype Token =
    | Literal(value: byte)
    | Match(length: nat, distance: nat)
    | EndOfBlock

  // The first n bits as a number, least significant first: extra bits (section 3.1.1).
  function TakeLow(bits: seq<bool>, n: nat): (r: Read<nat>) {
    if |bits| < n then Bad else Got(LowValue(bits[..n]), bits[n..])
  }

  // The first n bits as a number, most significant first: Huffman codes (section 3.1.1).
  function TakeHigh(bits: seq<bool>, n: nat): (r: Read<nat>) {
    if |bits| < n then Bad else Got(HighValue(bits[..n]), bits[n..])
  }

  // A literal/length symbol, by the fixed code lengths of section 3.2.6.
  function TakeSymbol(bits: seq<bool>): Read<nat> {
    var seven := TakeHigh(bits, 7);
    if seven.Bad? then Bad
    else if seven.value <= 0x17 then Got(256 + seven.value, seven.rest)
    else
      var eight := TakeHigh(bits, 8);
      if eight.Bad? then Bad
      else if 0x30 <= eight.value <= 0xBF then Got(eight.value - 0x30, eight.rest)
      else if 0xC0 <= eight.value <= 0xC7 then Got(280 + eight.value - 0xC0, eight.rest)
      else
        var nine := TakeHigh(bits, 9);
        if nine.Bad? || nine.value < 0x190 then Bad
        else Got(144 + nine.value - 0x190, nine.rest)
  }

  function LengthExtraBits(symbol: nat): nat
    requires 257 <= symbol <= 285
  {
    if symbol < 265 || symbol == 285 then 0 else (symbol - 261) / 4
  }

  // Each code takes over where the range of the one before it ends; 258 has a code of its own.
  function FirstLength(symbol: nat): nat
    requires 257 <= symbol <= 285
  {
    if symbol == 257 then 3
    else if symbol == 285 then 258
    else FirstLength(symbol - 1) + Pow2(LengthExtraBits(symbol - 1))
  }

  function DistanceExtraBits(code: nat): nat
    requires code < 30
  {
    if code < 4 then 0 else code / 2 - 1
  }

  function FirstDistance(code: nat): nat
    requires code < 30
  {
    if code == 0 then 1 else FirstDistance(code - 1) + Pow2(DistanceExtraBits(code - 1))
  }

  function TakeToken(bits: seq<bool>): Read<Token> {
    var symbol := TakeSymbol(bits);
    if symbol.Bad? then Bad
    else if symbol.value < 256 then Got(Literal(symbol.value), symbol.rest)
    else if symbol.value == 256 then Got(EndOfBlock, symbol.rest)
    else if symbol.value > 285 then Bad
    else
      var more := TakeLow(symbol.rest, LengthExtraBits(symbol.value));
      if more.Bad? then Bad
      else
        var distance := TakeDistance(more.rest);
        if distance.Bad? then Bad
        else Got(Match(FirstLength(symbol.value) + more.value, distance.value), distance.rest)
  }

  function TakeDistance(bits: seq<bool>): Read<nat> {
    var code := TakeHigh(bits, 5);
    if code.Bad? || code.value >= 30 then Bad
    else
      var more := TakeLow(code.rest, DistanceExtraBits(code.value));
      if more.Bad? then Bad else Got(FirstDistance(code.value) + more.value, more.rest)
  }

  // A match may run into its own output (section 3.2.3).
  function Copy(out: seq<byte>, length: nat, distance: nat): seq<byte>
    requires 0 < distance <= |out|
    decreases length
  {
    if length == 0 then out else Copy(out + [out[|out| - distance]], length - 1, distance)
  }

  function Block(bits: seq<bool>, out: seq<byte>): Read<seq<byte>>
    decreases |bits|
  {
    var token := TakeToken(bits);
    if token.Bad? then Bad
    else
      match token.value
      case EndOfBlock => Got(out, token.rest)
      case Literal(b) =>
        if |token.rest| < |bits| then Block(token.rest, out + [b]) else Bad
      case Match(length, distance) =>
        if 0 < distance <= |out| && |token.rest| < |bits| then Block(token.rest, Copy(out, length, distance)) else Bad
  }

  // One final block with fixed codes that ends in the last byte of the stream.
  function Stream(bytes: seq<byte>): Read<seq<byte>> {
    var bits := Unpack(bytes);
    if |bits| < 3 || !bits[0] || !bits[1] || bits[2] then Bad
    else
      var block := Block(bits[3..], []);
      if block.Bad? || |block.rest| >= 8 then Bad else block
  }
}
