/** UTF-8: the encoder of the text readers, and well-formedness after RFC 3629 section 4. */
module Utf8 {
  import opened Bits

  // Unicode scalar values: everything up to U+10FFFF but the surrogates.
  predicate Scalar(cp: nat) {
    cp <= 0x10FFFF && !(0xD800 <= cp <= 0xDFFF)
  }

  // Six bits to each continuation byte: `cp >> 6`, `>> 12` and `>> 18` are cp divided by 64 once,
  // twice and three times.
  function Encode(cp: nat): (bytes: seq<byte>)
    requires cp <= 0x10FFFF
    ensures 1 <= |bytes| <= 4
  {
    if cp < 0x80 then [cp]
    else
      var c1 := cp / 0x40;
      if cp < 0x800 then [0xC0 + c1, 0x80 + cp % 0x40]
      else
        var c2 := c1 / 0x40;
        if cp < 0x10000 then [0xE0 + c2, 0x80 + c1 % 0x40, 0x80 + cp % 0x40]
        else [0xF0 + c2 / 0x40, 0x80 + c2 % 0x40, 0x80 + c1 % 0x40, 0x80 + cp % 0x40]
  }

  datatype First = Bad | First(cp: nat, bytes: nat)

  predicate Tail(b: byte) {
    0x80 <= b <= 0xBF
  }

  // A code point and six bits more.
  function More(high: nat, b: byte): nat
    requires Tail(b)
  {
    var low: int := b;
    high * 0x40 + (low - 0x80)
  }

  // The first character, by the alternatives of the UTF8-octets grammar.
  function Decode(s: seq<byte>): (r: First)
    ensures r.First? ==> 1 <= r.bytes <= |s|
  {
    if |s| == 0 then Bad
    else
      var lead: int := s[0];
      if lead <= 0x7F then First(lead, 1)
      else if 0xC2 <= lead <= 0xDF then
        if |s| >= 2 && Tail(s[1]) then First(More(lead - 0xC0, s[1]), 2) else Bad
      else if 0xE0 <= lead <= 0xEF then
        if |s| >= 3 && Second3(lead, s[1]) && Tail(s[2])
        then First(More(More(lead - 0xE0, s[1]), s[2]), 3) else Bad
      else if 0xF0 <= lead <= 0xF4 then
        if |s| >= 4 && Second4(lead, s[1]) && Tail(s[2]) && Tail(s[3])
        then First(More(More(More(lead - 0xF0, s[1]), s[2]), s[3]), 4) else Bad
      else Bad
  }

  predicate Second3(a: byte, b: byte) {
    if a == 0xE0 then 0xA0 <= b <= 0xBF
    else if a == 0xED then 0x80 <= b <= 0x9F
    else Tail(b)
  }

  predicate Second4(a: byte, b: byte) {
    if a == 0xF0 then 0x90 <= b <= 0xBF
    else if a == 0xF4 then 0x80 <= b <= 0x8F
    else Tail(b)
  }

  predicate WellFormed(s: seq<byte>) {
    s == [] || (Decode(s).First? && WellFormed(s[Decode(s).bytes..]))
  }

  lemma DecodeInvertsEncode(cp: nat, rest: seq<byte>)
    requires Scalar(cp)
    ensures Decode(Encode(cp) + rest) == First(cp, |Encode(cp)|)
  {
    if cp >= 0x80 {
      var c1 := cp / 0x40;
      assert More(c1, 0x80 + cp % 0x40) == cp;
      if cp >= 0x800 {
        var c2 := c1 / 0x40;
        assert More(c2, 0x80 + c1 % 0x40) == c1;
        if cp >= 0x10000 {
          assert More(c2 / 0x40, 0x80 + c2 % 0x40) == c2;
          FourBytes(c2);
        } else {
          ThreeBytes(c1);
        }
      }
    }
  }

  lemma ThreeBytes(c1: nat)
    requires 0x20 <= c1 < 0x400 && !(0x360 <= c1 <= 0x37F)
    ensures Second3(0xE0 + c1 / 0x40, 0x80 + c1 % 0x40)
  {
  }

  lemma FourBytes(c2: nat)
    requires 0x10 <= c2 <= 0x10F
    ensures 0xF0 + c2 / 0x40 <= 0xF4 && Second4(0xF0 + c2 / 0x40, 0x80 + c2 % 0x40)
  {
  }

  // The grammar admits the shortest encoding of a scalar value and nothing else.
  lemma EncodeInvertsDecode(s: seq<byte>)
    requires Decode(s).First?
    ensures Scalar(Decode(s).cp) && s[..Decode(s).bytes] == Encode(Decode(s).cp)
  {
    var lead: int := s[0];
    if lead <= 0x7F {
    } else if lead <= 0xDF {
      MoreParts(lead - 0xC0, s[1]);
    } else if lead <= 0xEF {
      var c1 := More(lead - 0xE0, s[1]);
      MoreParts(lead - 0xE0, s[1]);
      MoreParts(c1, s[2]);
    } else {
      var c2 := More(lead - 0xF0, s[1]);
      var c1 := More(c2, s[2]);
      MoreParts(lead - 0xF0, s[1]);
      MoreParts(c2, s[2]);
      MoreParts(c1, s[3]);
    }
  }

  lemma MoreParts(high: nat, b: byte)
    requires Tail(b)
    ensures More(high, b) / 0x40 == high && 0x80 + More(high, b) % 0x40 == b
    ensures 0x40 * high <= More(high, b) < 0x40 * (high + 1)
  {
  }

  lemma WellFormedEncode(cp: nat, rest: seq<byte>)
    requires Scalar(cp)
    ensures WellFormed(Encode(cp) + rest) <==> WellFormed(rest)
  {
    DecodeInvertsEncode(cp, rest);
    assert (Encode(cp) + rest)[|Encode(cp)|..] == rest;
  }
}
