/** The table-driven CRC-32 of the ZIP entries. A register is a natural number below 2^32. */
module Crc {
  import opened Bits

  const POLYNOMIAL: nat := 0xEDB88320
  const ONES: nat := 0xFFFF_FFFF

  function Xor(a: nat, b: nat): nat
    decreases a + b
  {
    if a == 0 then b
    else if b == 0 then a
    else (if a % 2 != b % 2 then 1 else 0) + 2 * Xor(a / 2, b / 2)
  }

  // ----- The definition: a shift register fed one bit at a time (RFC 1952 section 8) -----

  function Shift(c: nat): nat {
    if c % 2 == 1 then Xor(POLYNOMIAL, c / 2) else c / 2
  }

  function Feed(c: nat, bits: seq<bool>): nat
    decreases |bits|
  {
    if bits == [] then c else Feed(Shift(Xor(c, if bits[0] then 1 else 0)), bits[1..])
  }

  function Crc32(data: seq<byte>): nat {
    Xor(Feed(ONES, Unpack(data)), ONES)
  }

  // ----- Exclusive or -----

  lemma {:induction false} XorParts(a: nat, b: nat)
    ensures Xor(a, b) / 2 == Xor(a / 2, b / 2)
    ensures Xor(a, b) % 2 == (if a % 2 != b % 2 then 1 else 0)
  {
  }

  lemma {:induction false} XorCommutes(a: nat, b: nat)
    ensures Xor(a, b) == Xor(b, a)
    decreases a + b
  {
    if a > 0 && b > 0 {
      XorCommutes(a / 2, b / 2);
    }
  }

  lemma {:induction false} XorAssociates(a: nat, b: nat, c: nat)
    ensures Xor(Xor(a, b), c) == Xor(a, Xor(b, c))
    decreases a + b + c
  {
    if a > 0 && b > 0 && c > 0 {
      XorAssociates(a / 2, b / 2, c / 2);
      XorParts(a, b);
      XorParts(b, c);
      XorParts(Xor(a, b), c);
      XorParts(a, Xor(b, c));
    }
  }

  lemma {:induction false} XorSelf(a: nat)
    ensures Xor(a, a) == 0
  {
    if a > 0 {
      XorSelf(a / 2);
    }
  }

  lemma XorCancels(a: nat, b: nat)
    ensures Xor(a, Xor(a, b)) == b
  {
    XorAssociates(a, a, b);
    XorSelf(a);
  }

  // Words without a common set bit.
  lemma {:induction false} XorDisjoint(low: nat, high: nat, k: nat)
    requires low < Pow2(k)
    ensures Xor(low, Shl(high, k)) == low + Shl(high, k)
  {
    if k > 0 {
      XorDisjoint(low / 2, high, k - 1);
      XorDouble(low, Shl(high, k - 1));
    }
  }

  lemma XorDouble(a: nat, b: nat)
    ensures Xor(a, 2 * b) == a % 2 + 2 * Xor(a / 2, b)
  {
    assert (2 * b) / 2 == b && (2 * b) % 2 == 0;
  }

  lemma {:induction false} XorBound(a: nat, b: nat, k: nat)
    requires a < Pow2(k) && b < Pow2(k)
    ensures Xor(a, b) < Pow2(k)
  {
    if k > 0 && a > 0 && b > 0 {
      XorBound(a / 2, b / 2, k - 1);
    }
  }

  // ----- The register is linear -----

  function Shifts(c: nat, k: nat): nat
    decreases k
  {
    if k == 0 then c else Shifts(Shift(c), k - 1)
  }

  lemma ShiftLinear(a: nat, b: nat)
    ensures Shift(Xor(a, b)) == Xor(Shift(a), Shift(b))
  {
    var p, x, y := POLYNOMIAL, a / 2, b / 2;
    XorParts(a, b);
    XorAssociates(p, x, y);
    XorCommutes(p, y);
    XorAssociates(x, y, p);
    XorCommutes(Xor(x, y), p);
    if a % 2 == 1 && b % 2 == 1 {
      XorCommutes(p, x);
      XorAssociates(x, p, Xor(p, y));
      XorCancels(p, y);
    }
  }

  lemma {:induction false} ShiftsLinear(a: nat, b: nat, k: nat)
    ensures Shifts(Xor(a, b), k) == Xor(Shifts(a, k), Shifts(b, k))
    decreases k
  {
    if k > 0 {
      ShiftLinear(a, b);
      ShiftsLinear(Shift(a), Shift(b), k - 1);
    }
  }

  lemma {:induction false} ShiftsOfMultiple(high: nat, k: nat)
    ensures Shifts(Shl(high, k), k) == high
    decreases k
  {
    if k > 0 {
      assert Shift(2 * Shl(high, k - 1)) == Shl(high, k - 1);
      ShiftsOfMultiple(high, k - 1);
    }
  }

  // Feeding the bits of v one at a time is feeding them all at once.
  lemma {:induction false} FeedWord(c: nat, v: nat, n: nat)
    requires v < Pow2(n)
    ensures Feed(c, LowBits(v, n)) == Shifts(Xor(c, v), n)
    decreases n
  {
    if n == 0 {
      XorCommutes(c, 0);
    } else {
      assert LowBits(v, n)[1..] == LowBits(v / 2, n - 1);
      FeedWord(Shift(Xor(c, v % 2)), v / 2, n - 1);
      hide Xor, Shift;
      FeedLowest(c, v);
    }
  }

  lemma FeedLowest(c: nat, v: nat)
    ensures Xor(Shift(Xor(c, v % 2)), v / 2) == Shift(Xor(c, v))
  {
    var bit, high := v % 2, v / 2;
    BitThenRest(bit, high);
    hide Xor, Shift;
    XorAssociates(c, bit, 2 * high);
    ShiftLinear(Xor(c, bit), 2 * high);
  }

  lemma BitThenRest(bit: nat, high: nat)
    requires bit < 2
    ensures Xor(bit, 2 * high) == bit + 2 * high && Shift(2 * high) == high
  {
    XorDouble(bit, high);
  }

  // ----- The table -----

  // The low bits go through the table, the rest moves down.
  lemma WordStep(c: nat, b: nat, k: nat)
    requires b < Pow2(k)
    ensures Feed(c, LowBits(b, k)) == Xor(Shifts(Low(Xor(c, b), k), k), Shr(c, k))
  {
    FeedWord(c, b, k);
    var x := Xor(c, b);
    var low, high := Low(x, k), Shr(x, k);
    SplitWord(x, k);
    XorDisjoint(low, high, k);
    ShiftsLinear(low, Shl(high, k), k);
    ShiftsOfMultiple(high, k);
    XorHigh(c, b, k);
  }

  // A word below 2^k leaves the bits from k on alone.
  lemma {:induction false} XorHigh(c: nat, b: nat, k: nat)
    requires b < Pow2(k)
    ensures Shr(Xor(c, b), k) == Shr(c, k)
    decreases k
  {
    if k > 0 {
      XorParts(c, b);
      XorHigh(c / 2, b / 2, k - 1);
    } else {
      XorCommutes(c, 0);
    }
  }

  lemma {:induction false} FeedAppend(c: nat, a: seq<bool>, b: seq<bool>)
    ensures Feed(c, a + b) == Feed(Feed(c, a), b)
    decreases |a|
  {
    if a == [] {
      assert a + b == b;
    } else {
      assert (a + b)[1..] == a[1..] + b;
      FeedAppend(Shift(Xor(c, if a[0] then 1 else 0)), a[1..], b);
    }
  }

  method Table() returns (table: array<nat>)
    ensures fresh(table) && table.Length == 256
    ensures forall j :: 0 <= j < 256 ==> table[j] == Shifts(j, 8)
  {
    hide Xor;
    table := new nat[256];
    for i := 0 to 256
      invariant forall j :: 0 <= j < i ==> table[j] == Shifts(j, 8)
    {
      var c: nat := i;
      for k := 0 to 8
        modifies {}
        invariant Shifts(c, 8 - k) == Shifts(i, 8)
      {
        c := if c % 2 == 1 then Xor(POLYNOMIAL, c / 2) else c / 2;
      }
      table[i] := c;
    }
  }

  lemma NextByte(data: seq<byte>, n: nat)
    requires n < |data|
    ensures
      var c := Feed(ONES, Unpack(data[..n]));
      Feed(ONES, Unpack(data[..n + 1])) == Xor(Shifts(LowByte(Xor(c, data[n])), 8), Shr(c, 8))
  {
    hide Xor, Shifts, LowBits, Feed, Shr, Low;
    assert data[..n + 1][..n] == data[..n];
    FeedAppend(ONES, Unpack(data[..n]), LowBits(data[n], 8));
    Pow2Small();
    WordStep(Feed(ONES, Unpack(data[..n])), data[n], 8);
  }

  method ZipCrc32(data: seq<byte>) returns (crc: nat)
    ensures crc == Crc32(data)
  {
    hide Xor, Shifts, Shr, Low;
    var table := Table();
    var c: nat := ONES;
    assert data[..0] == [];
    for n := 0 to |data|
      invariant c == Feed(ONES, Unpack(data[..n]))
      invariant forall j :: 0 <= j < 256 ==> table[j] == Shifts(j, 8)
    {
      NextByte(data, n);
      c := Xor(table[LowByte(Xor(c, data[n]))], Shr(c, 8));
    }
    assert data[..|data|] == data;
    crc := Xor(c, ONES);
  }

  // ----- What the checksum of a text and of its checksum is -----

  // The checksum of nothing is 0.
  lemma CrcOfNothing()
    ensures Crc32([]) == 0
  {
    XorSelf(ONES);
  }

  // A text that its own checksum follows, low byte first, has the one residue that a receiver looks for,
  // whatever the text is.
  lemma ResidueIs(data: seq<byte>, received: seq<byte>)
    requires Unpack(received) == Unpack(data) + LowBits(Crc32(data), 32)
    ensures Crc32(received) == 0xFFFF_FFFF - Shifts(0xFFFF_FFFF, 32)
  {
    var c := Feed(ONES, Unpack(data));
    hide Xor, Shifts, LowBits, Feed, Unpack, Pow2;
    assert ONES < Pow2(32) by {
      OnesFit();
    }
    FeedBound(ONES, Unpack(data));
    XorBound(c, ONES, 32);
    FeedAppend(ONES, Unpack(data), LowBits(Xor(c, ONES), 32));
    FeedWord(c, Xor(c, ONES), 32);
    XorCancels(c, ONES);
    ShiftsBound(ONES, 32);
    XorOnes(Shifts(ONES, 32), 32);
    assert Pow2(32) == 0x1_0000_0000 by {
      Pow2Word();
    }
  }

  lemma {:induction false} ShiftsBound(c: nat, k: nat)
    requires c < Pow2(32)
    ensures Shifts(c, k) < Pow2(32)
    decreases k
  {
    if k > 0 {
      ShiftParity(c);
      ShiftsBound(Shift(c), k - 1);
    }
  }

  lemma {:induction false} XorOnes(c: nat, k: nat)
    requires c < Pow2(k)
    ensures Xor(c, Pow2(k) - 1) == Pow2(k) - 1 - c
    decreases k
  {
    if k > 0 {
      XorParts(c, Pow2(k) - 1);
      XorOnes(c / 2, k - 1);
    }
  }

  // A register of 1 becomes the polynomial of IEEE 802.3: each of its terms x^k but x^32 sets bit 31 - k.
  lemma PolynomialIs()
    ensures Shift(1) == Pow2(31) + Pow2(31 - 1) + Pow2(31 - 2) + Pow2(31 - 4) + Pow2(31 - 5) + Pow2(31 - 7)
        + Pow2(31 - 8) + Pow2(31 - 10) + Pow2(31 - 11) + Pow2(31 - 12) + Pow2(31 - 16) + Pow2(31 - 22)
        + Pow2(31 - 23) + Pow2(31 - 26)
  {
    assert Shift(1) == POLYNOMIAL;
    LowPowers();
    HighPowers();
  }

  lemma LowPowers()
    ensures Pow2(5) == 0x20 && Pow2(8) == 0x100 && Pow2(9) == 0x200 && Pow2(15) == 0x8000 && Pow2(19) == 0x8_0000
    ensures Pow2(20) == 0x10_0000 && Pow2(21) == 0x20_0000
  {
    Pow2Word();
    assert Pow2(18) == 0x4_0000;
  }

  lemma HighPowers()
    ensures Pow2(23) == 0x80_0000 && Pow2(24) == 0x100_0000 && Pow2(26) == 0x400_0000 && Pow2(27) == 0x800_0000
    ensures Pow2(29) == 0x2000_0000 && Pow2(30) == 0x4000_0000 && Pow2(31) == 0x8000_0000
  {
    Pow2Word();
    LowPowers();
    assert Pow2(25) == 0x200_0000;
  }

  // ----- What the checksum detects -----

  lemma ShiftInjective(a: nat, b: nat)
    requires a < Pow2(32) && b < Pow2(32) && Shift(a) == Shift(b)
    ensures a == b
  {
    ShiftParity(a);
    ShiftParity(b);
    if a % 2 == 1 {
      XorCancels(POLYNOMIAL, a / 2);
      XorCancels(POLYNOMIAL, b / 2);
    }
  }

  // The top bit of a shifted register tells which bit left it.
  lemma ShiftParity(c: nat)
    requires c < Pow2(32)
    ensures Shift(c) < Pow2(32)
    ensures Shr(Shift(c), 31) == c % 2
  {
    var half := c / 2;
    assert Pow2(32) == 2 * Pow2(31);
    Pow2Word();
    XorBound(POLYNOMIAL, half, 32);
    XorCommutes(POLYNOMIAL, half);
    XorHigh(POLYNOMIAL, half, 31);
    TopBits(half);
  }

  lemma TopBits(half: nat)
    requires half < Pow2(31)
    ensures Shr(POLYNOMIAL, 31) == 1 && Shr(half, 31) == 0
  {
    ShrBound(half, 31, 0);
    Pow2Word();
    Shr31(POLYNOMIAL);
  }

  lemma Shr31(c: nat)
    requires Pow2(31) <= c < Pow2(32)
    ensures Shr(c, 31) == 1
  {
    hide Pow2, Shl, Shr, Low;
    assert Pow2(1) == 2 by {
      Pow2Small();
    }
    ShrBound(c, 31, 1);
    SplitWord(c, 31);
    ShlZero(31);
  }

  lemma {:induction false} ShiftsInjective(a: nat, b: nat, k: nat)
    requires a < Pow2(32) && b < Pow2(32) && Shifts(a, k) == Shifts(b, k)
    ensures a == b
    decreases k
  {
    if k > 0 {
      ShiftParity(a);
      ShiftParity(b);
      ShiftsInjective(Shift(a), Shift(b), k - 1);
      ShiftInjective(a, b);
    }
  }

  lemma {:induction false} FeedInjective(a: nat, b: nat, bits: seq<bool>)
    requires a < Pow2(32) && b < Pow2(32) && Feed(a, bits) == Feed(b, bits)
    ensures a == b
    decreases |bits|
  {
    if bits != [] {
      var bit := if bits[0] then 1 else 0;
      FeedOne(a, bit);
      FeedOne(b, bit);
      FeedInjective(Shift(Xor(a, bit)), Shift(Xor(b, bit)), bits[1..]);
      ShiftInjective(Xor(a, bit), Xor(b, bit));
      XorCommutes(a, bit);
      XorCommutes(b, bit);
      XorCancels(bit, a);
      XorCancels(bit, b);
    }
  }

  lemma FeedOne(c: nat, bit: nat)
    requires c < Pow2(32) && bit < 2
    ensures Xor(c, bit) < Pow2(32) && Shift(Xor(c, bit)) < Pow2(32)
  {
    Pow2Monotone(1, 32);
    assert Pow2(1) == 2;
    XorBound(c, bit, 32);
    ShiftParity(Xor(c, bit));
  }

  lemma {:induction false} FeedBound(c: nat, bits: seq<bool>)
    requires c < Pow2(32)
    ensures Feed(c, bits) < Pow2(32)
    decreases |bits|
  {
    if bits != [] {
      var bit := if bits[0] then 1 else 0;
      FeedOne(c, bit);
      FeedBound(Shift(Xor(c, bit)), bits[1..]);
    }
  }

  // Two equally long texts that differ within 32 consecutive bits never share their checksum.
  lemma BurstDetected(before: seq<bool>, v: nat, w: nat, n: nat, after: seq<bool>, a: seq<byte>, b: seq<byte>)
    requires n <= 32 && v < Pow2(n) && w < Pow2(n) && v != w
    requires Unpack(a) == before + LowBits(v, n) + after
    requires Unpack(b) == before + LowBits(w, n) + after
    ensures Crc32(a) != Crc32(b)
  {
    hide Xor, Shifts, LowBits, Feed, Unpack, Pow2;
    assert ONES < Pow2(32) by {
      OnesFit();
    }
    var c := Feed(ONES, before);
    FeedBound(ONES, before);
    Pow2Monotone(n, 32);
    FeedAppend(ONES, before + LowBits(v, n), after);
    FeedAppend(ONES, before + LowBits(w, n), after);
    FeedAppend(ONES, before, LowBits(v, n));
    FeedAppend(ONES, before, LowBits(w, n));
    FeedWord(c, v, n);
    FeedWord(c, w, n);
    FeedBound(c, LowBits(v, n));
    FeedBound(c, LowBits(w, n));
    XorBound(c, v, 32);
    XorBound(c, w, 32);
    if Crc32(a) == Crc32(b) {
      XorCommutes(Feed(ONES, Unpack(a)), ONES);
      XorCommutes(Feed(ONES, Unpack(b)), ONES);
      XorCancels(ONES, Feed(ONES, Unpack(a)));
      XorCancels(ONES, Feed(ONES, Unpack(b)));
      FeedInjective(Feed(c, LowBits(v, n)), Feed(c, LowBits(w, n)), after);
      ShiftsInjective(Xor(c, v), Xor(c, w), n);
      XorCancels(c, v);
      XorCancels(c, w);
    }
  }

  lemma OnesFit()
    ensures ONES < Pow2(32)
  {
    Pow2Word();
  }
}
