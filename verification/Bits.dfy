/** Bytes, words and the bit strings they stand for.

    Unsigned words are natural numbers. `a | b` is Or(a, b), `v << k` is Shl(v, k), `v >> k` is
    Shr(v, k) and the low k bits of v are Low(v, k). */
module Bits {
  type byte = b: int | 0 <= b < 256

  function Pow2(n: nat): (r: nat)
    ensures r >= 1
  {
    if n == 0 then 1 else 2 * Pow2(n - 1)
  }

  function Shl(v: nat, k: nat): nat {
    if k == 0 then v else 2 * Shl(v, k - 1)
  }

  function Shr(v: nat, k: nat): nat
    decreases k
  {
    if k == 0 then v else Shr(v / 2, k - 1)
  }

  function Low(v: nat, k: nat): (r: nat)
    ensures r < Pow2(k)
    decreases k
  {
    if k == 0 then 0 else v % 2 + 2 * Low(v / 2, k - 1)
  }

  lemma {:induction false} Pow2Monotone(a: nat, b: nat)
    requires a <= b
    ensures Pow2(a) <= Pow2(b)
  {
    if a < b {
      Pow2Monotone(a, b - 1);
    }
  }

  lemma Pow2Small()
    ensures Pow2(1) == 2 && Pow2(2) == 4 && Pow2(3) == 8 && Pow2(4) == 16 && Pow2(5) == 32
    ensures Pow2(6) == 64 && Pow2(7) == 128 && Pow2(8) == 256 && Pow2(9) == 512 && Pow2(10) == 1024
    ensures Pow2(11) == 2048 && Pow2(12) == 4096 && Pow2(13) == 8192
  {
    assert Pow2(4) == 16;
    assert Pow2(8) == 256;
    assert Pow2(12) == 4096;
  }

  lemma Pow2Word()
    ensures Pow2(16) == 0x1_0000 && Pow2(31) == 0x8000_0000 && Pow2(32) == 0x1_0000_0000
    ensures Pow2(40) == 0x100_0000_0000
  {
    assert Pow2(8) == 256;
    assert Pow2(16) == 0x1_0000;
    assert Pow2(24) == 0x100_0000;
    assert Pow2(31) == 0x8000_0000;
    assert Pow2(36) == 0x10_0000_0000;
  }

  lemma {:induction false} SplitWord(v: nat, k: nat)
    ensures v == Low(v, k) + Shl(Shr(v, k), k)
    decreases k
  {
    if k > 0 {
      SplitWord(v / 2, k - 1);
    }
  }

  lemma {:induction false} ShlZero(k: nat)
    ensures Shl(0, k) == 0
  {
    if k > 0 {
      ShlZero(k - 1);
    }
  }

  lemma {:induction false} ShlBound(low: nat, high: nat, k: nat, m: nat)
    requires low < Pow2(k) && high < Pow2(m)
    ensures low + Shl(high, k) < Pow2(k + m)
    decreases k
  {
    if k > 0 {
      ShlBound(low / 2, high, k - 1, m);
    }
  }

  lemma {:induction false} ShrBound(v: nat, k: nat, m: nat)
    requires v < Pow2(k + m)
    ensures Shr(v, k) < Pow2(m)
    decreases k
  {
    if k > 0 {
      ShrBound(v / 2, k - 1, m);
    }
  }

  // The low byte of a word.
  function LowByte(v: nat): byte {
    Pow2Small();
    Low(v, 8)
  }

  // ----- Bitwise or -----

  function Or(a: nat, b: nat): nat
    decreases a + b
  {
    if a == 0 then b
    else if b == 0 then a
    else (if a % 2 == 1 || b % 2 == 1 then 1 else 0) + 2 * Or(a / 2, b / 2)
  }

  // Words without a common set bit: or is addition.
  lemma {:induction false} OrDisjoint(low: nat, high: nat, k: nat)
    requires low < Pow2(k)
    ensures Or(low, Shl(high, k)) == Or(Shl(high, k), low) == low + Shl(high, k)
  {
    if k > 0 {
      OrDisjoint(low / 2, high, k - 1);
    }
  }

  // ----- Bit strings -----

  // The n low bits of v, least significant first.
  function LowBits(v: nat, n: nat): (bits: seq<bool>)
    ensures |bits| == n
  {
    if n == 0 then [] else [v % 2 == 1] + LowBits(v / 2, n - 1)
  }

  // The n low bits of v, most significant first.
  function HighFirst(v: nat, n: nat): (bits: seq<bool>)
    ensures |bits| == n
  {
    if n == 0 then [] else [Shr(v, n - 1) % 2 == 1] + HighFirst(v, n - 1)
  }

  // The number a bit string stands for, least significant bit first.
  function LowValue(bits: seq<bool>): nat {
    if bits == [] then 0 else (if bits[0] then 1 else 0) + 2 * LowValue(bits[1..])
  }

  // The number a bit string stands for, most significant bit first.
  function HighValue(bits: seq<bool>): nat {
    if bits == [] then 0
    else 2 * HighValue(bits[..|bits| - 1]) + (if bits[|bits| - 1] then 1 else 0)
  }

  lemma {:induction false} LowBitsInverse(v: nat, n: nat)
    requires v < Pow2(n)
    ensures LowValue(LowBits(v, n)) == v
  {
    if n > 0 {
      LowBitsInverse(v / 2, n - 1);
      assert LowBits(v, n)[1..] == LowBits(v / 2, n - 1);
    }
  }

  lemma {:induction false} LowBitsSplit(low: nat, high: nat, k: nat, m: nat)
    requires low < Pow2(k)
    ensures LowBits(low + Shl(high, k), k + m) == LowBits(low, k) + LowBits(high, m)
    decreases k
  {
    if k == 0 {
      assert LowBits(low, k) + LowBits(high, m) == LowBits(high, m);
    } else {
      LowBitsSplit(low / 2, high, k - 1, m);
      assert (low + Shl(high, k)) / 2 == low / 2 + Shl(high, k - 1);
      assert [low % 2 == 1] + (LowBits(low / 2, k - 1) + LowBits(high, m))
          == ([low % 2 == 1] + LowBits(low / 2, k - 1)) + LowBits(high, m);
    }
  }

  // Most significant first: dropping the last bit halves the number.
  lemma {:induction false} HighFirstHalf(v: nat, n: nat)
    ensures HighFirst(v, n + 1) == HighFirst(v / 2, n) + [v % 2 == 1]
  {
    if n > 0 {
      HighFirstHalf(v, n - 1);
      assert Shr(v, n) == Shr(v / 2, n - 1);
      var first := [Shr(v, n) % 2 == 1];
      assert first + (HighFirst(v / 2, n - 1) + [v % 2 == 1]) == (first + HighFirst(v / 2, n - 1)) + [v % 2 == 1];
    }
  }

  lemma {:induction false} HighFirstInverse(v: nat, n: nat)
    requires v < Pow2(n)
    ensures HighValue(HighFirst(v, n)) == v
  {
    if n > 0 {
      HighFirstHalf(v, n - 1);
      HighFirstInverse(v / 2, n - 1);
      var bits := HighFirst(v, n);
      assert bits[..n - 1] == HighFirst(v / 2, n - 1);
    }
  }

  // ----- Bytes as bit strings, least significant bit first -----

  function Unpack(bytes: seq<byte>): (bits: seq<bool>)
    ensures |bits| == 8 * |bytes|
  {
    if bytes == [] then [] else Unpack(bytes[..|bytes| - 1]) + LowBits(bytes[|bytes| - 1], 8)
  }

  function Zeros(n: nat): (bits: seq<bool>)
    ensures |bits| == n
  {
    seq(n, _ => false)
  }
}
