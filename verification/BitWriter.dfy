/** The least-significant-bit-first writer of a DEFLATE stream. */
module BitWriters {
  import opened Common
  import opened Bits

  // The code of a literal/length symbol in the fixed Huffman table of RFC 1951 section 3.2.6.
  function FixedCode(symbol: nat): seq<bool>
    requires symbol < 288
  {
    if symbol < 144 then HighFirst(0x30 + symbol, 8)
    else if symbol < 256 then HighFirst(0x190 + symbol - 144, 9)
    else if symbol < 280 then HighFirst(symbol - 256, 7)
    else HighFirst(0xC0 + symbol - 280, 8)
  }

  // The low n bits of v in the opposite order.
  function Reversed(v: nat, n: nat): (r: nat)
    ensures r < Pow2(n)
  {
    if n == 0 then 0 else 2 * Reversed(v, n - 1) + Shr(v, n - 1) % 2
  }

  // Writing a reversed word from the least significant end writes the word from the most significant end.
  lemma {:induction false} ReversedIsHighFirst(v: nat, n: nat)
    ensures LowBits(Reversed(v, n), n) == HighFirst(v, n)
  {
    if n > 0 {
      ReversedIsHighFirst(v, n - 1);
    }
  }

  class BitWriter {
    var out: seq<byte>
    var buffer: nat
    var count: nat

    // What holds between puts.
    ghost predicate Valid()
      reads this
    {
      count < 8 && buffer < Pow2(count)
    }

    // The bits written so far.
    ghost function Contents(): seq<bool>
      reads this
    {
      Unpack(out) + LowBits(buffer, count)
    }

    constructor ()
      ensures Valid() && Contents() == []
    {
      out, buffer, count := [], 0, 0;
    }

    method Put(value: nat, bits: nat)
      requires Valid()
      requires bits <= 32 && value < Pow2(bits)
      modifies this
      ensures Valid()
      ensures Contents() == old(Contents()) + LowBits(value, bits)
    {
      hide Unpack, LowBits, Or, Shl, Shr, Low, Pow2;
      ghost var goal := Contents() + LowBits(value, bits);
      OrInto(out, buffer, count, value, bits);
      buffer := Or(buffer, Shl(value, count) % 0x1_0000_0000_0000_0000);
      count := count + bits;
      while count >= 8
        invariant buffer < Pow2(count)
        invariant Contents() == goal
      {
        FlushByte(out, buffer, count);
        out := out + [LowByte(buffer)];
        buffer := Shr(buffer, 8);
        count := count - 8;
      }
    }

    method Code(value: nat, bits: nat)
      requires Valid()
      requires bits <= 32
      modifies this
      ensures Valid()
      ensures Contents() == old(Contents()) + HighFirst(value, bits)
    {
      hide Unpack, LowBits, Or;
      var reversed := 0;
      ShlZero(bits);
      for i := 0 to bits
        modifies {}
        invariant reversed == Shl(Reversed(value, i), bits - i)
      {
        ReverseStep(value, i, bits - 1 - i);
        reversed := Or(reversed, Shl(Shr(value, i) % 2, bits - 1 - i));
      }
      ReversedIsHighFirst(value, bits);
      Put(reversed, bits);
    }

    method Symbol(value: nat)
      requires Valid()
      requires value < 288
      modifies this
      ensures Valid()
      ensures Contents() == old(Contents()) + FixedCode(value)
    {
      hide Unpack, HighFirst;
      if value < 144 {
        Code(0x30 + value, 8);
      } else if value < 256 {
        Code(0x190 + value - 144, 9);
      } else if value < 280 {
        Code(value - 256, 7);
      } else {
        Code(0xC0 + value - 280, 8);
      }
    }

    // The last byte is filled up with zero bits.
    method Finish()
      requires Valid()
      modifies this
      ensures Valid()
      ensures |old(Contents())| <= |Unpack(out)| < |old(Contents())| + 8
      ensures Unpack(out) == old(Contents()) + Zeros(|Unpack(out)| - |old(Contents())|)
    {
      if count != 0 {
        LastByte(out, buffer, count);
        out := out + [LowByte(buffer)];
      }
      buffer, count := 0, 0;
    }
  }

  // Or-ing a word in above the pending bits appends its bits; the 64-bit buffer never overflows.
  lemma OrInto(out: seq<byte>, buffer: nat, count: nat, value: nat, bits: nat)
    requires count < 8 && buffer < Pow2(count)
    requires bits <= 32 && value < Pow2(bits)
    ensures
      var joined := Or(buffer, Shl(value, count) % 0x1_0000_0000_0000_0000);
      && joined < Pow2(count + bits)
      && Unpack(out) + LowBits(joined, count + bits) == Unpack(out) + LowBits(buffer, count) + LowBits(value, bits)
  {
    hide Unpack, LowBits, Or, Pow2, Shl;
    ShlBound(buffer, value, count, bits);
    Pow2Monotone(count + bits, 40);
    Pow2Word();
    OrDisjoint(buffer, value, count);
    LowBitsSplit(buffer, value, count, bits);
    Regroup(Unpack(out), LowBits(buffer, count), LowBits(value, bits));
  }

  // Moving the low byte of the buffer to the output keeps the bits.
  lemma FlushByte(out: seq<byte>, buffer: nat, count: nat)
    requires count >= 8 && buffer < Pow2(count)
    ensures Shr(buffer, 8) < Pow2(count - 8)
    ensures Unpack(out + [LowByte(buffer)]) + LowBits(Shr(buffer, 8), count - 8) == Unpack(out) + LowBits(buffer, count)
  {
    hide LowBits, Pow2, Shl, Shr, Low;
    SplitWord(buffer, 8);
    ShrBound(buffer, 8, count - 8);
    var low, high := LowByte(buffer), Shr(buffer, 8);
    LowBitsSplit(low, high, 8, count - 8);
    assert (out + [low])[..|out|] == out;
    Regroup(Unpack(out), LowBits(low, 8), LowBits(high, count - 8));
  }

  lemma LastByte(out: seq<byte>, buffer: nat, count: nat)
    requires 0 < count < 8 && buffer < Pow2(count)
    ensures Unpack(out + [LowByte(buffer)]) == Unpack(out) + LowBits(buffer, count) + Zeros(8 - count)
  {
    hide LowBits, Pow2, Low;
    Pow2Monotone(count, 8);
    LowOfSmall(buffer, 8);
    Padded(buffer, count, 8 - count);
    assert (out + [buffer])[..|out|] == out;
    Regroup(Unpack(out), LowBits(buffer, count), Zeros(8 - count));
  }

  lemma {:induction false} LowOfSmall(v: nat, k: nat)
    requires v < Pow2(k)
    ensures Low(v, k) == v
    decreases k
  {
    if k > 0 {
      LowOfSmall(v / 2, k - 1);
    }
  }

  lemma Padded(v: nat, n: nat, m: nat)
    requires v < Pow2(n)
    ensures LowBits(v, n + m) == LowBits(v, n) + Zeros(m)
  {
    ShlZero(n);
    LowBitsSplit(v, 0, n, m);
    LowBitsZero(m);
  }

  lemma {:induction false} LowBitsZero(n: nat)
    ensures LowBits(0, n) == Zeros(n)
  {
    if n > 0 {
      LowBitsZero(n - 1);
      assert Zeros(n) == [false] + Zeros(n - 1);
    }
  }

  lemma {:induction false} ReverseStep(value: nat, i: nat, k: nat)
    ensures Or(Shl(Reversed(value, i), k + 1), Shl(Shr(value, i) % 2, k)) == Shl(Reversed(value, i + 1), k)
    decreases k
  {
    var bit, r := Shr(value, i) % 2, Reversed(value, i);
    ShlSum(bit, r, k);
    assert Pow2(1) == 2;
    ShlBound(0, bit, k, 1);
    OrDisjoint(Shl(bit, k), r, k + 1);
  }

  lemma {:induction false} ShlSum(bit: nat, r: nat, k: nat)
    ensures Shl(2 * r + bit, k) == Shl(bit, k) + Shl(r, k + 1)
    decreases k
  {
    if k > 0 {
      ShlSum(bit, r, k - 1);
    }
  }
}
