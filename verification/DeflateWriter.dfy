/** deflate_fixed: the hash-chain index, the match search over it, and the writer that uses both. */
module DeflateWriter {
  import opened Bits
  import opened BitWriters
  import opened Inflate
  import opened Deflate
  import opened Lz77
  import Greedy

  // The newest position below p with hash h, or -1.
  function Newest(input: seq<byte>, h: nat, p: nat): (c: int)
    requires p <= |input|
    ensures -1 <= c < p
    ensures c >= 0 ==> Hashed(input, c, h)
  {
    if p == 0 then -1
    else if Hashed(input, p - 1, h) then p - 1
    else Newest(input, h, p - 1)
  }

  // The index after the positions below i were inserted. A slot of `previous` is reused one
  // window later, so it is still its own for every position within the window of i.
  ghost predicate Indexed(input: seq<byte>, head: seq<int>, previous: seq<int>, i: nat) {
    && i <= |input| && |head| == 32768 && |previous| == WINDOW
    && (forall h: nat :: h < 32768 ==> head[h] == Newest(input, h, i))
    && forall q: nat :: q < i && q + MIN_MATCH <= |input| && i - q <= WINDOW ==>
         previous[q % WINDOW] == Newest(input, Hash(input, q), q)
  }

  method NewIndex(input: seq<byte>) returns (head: array<int>, previous: array<int>)
    ensures fresh(head) && fresh(previous) && head != previous
    ensures Indexed(input, head[..], previous[..], 0)
  {
    head := new int[32768](_ => -1);
    previous := new int[WINDOW](_ => -1);
    hide Hash;
  }

  method Insert(input: seq<byte>, head: array<int>, previous: array<int>, i: nat)
    requires head != previous && i < |input|
    requires Indexed(input, head[..], previous[..], i)
    modifies head, previous
    ensures Indexed(input, head[..], previous[..], i + 1)
  {
    hide Hash;
    if i + MIN_MATCH > |input| {
      return;
    }
    var h := Hash(input, i);
    previous[i % WINDOW] := head[h];
    head[h] := i;
    forall q: nat | q < i && i + 1 - q <= WINDOW
      ensures q % WINDOW != i % WINDOW
    {
      SlotsDiffer(q, i);
    }
  }

  lemma SlotsDiffer(q: nat, i: nat)
    requires q < i < q + WINDOW
    ensures q % WINDOW != i % WINDOW
  {
  }

  // Going on from p, the plain search meets nothing before the newest position with the hash of i.
  lemma {:induction false} SearchJumps(input: seq<byte>, i: nat, p: nat, seen: nat, best: Best)
    requires p <= i && i + MIN_MATCH <= |input| && seen < MAX_CHAIN
    ensures
      var c := Newest(input, Hash(input, i), p);
      Search(input, i, p, seen, best) ==
      if c < 0 || i - c > WINDOW then best else Search(input, i, c + 1, seen, best)
    decreases p
  {
    hide Hash, MatchLength;
    if p > 0 && Hash(input, p - 1) != Hash(input, i) {
      SearchJumps(input, i, p - 1, seen, best);
    }
  }

  lemma ChainHead(input: seq<byte>, head: seq<int>, previous: seq<int>, i: nat)
    requires i + MIN_MATCH <= |input| && Indexed(input, head, previous, i)
    ensures |head| == 32768 && |previous| == WINDOW
    ensures head[Hash(input, i)] == Newest(input, Hash(input, i), i)
  {
    hide Hash;
  }

  // A slot read within the window still belongs to its position.
  lemma ChainNext(input: seq<byte>, head: seq<int>, previous: seq<int>, i: nat, c: nat)
    requires i + MIN_MATCH <= |input| && Indexed(input, head, previous, i)
    requires c < i && i - c <= WINDOW && Hash(input, c) == Hash(input, i)
    ensures previous[c % WINDOW] == Newest(input, Hash(input, i), c)
  {
    hide Hash;
  }

  // The common prefix, counted byte by byte.
  method Extend(input: seq<byte>, c: nat, i: nat) returns (length: nat)
    requires c < i && i + MIN_MATCH <= |input|
    ensures length == MatchLength(input, c, i)
  {
    var limit := Limit(input, i);
    length := 0;
    while length < limit && input[c + length] == input[i + length]
      invariant length <= limit
      invariant MatchLength(input, c, i, length) == MatchLength(input, c, i)
    {
      length := length + 1;
    }
  }

  // The walk along the hash chain finds what the plain search finds. A longer match must also
  // agree at the current best length, so the one-byte check skips no better candidate.
  method FindLongest(input: seq<byte>, head: array<int>, previous: array<int>, i: nat) returns (best: Best)
    requires i + MIN_MATCH <= |input|
    requires Indexed(input, head[..], previous[..], i)
    ensures best == Longest(input, i)
  {
    hide Hash, MatchLength, Indexed;
    var limit := Limit(input, i);
    ChainHead(input, head[..], previous[..], i);
    best := Best(0, 0);
    var candidate := head[Hash(input, i)];
    var chain := 0;
    ghost var p: nat := i;
    while candidate >= 0 && chain < MAX_CHAIN
      invariant p <= i && chain <= MAX_CHAIN && best.length < limit
      invariant candidate == Newest(input, Hash(input, i), p)
      invariant Search(input, i, p, chain, best) == Longest(input, i)
      decreases MAX_CHAIN - chain
    {
      SearchJumps(input, i, p, chain, best);
      var c: nat := candidate;
      if i - c > WINDOW {
        return;
      }
      assert SameByte(input, c, i, best.length) <==> input[c + best.length] == input[i + best.length];
      if input[c + best.length] == input[i + best.length] || best.length == 0 {
        var length := Extend(input, c, i);
        if length > best.length {
          best := Best(length, i - c);
          if length == limit {
            return;
          }
        }
      }
      ChainNext(input, head[..], previous[..], i, c);
      candidate := previous[c % WINDOW];
      chain := chain + 1;
      p := c;
    }
    if chain < MAX_CHAIN {
      SearchJumps(input, i, p, chain, best);
    }
  }

  // The table slot of a length: its code, base and extra bits.
  method LengthSlot(length: nat) returns (l: nat)
    requires MIN_MATCH <= length <= MAX_MATCH
    ensures l < 29 && 257 + l == LengthCode(length)
    ensures |LENGTH_BASE| == |LENGTH_EXTRA| == 29
    ensures LENGTH_BASE[l] == FirstLength(257 + l) && LENGTH_EXTRA[l] == LengthExtraBits(257 + l)
  {
    hide Pow2, LengthExtraBits, LENGTH_EXTRA;
    l := 28;
    LengthTable(l);
    LengthTable(0);
    while LENGTH_BASE[l] > length
      invariant l < 29 && LengthCode(length, 257 + l) == LengthCode(length)
      invariant LENGTH_BASE[l] == FirstLength(257 + l) && LENGTH_EXTRA[l] == LengthExtraBits(257 + l)
    {
      l := l - 1;
      LengthTable(l);
    }
  }

  method DistanceSlot(distance: nat) returns (d: nat)
    requires 1 <= distance <= WINDOW
    ensures d < 30 && d == DistanceCode(distance)
    ensures |DISTANCE_BASE| == |DISTANCE_EXTRA| == 30
    ensures DISTANCE_BASE[d] == FirstDistance(d) && DISTANCE_EXTRA[d] == DistanceExtraBits(d)
  {
    hide Pow2, DistanceExtraBits, DISTANCE_EXTRA;
    d := 29;
    DistanceTable(d);
    while DISTANCE_BASE[d] > distance
      invariant d < 30 && DistanceCode(distance, d) == DistanceCode(distance)
      invariant DISTANCE_BASE[d] == FirstDistance(d) && DISTANCE_EXTRA[d] == DistanceExtraBits(d)
    {
      d := d - 1;
      DistanceTable(d);
    }
  }

  method PutLength(w: BitWriter, length: nat)
    requires w.Valid() && MIN_MATCH <= length <= MAX_MATCH
    modifies w
    ensures w.Valid() && w.Contents() == old(w.Contents()) + LengthBits(length)
  {
    hide Unpack, LowBits, FixedCode, FirstLength, Pow2, LENGTH_BASE, LENGTH_EXTRA, LengthCode;
    LengthFits(length);
    var l := LengthSlot(length);
    w.Symbol(257 + l);
    w.Put(length - LENGTH_BASE[l], LENGTH_EXTRA[l]);
    Appended(old(w.Contents()), FixedCode(257 + l), LowBits(length - FirstLength(257 + l), LengthExtraBits(257 + l)));
  }

  method PutDistance(w: BitWriter, distance: nat)
    requires w.Valid() && 1 <= distance <= WINDOW
    modifies w
    ensures w.Valid() && w.Contents() == old(w.Contents()) + DistanceBits(distance)
  {
    hide Unpack, LowBits, HighFirst, FirstDistance, Pow2, DISTANCE_BASE, DISTANCE_EXTRA, DistanceCode;
    DistanceFits(distance);
    var d := DistanceSlot(distance);
    w.Code(d, 5);
    w.Put(distance - DISTANCE_BASE[d], DISTANCE_EXTRA[d]);
    Appended(old(w.Contents()), HighFirst(d, 5), LowBits(distance - FirstDistance(d), DistanceExtraBits(d)));
  }

  lemma Header(input: seq<byte>)
    ensures Pow2(1) == 2 && Pow2(2) == 4
    ensures DeflateBits(input) == LowBits(1, 1) + LowBits(1, 2) + TokensFrom(input, 0)
  {
    hide TokensFrom;
    Pow2Small();
    assert LowBits(1, 1) + LowBits(1, 2) == [true, true, false];
  }

  lemma NextToken(input: seq<byte>, i: nat, best: Best)
    requires i < |input|
    requires best == if i + MIN_MATCH <= |input| then Longest(input, i) else Best(0, 0)
    ensures if best.length >= MIN_MATCH then
              && 0 < best.length <= MAX_MATCH && 1 <= best.distance <= WINDOW && i + best.length <= |input|
              && TokensFrom(input, i) == LengthBits(best.length) + DistanceBits(best.distance)
                + TokensFrom(input, i + best.length)
            else TokensFrom(input, i) == FixedCode(input[i]) + TokensFrom(input, i + 1)
  {
    hide Longest, FixedCode, LengthBits, DistanceBits;
    var t := Choose(input, i);
  }

  lemma LastToken(input: seq<byte>)
    ensures TokensFrom(input, |input|) == FixedCode(256)
  {
  }

  method WriteMatch(w: BitWriter, input: seq<byte>, head: array<int>, previous: array<int>, i: nat, best: Best)
    requires w.Valid() && head != previous && Indexed(input, head[..], previous[..], i)
    requires MIN_MATCH <= best.length <= MAX_MATCH && 1 <= best.distance <= WINDOW && i + best.length <= |input|
    modifies w, head, previous
    ensures w.Valid() && Indexed(input, head[..], previous[..], i + best.length)
    ensures w.Contents() == old(w.Contents()) + LengthBits(best.length) + DistanceBits(best.distance)
  {
    hide *;
    PutLength(w, best.length);
    PutDistance(w, best.distance);
    for k := 0 to best.length
      modifies head, previous
      invariant Indexed(input, head[..], previous[..], i + k)
    {
      Insert(input, head, previous, i + k);
    }
  }

  lemma Appended(written: seq<bool>, token: seq<bool>, rest: seq<bool>)
    ensures written + token + rest == written + (token + rest)
  {
  }

  // One turn of the loop of deflate_fixed: one token, and the bytes it covers enter the index.
  method WriteToken(w: BitWriter, input: seq<byte>, head: array<int>, previous: array<int>, i: nat) returns (next: nat)
    requires w.Valid() && head != previous && i < |input| && Indexed(input, head[..], previous[..], i)
    modifies w, head, previous
    ensures i < next <= |input| && w.Valid() && Indexed(input, head[..], previous[..], next)
    ensures w.Contents() + TokensFrom(input, next) == old(w.Contents()) + TokensFrom(input, i)
  {
    hide *;
    var best := Best(0, 0);
    if i + MIN_MATCH <= |input| {
      best := FindLongest(input, head, previous, i);
    }
    NextToken(input, i, best);
    if best.length >= MIN_MATCH {
      WriteMatch(w, input, head, previous, i, best);
      next := i + best.length;
      Appended(old(w.Contents()), LengthBits(best.length), DistanceBits(best.distance));
      Appended(old(w.Contents()), LengthBits(best.length) + DistanceBits(best.distance), TokensFrom(input, next));
    } else {
      w.Symbol(input[i]);
      Insert(input, head, previous, i);
      next := i + 1;
      Appended(old(w.Contents()), FixedCode(input[i]), TokensFrom(input, next));
    }
  }

  lemma AfterHeader(input: seq<byte>, stream: seq<byte>, padding: seq<bool>)
    requires Unpack(stream) == DeflateBits(input) + padding
    ensures |Unpack(stream)| >= 3 && Unpack(stream)[3..] == TokensFrom(input, 0) + padding
  {
  }

  method DeflateFixed(input: seq<byte>) returns (stream: seq<byte>)
    ensures |DeflateBits(input)| <= |Unpack(stream)| < |DeflateBits(input)| + 8
    ensures Unpack(stream) == DeflateBits(input) + Zeros(|Unpack(stream)| - |DeflateBits(input)|)
    // The reader gets the input back, and the stream is never much longer than it.
    ensures Stream(stream).Got? && Stream(stream).value == input
    // Each of its tokens is the greedy one of its place.
    ensures |Unpack(stream)| >= 3 && Greedy.Tokens(Unpack(stream)[3..]).Some?
    ensures Greedy.GreedyFrom(input, 0, Greedy.Tokens(Unpack(stream)[3..]).value)
    ensures |stream| <= (9 * |input| + 17) / 8
  {
    hide *;
    var head, previous := NewIndex(input);
    var w := new BitWriter();
    Header(input);
    w.Put(1, 1);
    w.Put(1, 2);
    var i := 0;
    while i < |input|
      invariant i <= |input| && w.Valid() && head != previous
      invariant fresh(w) && fresh(head) && fresh(previous)
      invariant Indexed(input, head[..], previous[..], i)
      invariant w.Contents() + TokensFrom(input, i) == DeflateBits(input)
    {
      i := WriteToken(w, input, head, previous, i);
    }
    LastToken(input);
    w.Symbol(256);
    w.Finish();
    stream := w.out;
    InflateInvertsDeflate(input, stream, |Unpack(stream)| - |DeflateBits(input)|);
    SizeBound(input, stream, |Unpack(stream)| - |DeflateBits(input)|);
    AfterHeader(input, stream, Zeros(|Unpack(stream)| - |DeflateBits(input)|));
    Greedy.TokensAreGreedy(input, 0, Zeros(|Unpack(stream)| - |DeflateBits(input)|));
  }
}
