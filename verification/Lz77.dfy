/** The greedy LZ77 parse: which earlier positions a match is looked for at, and what the tokens expand to. */
module Lz77 {
  import opened Common
  import opened Bits
  import opened BitWriters
  import opened Inflate
  import opened Deflate

  // Multiplicative hash of three bytes; the product wraps at 32 bits.
  function Hash(input: seq<byte>, i: nat): (h: nat)
    requires i + MIN_MATCH <= |input|
    ensures h < 32768
  {
    var b0: int, b1: int, b2: int := input[i], input[i + 1], input[i + 2];
    (b0 + b1 * 0x100 + b2 * 0x1_0000) * 2654435761 % 0x1_0000_0000 / 0x2_0000
  }

  predicate Hashed(input: seq<byte>, q: nat, h: nat) {
    q + MIN_MATCH <= |input| && Hash(input, q) == h
  }

  // The longest a match at i may be.
  function Limit(input: seq<byte>, i: nat): nat
    requires i <= |input|
  {
    if |input| - i < MAX_MATCH then |input| - i else MAX_MATCH
  }

  predicate SameByte(input: seq<byte>, c: nat, i: nat, j: nat) {
    c + j < |input| && i + j < |input| && input[c + j] == input[i + j]
  }

  ghost predicate SameBytes(input: seq<byte>, c: nat, i: nat, length: nat) {
    forall j: nat :: j < length ==> SameByte(input, c, i, j)
  }

  // How far the text at c agrees with the text at i, from k on.
  function MatchLength(input: seq<byte>, c: nat, i: nat, k: nat := 0): (r: nat)
    requires c < i <= |input| && k <= Limit(input, i)
    ensures k <= r <= Limit(input, i)
    ensures forall j :: k <= j < r ==> SameByte(input, c, i, j)
    ensures r < Limit(input, i) ==> !SameByte(input, c, i, r)
    decreases Limit(input, i) - k
  {
    if k < Limit(input, i) && SameByte(input, c, i, k) then MatchLength(input, c, i, k + 1) else k
  }

  datatype Best = Best(length: nat, distance: nat)

  // The plain search: positions below p one by one, newest first, counting those with the hash of i.
  function Search(input: seq<byte>, i: nat, p: nat, seen: nat, best: Best): Best
    requires p <= i && i + MIN_MATCH <= |input|
    decreases p
  {
    if p == 0 || seen >= MAX_CHAIN || i - (p - 1) > WINDOW then best
    else if Hash(input, p - 1) != Hash(input, i) then Search(input, i, p - 1, seen, best)
    else
      var length := MatchLength(input, p - 1, i);
      if length <= best.length then Search(input, i, p - 1, seen + 1, best)
      else if length == Limit(input, i) then Best(length, i - (p - 1))
      else Search(input, i, p - 1, seen + 1, Best(length, i - (p - 1)))
  }

  function Longest(input: seq<byte>, i: nat): Best
    requires i + MIN_MATCH <= |input|
  {
    Search(input, i, i, 0, Best(0, 0))
  }

  // ----- What the search finds -----

  // How many positions of lo..hi share the hash of i.
  function SameHash(input: seq<byte>, i: nat, lo: nat, hi: nat): nat
    requires lo <= hi <= i && i + MIN_MATCH <= |input|
    decreases hi - lo
  {
    if lo == hi then 0
    else (if Hash(input, lo) == Hash(input, i) then 1 else 0) + SameHash(input, i, lo + 1, hi)
  }

  // The positions a match at i is looked for at: same hash, in the window, among the newest 48.
  predicate Candidate(input: seq<byte>, i: nat, q: nat)
    requires i + MIN_MATCH <= |input|
  {
    q < i && i - q <= WINDOW && Hash(input, q) == Hash(input, i) && SameHash(input, i, q + 1, i) < MAX_CHAIN
  }

  // best is the longest match over the candidates from p on, at the nearest distance reaching it.
  ghost predicate BestFrom(input: seq<byte>, i: nat, p: nat, best: Best)
    requires p <= i && i + MIN_MATCH <= |input|
  {
    && (forall q :: p <= q < i && Candidate(input, i, q) ==> MatchLength(input, q, i) <= best.length)
    && (best.length > 0 ==>
          && p <= i - best.distance < i && Candidate(input, i, i - best.distance)
          && MatchLength(input, i - best.distance, i) == best.length
          && forall q :: i - best.distance < q < i && Candidate(input, i, q) ==> MatchLength(input, q, i) < best.length)
  }

  lemma {:induction false} SameHashMonotone(input: seq<byte>, i: nat, lo: nat, mid: nat)
    requires lo <= mid <= i && i + MIN_MATCH <= |input|
    ensures SameHash(input, i, lo, i) >= SameHash(input, i, mid, i)
    decreases mid - lo
  {
    if lo < mid {
      SameHashMonotone(input, i, lo + 1, mid);
    }
  }

  lemma {:induction false} SearchFindsBest(input: seq<byte>, i: nat, p: nat, seen: nat, best: Best)
    requires p <= i && i + MIN_MATCH <= |input|
    requires seen == SameHash(input, i, p, i) && best.length < Limit(input, i)
    requires BestFrom(input, i, p, best)
    ensures BestFrom(input, i, 0, Search(input, i, p, seen, best))
    decreases p
  {
    hide Hash, MatchLength, BestFrom, SameHash, Candidate;
    if p == 0 || seen >= MAX_CHAIN || i - (p - 1) > WINDOW {
      BestAtEnd(input, i, p, seen, best);
    } else if Hash(input, p - 1) != Hash(input, i) {
      BestSkip(input, i, p, best);
      SearchFindsBest(input, i, p - 1, seen, best);
    } else {
      var length := MatchLength(input, p - 1, i);
      BestStep(input, i, p, best);
      if length <= best.length {
        SearchFindsBest(input, i, p - 1, seen + 1, best);
      } else {
        var next := Best(length, i - (p - 1));
        if length == Limit(input, i) {
          BestAtLimit(input, i, p - 1, next);
        } else {
          SearchFindsBest(input, i, p - 1, seen + 1, next);
        }
      }
    }
  }

  // Beyond the end of the search there are no candidates.
  lemma BestAtEnd(input: seq<byte>, i: nat, p: nat, seen: nat, best: Best)
    requires p <= i && i + MIN_MATCH <= |input|
    requires seen == SameHash(input, i, p, i) && BestFrom(input, i, p, best)
    requires p == 0 || seen >= MAX_CHAIN || i - (p - 1) > WINDOW
    ensures BestFrom(input, i, 0, best)
  {
    hide Hash, MatchLength;
    forall q | 0 <= q < p
      ensures !Candidate(input, i, q)
    {
      SameHashMonotone(input, i, q + 1, p);
    }
  }

  lemma BestSkip(input: seq<byte>, i: nat, p: nat, best: Best)
    requires 0 < p <= i && i + MIN_MATCH <= |input|
    requires Hash(input, p - 1) != Hash(input, i) && BestFrom(input, i, p, best)
    ensures BestFrom(input, i, p - 1, best) && SameHash(input, i, p - 1, i) == SameHash(input, i, p, i)
  {
    hide Hash, MatchLength;
  }

  lemma BestStep(input: seq<byte>, i: nat, p: nat, best: Best)
    requires 0 < p <= i && i + MIN_MATCH <= |input|
    requires i - (p - 1) <= WINDOW && Hash(input, p - 1) == Hash(input, i) && SameHash(input, i, p, i) < MAX_CHAIN
    requires BestFrom(input, i, p, best)
    ensures
      var length := MatchLength(input, p - 1, i);
      BestFrom(input, i, p - 1, if length > best.length then Best(length, i - (p - 1)) else best)
    ensures SameHash(input, i, p - 1, i) == SameHash(input, i, p, i) + 1
  {
    hide Hash, MatchLength;
  }

  lemma BestAtLimit(input: seq<byte>, i: nat, p: nat, best: Best)
    requires p <= i && i + MIN_MATCH <= |input|
    requires BestFrom(input, i, p, best) && best.length == Limit(input, i)
    ensures BestFrom(input, i, 0, best)
  {
  }

  // Greedy choice: the longest match over all candidates, at the nearest distance reaching it.
  lemma LongestIsBest(input: seq<byte>, i: nat)
    requires i + MIN_MATCH <= |input|
    ensures BestFrom(input, i, 0, Longest(input, i))
  {
    SearchFindsBest(input, i, i, 0, Best(0, 0));
  }

  // ----- The parse -----

  function Choose(input: seq<byte>, i: nat): (t: Token)
    requires i < |input|
    ensures Encodable(t) && !t.EndOfBlock?
    ensures i + Span(t) <= |input|
    ensures t.Literal? ==> t.value == input[i]
    ensures t.Match? ==> Copies(input, i, t.length, t.distance)
  {
    if i + MIN_MATCH <= |input| then
      LongestCopies(input, i);
      var best := Longest(input, i);
      if best.length >= MIN_MATCH then Match(best.length, best.distance) else Literal(input[i])
    else Literal(input[i])
  }

  lemma LongestCopies(input: seq<byte>, i: nat)
    requires i + MIN_MATCH <= |input|
    ensures
      var best := Longest(input, i);
      best.length > 0 ==>
        1 <= best.distance <= WINDOW && best.length <= Limit(input, i) && Copies(input, i, best.length, best.distance)
  {
    LongestIsBest(input, i);
  }

  // How many bytes a token stands for.
  function Span(t: Token): nat {
    match t
    case Literal(_) => 1
    case Match(length, _) => length
    case EndOfBlock => 0
  }

  ghost predicate Copies(input: seq<byte>, i: nat, length: nat, distance: nat) {
    0 < distance <= i && i + length <= |input| && SameBytes(input, i - distance, i, length)
  }

  // The bits of the tokens from i on, with the end-of-block symbol.
  function TokensFrom(input: seq<byte>, i: nat): seq<bool>
    requires i <= |input|
    decreases |input| - i
  {
    if i == |input| then FixedCode(256)
    else TokenBits(Choose(input, i)) + TokensFrom(input, i + Span(Choose(input, i)))
  }

  // Final block, fixed Huffman codes.
  function DeflateBits(input: seq<byte>): seq<bool> {
    [true, true, false] + TokensFrom(input, 0)
  }

  // ----- The reader undoes the parse -----

  lemma {:induction false} CopyReproduces(input: seq<byte>, c: nat, i: nat, length: nat)
    requires c < i && i + length <= |input| && SameBytes(input, c, i, length)
    ensures Copy(input[..i], length, i - c) == input[..i + length]
    decreases length
  {
    if length > 0 {
      assert SameByte(input, c, i, 0);
      assert input[..i] + [input[c]] == input[..i + 1];
      var c', i' := c + 1, i + 1;
      forall j: nat | j < length - 1
        ensures SameByte(input, c', i', j)
      {
        assert SameByte(input, c, i, j + 1);
      }
      CopyReproduces(input, c', i', length - 1);
    }
  }

  // Reading one token extends the output by the bytes it stands for.
  lemma TokenStep(input: seq<byte>, i: nat, later: seq<bool>)
    requires i < |input|
    ensures
      var t := Choose(input, i);
      Block(TokenBits(t) + later, input[..i]) == Block(later, input[..i + Span(t)])
  {
    hide Choose, TakeToken, TokenBits, Copy;
    var t := Choose(input, i);
    TokenRoundTrip(t, later);
    TokenNotEmpty(t);
    match t
    case Literal(b) =>
      assert Block(TokenBits(t) + later, input[..i]) == Block(later, input[..i] + [b]);
      assert input[i..i + 1] == [b];
      assert input[..i] + [b] == input[..i + 1];
    case Match(length, distance) =>
      CopyReproduces(input, i - distance, i, length);
  }

  lemma {:induction false} BlockRoundTrip(input: seq<byte>, i: nat, rest: seq<bool>)
    requires i <= |input|
    ensures Block(TokensFrom(input, i) + rest, input[..i]) == Got(input, rest)
    decreases |input| - i
  {
    hide *;
    if i == |input| {
      BlockEnds(input, rest);
    } else {
      var t := Choose(input, i);
      TokensStep(input, i);
      var next := TokensFrom(input, i + Span(t));
      Regroup(TokenBits(t), next, rest);
      TokenStep(input, i, next + rest);
      BlockRoundTrip(input, i + Span(t), rest);
    }
  }

  lemma TokensStep(input: seq<byte>, i: nat)
    requires i < |input|
    ensures
      var t := Choose(input, i);
      TokensFrom(input, i) == TokenBits(t) + TokensFrom(input, i + Span(t)) && Span(t) > 0
  {
    hide TokenBits, Longest;
  }

  lemma BlockEnds(input: seq<byte>, rest: seq<bool>)
    ensures Block(TokensFrom(input, |input|) + rest, input[..|input|]) == Got(input, rest)
  {
    hide TakeToken;
    TokenRoundTrip(EndOfBlock, rest);
    assert input[..|input|] == input;
  }

  lemma TokenNotEmpty(t: Token)
    requires Encodable(t)
    ensures |TokenBits(t)| > 0
  {
  }

  // Any byte string whose bits are those of DeflateBits, up to a partial byte, inflates to the input.
  lemma InflateInvertsDeflate(input: seq<byte>, stream: seq<byte>, padding: nat)
    requires padding < 8 && Unpack(stream) == DeflateBits(input) + Zeros(padding)
    ensures Stream(stream) == Got(input, Zeros(padding))
  {
    var bits := Unpack(stream);
    assert bits[3..] == TokensFrom(input, 0) + Zeros(padding);
    assert input[..0] == [];
    BlockRoundTrip(input, 0, Zeros(padding));
  }

  // ----- Size -----

  // A match costs at most nine bits for each byte it covers.
  lemma TokenCost(t: Token)
    requires Encodable(t)
    ensures |TokenBits(t)| <= 9 * Span(t) + (if t.EndOfBlock? then 7 else 0)
  {
    match t
    case Literal(_) =>
    case EndOfBlock =>
    case Match(length, distance) =>
      var code := LengthCode(length);
      assert DistanceExtraBits(DistanceCode(distance)) <= 13;
      assert LengthExtraBits(code) <= 5;
      assert |LengthBits(length)| <= 8 + LengthExtraBits(code);
      if length == 3 {
        ShortestLength();
      }
  }

  lemma ShortestLength()
    ensures |LengthBits(3)| == 7
  {
    assert FirstLength(258) == 4;
    var code := LengthCode(3);
    if code > 257 {
      LengthsGrow(258, code);
    }
  }

  lemma {:induction false} LengthsGrow(a: nat, b: nat)
    requires 257 <= a <= b <= 285
    ensures FirstLength(a) <= FirstLength(b)
  {
    if a < b {
      LengthsGrow(a, b - 1);
      LastRanges();
    }
  }

  lemma {:induction false} CostFrom(input: seq<byte>, i: nat)
    requires i <= |input|
    ensures |TokensFrom(input, i)| <= 9 * (|input| - i) + 7
    decreases |input| - i
  {
    hide Choose, TokenBits;
    if i < |input| {
      TokenCost(Choose(input, i));
      CostFrom(input, i + Span(Choose(input, i)));
    }
  }

  // n bytes never take more than floor((9n + 17) / 8) bytes of stream.
  lemma SizeBound(input: seq<byte>, stream: seq<byte>, padding: nat)
    requires padding < 8 && Unpack(stream) == DeflateBits(input) + Zeros(padding)
    ensures |stream| <= (9 * |input| + 17) / 8
  {
    CostFrom(input, 0);
  }
}
