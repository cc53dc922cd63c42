/** The tokens of a compressed stream, read back: at every place the longest repetition there is to take. */
module Greedy {
  import opened Common
  import opened Bits
  import opened BitWriters
  import opened Inflate
  import opened Deflate
  import opened Lz77

  // ----- What the greedy parse promises of each token -----

  // The n bytes at q are those at i.
  ghost predicate Repeats(input: seq<byte>, q: nat, i: nat, n: nat) {
    q < i && i + n <= |input| && input[q..q + n] == input[i..i + n]
  }

  // The earlier places looked at: up to 32768 bytes back, of the same hash, with fewer than 48 such between.
  predicate Looked(input: seq<byte>, i: nat, q: nat) {
    i + 3 <= |input| && q < i <= q + 32768 && Hash(input, q) == Hash(input, i) && SameHash(input, i, q + 1, i) < 48
  }

  // Nothing looked at repeats more bytes than n, of the 258 that one token may stand for.
  ghost predicate NoneRepeats(input: seq<byte>, i: nat, n: nat) {
    n <= 258 && forall q: nat :: Looked(input, i, q) ==> !Repeats(input, q, i, n)
  }

  ghost predicate LongestAt(input: seq<byte>, i: nat, length: nat, distance: nat) {
    && 3 <= length <= 258 && 0 < distance <= i
    && Looked(input, i, i - distance) && Repeats(input, i - distance, i, length)
    && (length == 258 || NoneRepeats(input, i, length + 1))
    && forall q: nat :: i - distance < q && Looked(input, i, q) ==> !Repeats(input, q, i, length)
  }

  // A byte by itself where no three bytes are repeated; else the longest repetition, the nearest of them.
  ghost predicate GreedyToken(input: seq<byte>, i: nat, t: Token)
    requires i < |input|
  {
    match t
    case Literal(b) => b == input[i] && NoneRepeats(input, i, 3)
    case Match(length, distance) => LongestAt(input, i, length, distance)
    case EndOfBlock => false
  }

  function Covered(t: Token): nat {
    if t.Match? then t.length else 1
  }

  // The tokens cover the input from i on, each the greedy one of its place.
  ghost predicate GreedyFrom(input: seq<byte>, i: nat, tokens: seq<Token>)
    decreases |tokens|
  {
    if tokens == [] then i == |input|
    else
      && i < |input| && GreedyToken(input, i, tokens[0])
      && GreedyFrom(input, i + Covered(tokens[0]), tokens[1..])
  }

  // ----- The tokens of a stream -----

  function Before(t: Token, others: Option<seq<Token>>): Option<seq<Token>> {
    if others.None? then None else Some([t] + others.value)
  }

  // Those of a block, up to its end.
  function Tokens(bits: seq<bool>): Option<seq<Token>>
    decreases |bits|
  {
    var token := TakeToken(bits);
    if token.Bad? || |token.rest| >= |bits| then None
    else if token.value.EndOfBlock? then Some([])
    else Before(token.value, Tokens(token.rest))
  }

  // ----- The writer's choice is the greedy one -----

  lemma SearchLooks(input: seq<byte>, i: nat, q: nat)
    requires i + 3 <= |input|
    ensures Looked(input, i, q) <==> Candidate(input, i, q)
  {
    hide Hash, SameHash;
  }

  lemma LengthIs(input: seq<byte>, q: nat, i: nat, n: nat)
    requires q < i <= |input| && n <= 258
    ensures MatchLength(input, q, i) >= n <==> Repeats(input, q, i, n)
    ensures MatchLength(input, q, i) <= 258
  {
    var length := MatchLength(input, q, i);
    hide MatchLength;
    if length >= n {
      var there, here := input[q..q + n], input[i..i + n];
      forall j | 0 <= j < n ensures there[j] == here[j] {
        assert SameByte(input, q, i, j);
      }
    } else if i + n <= |input| {
      assert input[q..q + n][length] == input[q + length] && input[i..i + n][length] == input[i + length];
    }
  }

  lemma NoneLonger(input: seq<byte>, i: nat, n: nat)
    requires i + 3 <= |input| && n <= 258
    requires forall q: nat :: q < i && Candidate(input, i, q) ==> MatchLength(input, q, i) < n
    ensures NoneRepeats(input, i, n)
  {
    forall q: nat | Looked(input, i, q) ensures !Repeats(input, q, i, n) {
      SearchLooks(input, i, q);
      LengthIs(input, q, i, n);
    }
  }

  lemma ChoiceIsGreedy(input: seq<byte>, i: nat)
    requires i < |input|
    ensures GreedyToken(input, i, Choose(input, i)) && Covered(Choose(input, i)) == Span(Choose(input, i))
  {
    if i + 3 > |input| {
      assert forall q: nat :: !Looked(input, i, q);
    } else {
      var best := Longest(input, i);
      LongestIsBest(input, i);
      LongestCopies(input, i);
      assert Choose(input, i) == if best.length >= 3 then Match(best.length, best.distance) else Literal(input[i]);
      hide Choose, Longest, Copies;
      if best.length < 3 {
        Shorter(input, i, best);
      } else {
        LongestTaken(input, i, best);
      }
    }
  }

  lemma Shorter(input: seq<byte>, i: nat, best: Best)
    requires i + 3 <= |input| && BestFrom(input, i, 0, best) && best.length < 3
    ensures NoneRepeats(input, i, 3)
  {
    hide Candidate, MatchLength;
    NoneLonger(input, i, 3);
  }

  lemma LongestTaken(input: seq<byte>, i: nat, best: Best)
    requires i + 3 <= |input| && BestFrom(input, i, 0, best) && best.length >= 3
    ensures LongestAt(input, i, best.length, best.distance)
  {
    var length, from: nat := best.length, i - best.distance;
    hide Candidate, MatchLength, Looked, Repeats;
    LengthIs(input, from, i, 0);
    LengthIs(input, from, i, length);
    SearchLooks(input, i, from);
    if length < 258 {
      NoneLonger(input, i, length + 1);
    }
    forall q: nat | from < q && Looked(input, i, q) ensures !Repeats(input, q, i, length) {
      SearchLooks(input, i, q);
      LookedIsEarlier(input, i, q);
      LengthIs(input, q, i, length);
    }
  }

  lemma LookedIsEarlier(input: seq<byte>, i: nat, q: nat)
    requires Looked(input, i, q)
    ensures q < i
  {
  }

  // ----- Every token of the stream is -----

  lemma {:induction false} TokensAreGreedy(input: seq<byte>, i: nat, rest: seq<bool>)
    requires i <= |input|
    ensures
      var tokens := Tokens(TokensFrom(input, i) + rest);
      tokens.Some? && GreedyFrom(input, i, tokens.value)
    decreases |input| - i
  {
    hide *;
    if i == |input| {
      EndRead(input, rest);
    } else {
      var t := Choose(input, i);
      var next := i + Span(t);
      TokensStep(input, i);
      Regroup(TokenBits(t), TokensFrom(input, next), rest);
      TokensAreGreedy(input, next, rest);
      ChoiceIsGreedy(input, i);
      TokenRead(t, TokensFrom(input, next) + rest);
      GreedyMore(input, i, t, Tokens(TokensFrom(input, next) + rest).value);
    }
  }

  lemma EndRead(input: seq<byte>, rest: seq<bool>)
    ensures Tokens(TokensFrom(input, |input|) + rest) == Some([]) && GreedyFrom(input, |input|, [])
  {
    hide TakeToken;
    TokenRoundTrip(EndOfBlock, rest);
    TokenNotEmpty(EndOfBlock);
  }

  lemma TokenRead(t: Token, later: seq<bool>)
    requires Encodable(t) && !t.EndOfBlock?
    ensures Tokens(TokenBits(t) + later) == Before(t, Tokens(later))
  {
    hide TakeToken;
    TokenRoundTrip(t, later);
    TokenNotEmpty(t);
  }

  lemma GreedyMore(input: seq<byte>, i: nat, t: Token, others: seq<Token>)
    requires i < |input| && GreedyToken(input, i, t) && GreedyFrom(input, i + Covered(t), others)
    ensures GreedyFrom(input, i, [t] + others)
    ensures Before(t, Some(others)) == Some([t] + others)
  {
    assert ([t] + others)[1..] == others;
    hide GreedyToken, Covered;
  }

  // Three equal bytes are of the same hash.
  lemma RepeatedIsHashed(input: seq<byte>, q: nat, i: nat)
    requires Repeats(input, q, i, 3)
    ensures Hash(input, q) == Hash(input, i)
  {
    assert input[q..q + 3][0] == input[i..i + 3][0] && input[q..q + 3][1] == input[i..i + 3][1];
    assert input[q..q + 3][2] == input[i..i + 3][2];
    assert input[q] == input[i] && input[q + 1] == input[i + 1] && input[q + 2] == input[i + 2];
  }

  // The hash of "abc".
  lemma HashOfAbc()
    ensures Hash([0x61, 0x62, 0x63], 0) == 8070
  {
  }
}
