/** Every rendering of an admitted value parses to that value. */
module JsonComplete {
  import opened Common
  import opened Bits
  import opened Utf8
  import opened Json
  import opened JsonGrammar

  lemma Split(text: seq<byte>, at: nat, a: seq<byte>, b: seq<byte>)
    requires Word(text, at, a + b)
    ensures Word(text, at, a) && Word(text, at + |a|, b)
  {
    assert text[at..at + |a + b|] == a + b;
    assert text[at..at + |a|] == (a + b)[..|a|] == a;
    assert text[at + |a|..at + |a + b|] == (a + b)[|a|..] == b;
  }

  lemma First(text: seq<byte>, at: nat, b: byte, rest: seq<byte>)
    requires Word(text, at, [b] + rest)
    ensures at < |text| && text[at] == b && Word(text, at + 1, rest)
  {
    Split(text, at, [b], rest);
    assert text[at..at + 1] == [b];
  }

  // Where a number cannot go on.
  predicate Stop(text: seq<byte>, at: nat) {
    at < |text| ==>
      !IsDigit(text[at]) && text[at] != 0x2E && text[at] != 0x65 && text[at] != 0x45 && text[at] != 0x2B
        && text[at] != 0x2D
  }

  lemma {:induction false} SkipsSpace(text: seq<byte>, at: nat, s: seq<byte>)
    requires Space(s) && Word(text, at, s)
    requires at + |s| < |text| ==> !IsSpace(text[at + |s|])
    ensures SkipSpace(text, at) == at + |s|
    decreases |s|
  {
    if s != [] {
      assert s == [s[0]] + s[1..];
      First(text, at, s[0], s[1..]);
      SkipsSpace(text, at + 1, s[1..]);
    }
  }

  lemma {:induction false} SkipsDigits(text: seq<byte>, at: nat, s: seq<byte>)
    requires (forall i :: 0 <= i < |s| ==> IsDigit(s[i])) && Word(text, at, s)
    requires at + |s| < |text| ==> !IsDigit(text[at + |s|])
    ensures SkipDigits(text, at) == at + |s|
    decreases |s|
  {
    if s != [] {
      assert s == [s[0]] + s[1..];
      First(text, at, s[0], s[1..]);
      SkipsDigits(text, at + 1, s[1..]);
    }
  }

  // ----- Strings -----

  lemma ReadsHex(text: seq<byte>, at: nat, hex: seq<byte>)
    requires HexDigits(hex) && Word(text, at, hex)
    ensures Hex(text, at, 4, 0) == Ok(HexValue(hex), at + 4)
  {
    assert text[at..at + 4] == hex;
    assert forall i :: 0 <= i < 4 ==> text[at + i] == hex[i] by {
      forall i | 0 <= i < 4 ensures text[at + i] == hex[i] {
        assert text[at..at + 4][i] == hex[i];
      }
    }
    var d0, d1, d2, d3 := HexDigit(hex[0]).value, HexDigit(hex[1]).value, HexDigit(hex[2]).value,
      HexDigit(hex[3]).value;
    assert Hex(text, at, 4, 0) == Hex(text, at + 1, 3, d0);
    assert Hex(text, at + 1, 3, d0) == Hex(text, at + 2, 2, d0 * 16 + d1);
    assert Hex(text, at + 2, 2, d0 * 16 + d1) == Hex(text, at + 3, 1, (d0 * 16 + d1) * 16 + d2);
  }

  // Bytes that mean themselves in a string.
  predicate Raw(s: seq<byte>) {
    forall i :: 0 <= i < |s| ==> s[i] >= 0x20 && s[i] != 0x22 && s[i] != 0x5C
  }

  lemma {:induction false} ReadsRaw(text: seq<byte>, at: nat, s: seq<byte>, out: seq<byte>)
    requires Raw(s) && Word(text, at, s)
    ensures StringFrom(text, at, out) == StringFrom(text, at + |s|, out + s)
    decreases |s|
  {
    if s == [] {
      assert out + s == out;
    } else {
      assert s == [s[0]] + s[1..];
      First(text, at, s[0], s[1..]);
      ReadsRaw(text, at + 1, s[1..], out + [s[0]]);
      assert out + [s[0]] + s[1..] == out + s;
    }
  }

  lemma PlainIsRaw(cp: nat)
    requires GoodChar(Plain(cp))
    ensures Raw(Encode(cp))
  {
  }

  lemma ReadsUnit(text: seq<byte>, at: nat, hex: seq<byte>)
    requires HexDigits(hex) && Word(text, at, [0x5C, 0x75] + hex)
    ensures at + 6 <= |text| && text[at] == 0x5C && text[at + 1] == 0x75 && Word(text, at, [0x5C, 0x75])
    ensures Hex(text, at + 2, 4, 0) == Ok(HexValue(hex), at + 6)
  {
    Split(text, at, [0x5C, 0x75], hex);
    assert [0x5C, 0x75] + hex == [0x5C] + ([0x75] + hex);
    First(text, at, 0x5C, [0x75] + hex);
    First(text, at + 1, 0x75, hex);
    ReadsHex(text, at + 2, hex);
  }

  lemma ReadsEscape(text: seq<byte>, at: nat, c: Char)
    requires GoodChar(c) && !c.Plain? && Word(text, at, CharText(c))
    ensures at < |text| && text[at] == 0x5C
    ensures Escape(text, at + 1) == Ok(Encode(Code(c)), at + |CharText(c)|)
  {
    hide Hex, Encode, HexValue;
    match c
    case Letter(e, cp) =>
      assert CharText(c) == [0x5C] + ([e] + []);
      First(text, at, 0x5C, [e] + []);
      First(text, at + 1, e, []);
      LetterCode(e, cp);
    case Unit(hex) =>
      ReadsUnit(text, at, hex);
    case Pair(high, low) =>
      assert CharText(c) == ([0x5C, 0x75] + high) + ([0x5C, 0x75] + low);
      Split(text, at, [0x5C, 0x75] + high, [0x5C, 0x75] + low);
      ReadsUnit(text, at, high);
      ReadsUnit(text, at + 6, low);
  }

  lemma LetterCode(e: byte, cp: nat)
    requires (e, cp) in ESCAPES
    ensures Short(e).Some? && Short(e).value == cp && Encode(cp) == [Short(e).value] && e != 0x75
  {
  }

  lemma ReadsChar(text: seq<byte>, at: nat, c: Char, out: seq<byte>)
    requires GoodChar(c) && Word(text, at, CharText(c))
    ensures StringFrom(text, at, out) == StringFrom(text, at + |CharText(c)|, out + Encode(Code(c)))
  {
    hide Encode, Escape, WellFormed;
    if c.Plain? {
      PlainIsRaw(c.cp);
      ReadsRaw(text, at, Encode(c.cp), out);
    } else {
      hide Code, CharText;
      ReadsEscape(text, at, c);
    }
  }

  lemma {:induction false} ReadsChars(text: seq<byte>, at: nat, chars: seq<Char>, out: seq<byte>)
    requires GoodChars(chars) && Word(text, at, CharsText(chars))
    ensures StringFrom(text, at, out) == StringFrom(text, at + |CharsText(chars)|, out + CharsBytes(chars))
    decreases |chars|
  {
    hide StringFrom, CharText, Code, Encode;
    if chars == [] {
      assert out + CharsBytes(chars) == out;
    } else {
      var c, rest := chars[0], chars[1..];
      var next, more := at + |CharText(c)|, Encode(Code(c));
      Split(text, at, CharText(c), CharsText(rest));
      ReadsChar(text, at, c, out);
      ReadsChars(text, next, rest, out + more);
      assert out + more + CharsBytes(rest) == out + CharsBytes(chars);
    }
  }

  lemma {:induction false} CharsWellFormed(chars: seq<Char>)
    requires GoodChars(chars)
    ensures WellFormed(CharsBytes(chars))
  {
    if chars != [] {
      CharsWellFormed(chars[1..]);
      WellFormedEncode(Code(chars[0]), CharsBytes(chars[1..]));
    }
  }

  lemma ReadsString(text: seq<byte>, at: nat, chars: seq<Char>)
    requires GoodChars(chars) && Word(text, at, Quoted(chars))
    ensures StringAt(text, at) == Ok(CharsBytes(chars), at + |Quoted(chars)|)
  {
    hide CharsText, CharsBytes, WellFormed, GoodChars, Word;
    var inner := CharsText(chars);
    assert Quoted(chars) == [0x22] + (inner + [0x22]);
    First(text, at, 0x22, inner + [0x22]);
    Split(text, at + 1, inner, [0x22]);
    First(text, at + 1 + |inner|, 0x22, []);
    ReadsChars(text, at + 1, chars, []);
    CharsWellFormed(chars);
    assert [] + CharsBytes(chars) == CharsBytes(chars);
  }

  // ----- Numbers -----

  lemma ReadsDigits(text: seq<byte>, at: nat, s: seq<byte>)
    requires Digits(s) && Word(text, at, s) && Stop(text, at + |s|)
    ensures SkipDigits(text, at) == at + |s| > at
  {
    SkipsDigits(text, at, s);
  }

  lemma FirstDigit(text: seq<byte>, at: nat, s: seq<byte>)
    requires Digits(s) && Word(text, at, s)
    ensures at < |text| && text[at] == s[0] && IsDigit(s[0])
  {
    assert s == [s[0]] + s[1..];
    First(text, at, s[0], s[1..]);
  }

  lemma ReadsExponent(text: seq<byte>, at: nat, n: Num)
    requires GoodNum(n) && Word(text, at, ExponentText(n.exponent)) && Stop(text, at + |ExponentText(n.exponent)|)
    ensures ExponentEnd(text, at) == Some(at + |ExponentText(n.exponent)|)
    ensures n.exponent.Some? ==> at < |text| && (text[at] == 0x65 || text[at] == 0x45)
  {
    hide SkipDigits, Word;
    if n.exponent.Some? {
      var e := n.exponent.value;
      assert ExponentText(n.exponent) == [e.mark] + (e.sign + e.digits);
      First(text, at, e.mark, e.sign + e.digits);
      Split(text, at + 1, e.sign, e.digits);
      FirstDigit(text, at + 1 + |e.sign|, e.digits);
      ReadsDigits(text, at + 1 + |e.sign|, e.digits);
      if e.sign != [] {
        SignFirst(text, at + 1, e.sign);
      }
    }
  }

  lemma SignFirst(text: seq<byte>, at: nat, sign: seq<byte>)
    requires |sign| == 1 && Word(text, at, sign)
    ensures at < |text| && text[at] == sign[0]
  {
    assert sign == [sign[0]] + [];
    First(text, at, sign[0], []);
  }

  lemma ReadsFraction(text: seq<byte>, at: nat, f: Option<seq<byte>>)
    requires f.Some? ==> Digits(f.value)
    requires Word(text, at, FractionText(f))
    requires at + |FractionText(f)| < |text| ==>
        !IsDigit(text[at + |FractionText(f)|]) && text[at + |FractionText(f)|] != 0x2E
    ensures FractionEnd(text, at) == Some(at + |FractionText(f)|)
    ensures f.Some? ==> at < |text| && text[at] == 0x2E
  {
    if f.Some? {
      First(text, at, 0x2E, f.value);
      SkipsDigits(text, at + 1, f.value);
    }
  }

  lemma ReadsWhole(text: seq<byte>, at: nat, n: Num)
    requires GoodNum(n) && Word(text, at, n.whole)
    requires at + |n.whole| < |text| ==> !IsDigit(text[at + |n.whole|])
    ensures WholeEnd(text, at) == Some(at + |n.whole|)
    ensures at < |text| && IsDigit(text[at])
  {
    FirstDigit(text, at, n.whole);
    SkipsDigits(text, at, n.whole);
  }

  lemma ReadsSign(text: seq<byte>, at: nat, n: Num, rest: seq<byte>)
    requires Word(text, at, (if n.minus then [0x2D] else []) + rest)
    ensures Word(text, if n.minus then at + 1 else at, rest)
    ensures n.minus ==> Is(text, at, 0x2D)
  {
    if n.minus {
      First(text, at, 0x2D, rest);
    } else {
      assert [] + rest == rest;
    }
  }

  lemma ReadsNumber(text: seq<byte>, at: nat, n: Num, finite: seq<byte> -> bool)
    requires GoodNum(n) && Word(text, at, NumText(n)) && Stop(text, at + |NumText(n)|)
    requires finite(NumText(n))
    ensures NumberAt(text, at, finite) == Ok(Number(NumText(n)), at + |NumText(n)|)
    ensures at < |text| && (text[at] == 0x2D || IsDigit(text[at]))
  {
    hide WholeEnd, FractionEnd, ExponentEnd, FractionText, ExponentText, GoodNum, Word, Digits;
    var f, e := FractionText(n.fraction), ExponentText(n.exponent);
    var p := if n.minus then at + 1 else at;
    assert NumText(n) == (if n.minus then [0x2D] else []) + (n.whole + (f + e));
    WordHere(text, at, NumText(n));
    ReadsSign(text, at, n, n.whole + (f + e));
    NumParts(n);
    ReadsParts(text, p, n);
  }

  // The unsigned part of a number.
  lemma ReadsParts(text: seq<byte>, p: nat, n: Num)
    requires GoodNum(n) && Word(text, p, n.whole + (FractionText(n.fraction) + ExponentText(n.exponent)))
    requires Stop(text, p + |n.whole| + |FractionText(n.fraction)| + |ExponentText(n.exponent)|)
    ensures
      var q, r := p + |n.whole|, p + |n.whole| + |FractionText(n.fraction)|;
      && p < |text| && IsDigit(text[p]) && q <= r <= |text|
      && WholeEnd(text, p) == Some(q) && FractionEnd(text, q) == Some(r)
      && ExponentEnd(text, r) == Some(r + |ExponentText(n.exponent)|)
  {
    hide WholeEnd, FractionEnd, ExponentEnd, FractionText, ExponentText, GoodNum, Word, Digits;
    var f, e := FractionText(n.fraction), ExponentText(n.exponent);
    var q := p + |n.whole|;
    NumParts(n);
    Split(text, p, n.whole, f + e);
    Split(text, q, f, e);
    WordHere(text, q, f);
    ReadsExponent(text, q + |f|, n);
    ReadsFraction(text, q, n.fraction);
    ReadsWhole(text, p, n);
  }

  lemma WordHere(text: seq<byte>, at: nat, word: seq<byte>)
    requires Word(text, at, word)
    ensures at + |word| <= |text| && text[at..at + |word|] == word
  {
  }

  lemma NumParts(n: Num)
    requires GoodNum(n)
    ensures Digits(n.whole) && |n.whole| > 0
    ensures n.fraction.Some? ==> Digits(n.fraction.value)
    ensures n.fraction.None? ==> FractionText(n.fraction) == []
    ensures n.exponent.None? ==> ExponentText(n.exponent) == []
  {
  }

  // ----- Values -----

  // No value starts with white space or a closing bracket.
  lemma FirstByte(t: Tree)
    requires Good(t)
    ensures |Text(t)| > 0 && !IsSpace(Text(t)[0]) && Text(t)[0] != 0x5D && Text(t)[0] != 0x7D
  {
    match t
    case TNumber(n) =>
      if n.minus {
        assert NumText(n)[0] == 0x2D;
      } else {
        assert NumText(n)[0] == n.whole[0];
      }
    case _ =>
  }

  // White space in front of a value does not matter.
  lemma SameValue(text: seq<byte>, from: nat, at: nat, depth: nat, finite: seq<byte> -> bool)
    requires from <= |text| && at <= |text| && SkipSpace(text, from) == SkipSpace(text, at)
    ensures ValueAt(text, from, depth, finite) == ValueAt(text, at, depth, finite)
  {
    hide StringAt, NumberAt, MembersFrom, ItemsFrom, SkipSpace;
  }

  // White space, then a separator or a closing bracket.
  lemma AfterValue(text: seq<byte>, at: nat, after: seq<byte>, sep: byte, rest: seq<byte>)
    requires Space(after) && Word(text, at, after + ([sep] + rest))
    requires sep == 0x2C || sep == 0x5D || sep == 0x7D || sep == 0x3A
    ensures Stop(text, at) && SkipSpace(text, at) == at + |after|
    ensures Is(text, at + |after|, sep) && Word(text, at + |after| + 1, rest)
  {
    Split(text, at, after, [sep] + rest);
    First(text, at + |after|, sep, rest);
    SkipsSpace(text, at, after);
    if after != [] {
      assert after == [after[0]] + after[1..];
      First(text, at, after[0], after[1..]);
    }
  }

  // The white space before a value is skipped.
  lemma BeforeValue(text: seq<byte>, at: nat, before: seq<byte>, t: Tree)
    requires Space(before) && Good(t) && Word(text, at, before + Text(t))
    ensures at + |before| < |text| && SkipSpace(text, at) == at + |before|
    ensures Word(text, at + |before|, Text(t)) && text[at + |before|] == Text(t)[0]
  {
    hide Text;
    Split(text, at, before, Text(t));
    FirstByte(t);
    assert Text(t) == [Text(t)[0]] + Text(t)[1..];
    First(text, at + |before|, Text(t)[0], Text(t)[1..]);
    SkipsSpace(text, at, before);
  }

  // What the first byte of a value decides.
  lemma OpensArray(text: seq<byte>, start: nat, depth: nat, finite: seq<byte> -> bool)
    requires start <= |text| && depth < MAX_DEPTH && Is(text, SkipSpace(text, start), 0x5B)
    ensures
      var first := SkipSpace(text, SkipSpace(text, start) + 1);
      ValueAt(text, start, depth, finite) ==
      if Is(text, first, 0x5D) then Ok(Array([]), first + 1) else ItemsFrom(text, first, depth + 1, [], finite)
  {
    hide StringAt, NumberAt, MembersFrom, ItemsFrom, SkipSpace;
  }

  lemma OpensObject(text: seq<byte>, start: nat, depth: nat, finite: seq<byte> -> bool)
    requires start <= |text| && depth < MAX_DEPTH && Is(text, SkipSpace(text, start), 0x7B)
    ensures
      var first := SkipSpace(text, SkipSpace(text, start) + 1);
      ValueAt(text, start, depth, finite) ==
      if Is(text, first, 0x7D) then Ok(Object([]), first + 1) else MembersFrom(text, first, depth + 1, [], finite)
  {
    hide StringAt, NumberAt, MembersFrom, ItemsFrom, SkipSpace;
  }

  predicate Atom(t: Tree) {
    t.TNull? || t.TTrue? || t.TFalse? || t.TNumber? || t.TString?
  }

  lemma ReadsAtom(text: seq<byte>, start: nat, t: Tree, depth: nat, finite: seq<byte> -> bool)
    requires start <= |text| && Atom(t) && Good(t) && depth <= MAX_DEPTH
        && Admitted(Meaning(t), MAX_DEPTH - depth, finite)
    requires
      var p := SkipSpace(text, start);
      Word(text, p, Text(t)) && p < |text| && text[p] == Text(t)[0] && Stop(text, p + |Text(t)|)
    ensures ValueAt(text, start, depth, finite) == Ok(Meaning(t), SkipSpace(text, start) + |Text(t)|)
  {
    var p := SkipSpace(text, start);
    ReadsWords(text, p);
    hide StringAt, NumberAt, MembersFrom, ItemsFrom, SkipSpace, Word, NumText, Quoted;
    match t
    case TNumber(n) => ReadsNumber(text, p, n, finite);
    case TString(chars) =>
      QuoteFirst(chars);
      ReadsString(text, p, chars);
    case _ =>
  }

  lemma QuoteFirst(chars: seq<Char>)
    requires GoodChars(chars)
    ensures |Quoted(chars)| > 0 && Quoted(chars)[0] == 0x22
  {
  }

  lemma ReadsWords(text: seq<byte>, p: nat)
    ensures Word(text, p, TRUE_WORD) ==> p < |text| && text[p] == 0x74
    ensures Word(text, p, FALSE_WORD) ==> p < |text| && text[p] == 0x66
    ensures Word(text, p, NULL_WORD) ==> p < |text| && text[p] == 0x6E
  {
    if Word(text, p, TRUE_WORD) {
      First(text, p, 0x74, TRUE_WORD[1..]);
    }
    if Word(text, p, FALSE_WORD) {
      First(text, p, 0x66, FALSE_WORD[1..]);
    }
    if Word(text, p, NULL_WORD) {
      First(text, p, 0x6E, NULL_WORD[1..]);
    }
  }

  lemma ReadsEmpty(text: seq<byte>, start: nat, t: Tree, depth: nat, finite: seq<byte> -> bool)
    requires start <= |text| && (t.EmptyArray? || t.EmptyObject?) && Good(t) && depth < MAX_DEPTH
    requires Word(text, SkipSpace(text, start), Text(t))
    ensures ValueAt(text, start, depth, finite) == Ok(Meaning(t), SkipSpace(text, start) + |Text(t)|)
  {
    hide Word, ValueAt, SkipSpace, Space;
    var p := SkipSpace(text, start);
    var open, close := if t.EmptyArray? then 0x5B else 0x7B, if t.EmptyArray? then 0x5D else 0x7D;
    assert Text(t) == [open] + (t.blank + ([close] + []));
    First(text, p, open, t.blank + ([close] + []));
    AfterValue(text, p + 1, t.blank, close, []);
    if t.EmptyArray? {
      OpensArray(text, start, depth, finite);
    } else {
      OpensObject(text, start, depth, finite);
    }
  }

  lemma ContainerParts(t: Tree, depth: nat, finite: seq<byte> -> bool)
    requires Good(t) && Admitted(Meaning(t), depth, finite)
    ensures !Atom(t) ==> depth > 0
    ensures t.FullArray? ==>
      && GoodItems(t.items) && Text(t) == [0x5B] + ItemsText(t.items)
      && Meaning(t) == Array([] + Values(t.items)) && AllAdmitted(Values(t.items), depth - 1, finite)
    ensures t.FullObject? ==>
      && GoodMembers(t.members) && Text(t) == [0x7B] + MembersText(t.members)
      && Meaning(t) == Object([] + Pairs(t.members)) && PairsAdmitted(Pairs(t.members), depth - 1, finite)
      && DistinctKeys([] + Pairs(t.members))
  {
    hide GoodItems, GoodMembers, ItemsText, MembersText, Values, Pairs, DistinctKeys;
    if t.FullArray? {
      assert [] + Values(t.items) == Values(t.items);
    }
    if t.FullObject? {
      assert [] + Pairs(t.members) == Pairs(t.members);
    }
  }

  lemma {:induction false} ReadsValue(text: seq<byte>, at: nat, before: seq<byte>, t: Tree, depth: nat,
                                      finite: seq<byte> -> bool)
    requires Space(before) && Good(t) && Word(text, at, before + Text(t)) && Stop(text, at + |before| + |Text(t)|)
    requires depth <= MAX_DEPTH && Admitted(Meaning(t), MAX_DEPTH - depth, finite)
    ensures ValueAt(text, at, depth, finite) == Ok(Meaning(t), at + |before| + |Text(t)|)
    decreases t, 0
  {
    hide *;
    BeforeValue(text, at, before, t);
    ContainerParts(t, MAX_DEPTH - depth, finite);
    AtomOrNot(t);
    var p := at + |before|;
    SkipSpaceTwice(text, p + 1);
    if t.FullArray? {
      First(text, p, 0x5B, ItemsText(t.items));
      ReadsItems(text, SkipSpace(text, p + 1), p + 1, t.items, depth + 1, [], finite);
      IsNot(text, p, 0x5B);
      OpensArray(text, at, depth, finite);
    } else if t.FullObject? {
      First(text, p, 0x7B, MembersText(t.members));
      ReadsMembers(text, SkipSpace(text, p + 1), p + 1, t.members, depth + 1, [], finite);
      IsNot(text, p, 0x7B);
      OpensObject(text, at, depth, finite);
    } else if t.EmptyArray? || t.EmptyObject? {
      ReadsEmpty(text, at, t, depth, finite);
    } else {
      ReadsAtom(text, at, t, depth, finite);
    }
  }

  lemma AtomOrNot(t: Tree)
    ensures Atom(t) <==> !t.EmptyArray? && !t.FullArray? && !t.EmptyObject? && !t.FullObject?
  {
  }

  // What follows an item: a comma and the others, or the closing bracket.
  function ItemsTail(items: Items): seq<byte>
    requires GoodItems(items)
  {
    if items.LastItem? then [] else ItemsText(items.rest)
  }

  function ItemsSep(items: Items): byte {
    if items.LastItem? then 0x5D else 0x2C
  }

  lemma ItemsParts(items: Items)
    requires GoodItems(items)
    ensures ItemsText(items) == (items.before + Text(items.tree))
        + (items.after + ([ItemsSep(items)] + ItemsTail(items)))
    ensures ItemsSep(items) == if items.LastItem? then 0x5D else 0x2C
    ensures if items.LastItem? then ItemsTail(items) == []
            else GoodItems(items.rest) && ItemsTail(items) == ItemsText(items.rest)
  {
    hide Text;
  }

  lemma ItemsStep(text: seq<byte>, at: nat, depth: nat, read: seq<Value>, finite: seq<byte> -> bool)
    requires at <= |text| && ValueAt(text, at, depth, finite).Ok?
    ensures
      var item := ValueAt(text, at, depth, finite);
      var now, end := read + [item.value], SkipSpace(text, item.at);
      && (Is(text, end, 0x2C) ==>
        ItemsFrom(text, at, depth, read, finite) == ItemsFrom(text, end + 1, depth, now, finite))
      && (Is(text, end, 0x5D) ==> ItemsFrom(text, at, depth, read, finite) == Ok(Array(now), end + 1))
  {
    hide ValueAt, SkipSpace;
  }

  // An item up to the separator after it.
  lemma {:induction false} ReadsItem(text: seq<byte>, from: nat, at: nat, items: Items, depth: nat,
                                     finite: seq<byte> -> bool)
    requires from <= |text| && at <= |text| && SkipSpace(text, from) == SkipSpace(text, at)
    requires GoodItems(items) && Word(text, at, ItemsText(items))
    requires depth <= MAX_DEPTH && Admitted(Meaning(items.tree), MAX_DEPTH - depth, finite)
    ensures
      var q := at + |items.before| + |Text(items.tree)|;
      && q + |items.after| < |text| && ValueAt(text, from, depth, finite) == Ok(Meaning(items.tree), q)
      && SkipSpace(text, q) == q + |items.after| && Is(text, q + |items.after|, ItemsSep(items))
      && Word(text, q + |items.after| + 1, ItemsTail(items))
    ensures !Is(text, SkipSpace(text, at), 0x5D)
    decreases items, 1
  {
    hide *;
    ItemsParts(items);
    GoodParts(items);
    FirstByte(items.tree);
    var shown := items.before + Text(items.tree);
    Split(text, at, shown, items.after + ([ItemsSep(items)] + ItemsTail(items)));
    AfterValue(text, at + |shown|, items.after, ItemsSep(items), ItemsTail(items));
    BeforeValue(text, at, items.before, items.tree);
    ReadsValue(text, at, items.before, items.tree, depth, finite);
    SameValue(text, from, at, depth, finite);
    IsNot(text, SkipSpace(text, at), 0x5D);
  }

  lemma IsNot(text: seq<byte>, at: nat, b: byte)
    ensures Is(text, at, b) <==> at < |text| && text[at] == b
  {
  }

  lemma {:induction false} ReadsItems(text: seq<byte>, from: nat, at: nat, items: Items, depth: nat, read: seq<Value>,
                                      finite: seq<byte> -> bool)
    requires from <= |text| && at <= |text| && SkipSpace(text, from) == SkipSpace(text, at)
    requires GoodItems(items) && Word(text, at, ItemsText(items))
    requires depth <= MAX_DEPTH && AllAdmitted(Values(items), MAX_DEPTH - depth, finite)
    ensures ItemsFrom(text, from, depth, read, finite) == Ok(Array(read + Values(items)), at + |ItemsText(items)|)
    ensures !Is(text, SkipSpace(text, at), 0x5D)
    decreases items, 2
  {
    hide *;
    AdmittedParts(items, read, MAX_DEPTH - depth, finite);
    ItemsParts(items);
    var now := read + [Meaning(items.tree)];
    var next := at + |items.before| + |Text(items.tree)| + |items.after| + 1;
    ReadsItem(text, from, at, items, depth, finite);
    ItemsStep(text, from, depth, read, finite);
    if items.MoreItems? {
      ReadsItems(text, next, next, items.rest, depth, now, finite);
    }
  }

  lemma GoodParts(items: Items)
    requires GoodItems(items)
    ensures Space(items.before) && Good(items.tree) && Space(items.after)
  {
  }

  lemma AdmittedParts(items: Items, read: seq<Value>, depth: nat, finite: seq<byte> -> bool)
    requires GoodItems(items) && AllAdmitted(Values(items), depth, finite)
    ensures Good(items.tree) && Admitted(Meaning(items.tree), depth, finite)
    ensures
      var now := read + [Meaning(items.tree)];
      if items.LastItem? then now == read + Values(items)
      else
        GoodItems(items.rest) && AllAdmitted(Values(items.rest), depth, finite)
        && now + Values(items.rest) == read + Values(items)
  {
    hide *;
    ValuesParts(items);
    var rest := if items.LastItem? then [] else Values(items.rest);
    FirstAdmitted(Meaning(items.tree), rest, depth, finite);
    assert read + ([Meaning(items.tree)] + rest) == read + [Meaning(items.tree)] + rest;
  }

  lemma ValuesParts(items: Items)
    requires GoodItems(items)
    ensures Good(items.tree) && (items.MoreItems? ==> GoodItems(items.rest))
    ensures Values(items) == [Meaning(items.tree)] + (if items.LastItem? then [] else Values(items.rest))
  {
    hide Good, Meaning, Space;
  }

  lemma FirstAdmitted(v: Value, rest: seq<Value>, depth: nat, finite: seq<byte> -> bool)
    requires AllAdmitted([v] + rest, depth, finite)
    ensures Admitted(v, depth, finite) && AllAdmitted(rest, depth, finite)
  {
    hide Admitted;
    assert ([v] + rest)[0] == v;
    assert ([v] + rest)[1..] == rest;
  }

  // ----- Members -----

  function MembersTail(ms: Members): seq<byte>
    requires GoodMembers(ms)
  {
    if ms.LastMember? then [] else MembersText(ms.rest)
  }

  function MembersSep(ms: Members): byte {
    if ms.LastMember? then 0x7D else 0x2C
  }

  lemma MembersParts(ms: Members)
    requires GoodMembers(ms)
    ensures Space(ms.after)
    ensures MembersText(ms) == MemberText(ms) + (ms.after + ([MembersSep(ms)] + MembersTail(ms)))
    ensures MembersSep(ms) == if ms.LastMember? then 0x7D else 0x2C
    ensures if ms.LastMember? then MembersTail(ms) == []
            else GoodMembers(ms.rest) && MembersTail(ms) == MembersText(ms.rest)
  {
    hide MemberText;
    if ms.LastMember? {
      assert [0x7D] + MembersTail(ms) == [0x7D];
    }
  }

  // The part of a member up to its value.
  lemma ReadsKey(text: seq<byte>, at: nat, ms: Members)
    requires GoodMembers(ms)
    requires Word(text, at, MemberText(ms))
    ensures
      var p := at + |ms.head|;
      var q := p + |Quoted(ms.key)|;
      && SkipSpace(text, at) == p && Is(text, p, 0x22) && q + |ms.colon| < |text|
      && StringAt(text, p) == Ok(CharsBytes(ms.key), q)
      && SkipSpace(text, q) == q + |ms.colon| && Is(text, q + |ms.colon|, 0x3A)
      && Word(text, q + |ms.colon| + 1, ms.before + Text(ms.tree))
  {
    hide Word, Text, Quoted, SkipSpace, StringAt, CharsBytes;
    var value := ms.before + Text(ms.tree);
    var later := ms.colon + ([0x3A] + value);
    var p := at + |ms.head|;
    Split(text, at, ms.head, Quoted(ms.key) + later);
    Split(text, p, Quoted(ms.key), later);
    QuoteFirst(ms.key);
    assert Quoted(ms.key) == [0x22] + Quoted(ms.key)[1..];
    First(text, p, 0x22, Quoted(ms.key)[1..]);
    SkipsSpace(text, at, ms.head);
    ReadsString(text, p, ms.key);
    AfterValue(text, p + |Quoted(ms.key)|, ms.colon, 0x3A, value);
  }

  // Where the value of a member at `at` starts.
  function ValueStart(ms: Members, at: nat): nat
    requires GoodMembers(ms)
  {
    at + |ms.head| + |Quoted(ms.key)| + |ms.colon| + 1
  }

  lemma MemberEnd(ms: Members, at: nat)
    requires GoodMembers(ms)
    ensures at + |MemberText(ms)| == ValueStart(ms, at) + |ms.before| + |Text(ms.tree)|
  {
    hide Text, Quoted;
  }

  lemma MemberStep(text: seq<byte>, from: nat, at: nat, ms: Members, depth: nat, read: seq<Member>,
                   finite: seq<byte> -> bool)
    requires from <= |text| && at <= |text| && SkipSpace(text, from) == SkipSpace(text, at)
    requires GoodMembers(ms) && Word(text, at, MemberText(ms)) && !HasKey(read, CharsBytes(ms.key))
    ensures ValueStart(ms, at) <= |text| && !Is(text, SkipSpace(text, at), 0x7D)
    ensures Word(text, ValueStart(ms, at), ms.before + Text(ms.tree))
    ensures
      var item := ValueAt(text, ValueStart(ms, at), depth, finite);
      MemberAt(text, from, depth, read, finite) == if item.Ok? then Ok(Member(CharsBytes(ms.key), item.value), item.at)
        else Fail
  {
    hide *;
    ReadsKey(text, at, ms);
    StartOf(ms, at);
    var p := at + |ms.head|;
    IsNot(text, p, 0x22);
    IsNot(text, p, 0x7D);
    MemberOpens(text, from, depth, read, finite);
  }

  lemma StartOf(ms: Members, at: nat)
    requires GoodMembers(ms)
    ensures GoodChars(ms.key) && Good(ms.tree)
    ensures ValueStart(ms, at) == at + |ms.head| + |Quoted(ms.key)| + |ms.colon| + 1
  {
  }

  // What a member at `from` comes to, once its key and colon are there.
  lemma MemberOpens(text: seq<byte>, from: nat, depth: nat, read: seq<Member>, finite: seq<byte> -> bool)
    requires from <= |text|
    ensures
      var key := StringAt(text, SkipSpace(text, from));
      key.Ok? && !HasKey(read, key.value) && Is(text, SkipSpace(text, key.at), 0x3A) ==>
        var item := ValueAt(text, SkipSpace(text, key.at) + 1, depth, finite);
        MemberAt(text, from, depth, read, finite) == if item.Ok? then Ok(Member(key.value, item.value), item.at)
          else Fail
  {
    hide ValueAt, StringAt, SkipSpace, HasKey;
  }

  lemma MemberSpaces(ms: Members)
    requires GoodMembers(ms)
    ensures Space(ms.before) && Good(ms.tree)
  {
  }

  lemma {:induction false} ReadsMember(text: seq<byte>, from: nat, at: nat, ms: Members, depth: nat, read: seq<Member>,
                                       finite: seq<byte> -> bool)
    requires from <= |text| && at <= |text| && SkipSpace(text, from) == SkipSpace(text, at)
    requires GoodMembers(ms) && Word(text, at, MemberText(ms)) && Stop(text, at + |MemberText(ms)|)
    requires depth <= MAX_DEPTH && Admitted(Meaning(ms.tree), MAX_DEPTH - depth, finite)
    requires !HasKey(read, CharsBytes(ms.key))
    ensures MemberAt(text, from, depth, read, finite) ==
            Ok(Member(CharsBytes(ms.key), Meaning(ms.tree)), at + |MemberText(ms)|)
    ensures !Is(text, SkipSpace(text, at), 0x7D)
    decreases ms, 1
  {
    hide *;
    StartOf(ms, at);
    MemberSpaces(ms);
    MemberStep(text, from, at, ms, depth, read, finite);
    MemberEnd(ms, at);
    ReadsValue(text, ValueStart(ms, at), ms.before, ms.tree, depth, finite);
  }

  lemma MembersStep(text: seq<byte>, at: nat, depth: nat, read: seq<Member>, finite: seq<byte> -> bool)
    requires at <= |text| && MemberAt(text, at, depth, read, finite).Ok?
    ensures
      var member := MemberAt(text, at, depth, read, finite);
      var now, end := read + [member.value], SkipSpace(text, member.at);
      && (Is(text, end, 0x2C) ==>
        MembersFrom(text, at, depth, read, finite) == MembersFrom(text, end + 1, depth, now, finite))
      && (Is(text, end, 0x7D) ==> MembersFrom(text, at, depth, read, finite) == Ok(Object(now), end + 1))
  {
    hide MemberAt, SkipSpace;
  }

  lemma PairParts(ms: Members, read: seq<Member>, depth: nat, finite: seq<byte> -> bool)
    requires GoodMembers(ms) && PairsAdmitted(Pairs(ms), depth, finite) && DistinctKeys(read + Pairs(ms))
    ensures GoodChars(ms.key) && Good(ms.tree)
    ensures Admitted(Meaning(ms.tree), depth, finite) && !HasKey(read, CharsBytes(ms.key))
    ensures ms.MoreMembers? ==> GoodMembers(ms.rest) && PairsAdmitted(Pairs(ms.rest), depth, finite)
    ensures
      var now := read + [Member(CharsBytes(ms.key), Meaning(ms.tree))];
      if ms.MoreMembers? then now + Pairs(ms.rest) == read + Pairs(ms) else now == read + Pairs(ms)
  {
    hide *;
    PairsParts(ms);
    var member := Member(CharsBytes(ms.key), Meaning(ms.tree));
    var rest := if ms.LastMember? then [] else Pairs(ms.rest);
    NewKey(read, [member] + rest);
    FirstPairAdmitted(member, rest, depth, finite);
    assert read + ([member] + rest) == read + [member] + rest;
  }

  lemma PairsParts(ms: Members)
    requires GoodMembers(ms)
    ensures GoodChars(ms.key) && Good(ms.tree) && (ms.MoreMembers? ==> GoodMembers(ms.rest))
    ensures Pairs(ms) == [Member(CharsBytes(ms.key), Meaning(ms.tree))]
        + (if ms.LastMember? then [] else Pairs(ms.rest))
  {
    hide Good, Meaning, Space, GoodChars, CharsBytes;
  }

  lemma FirstPairAdmitted(m: Member, rest: seq<Member>, depth: nat, finite: seq<byte> -> bool)
    requires PairsAdmitted([m] + rest, depth, finite)
    ensures Admitted(m.value, depth, finite) && PairsAdmitted(rest, depth, finite)
  {
    hide Admitted;
    assert ([m] + rest)[0] == m;
    assert ([m] + rest)[1..] == rest;
  }

  lemma {:induction false} ReadsMembers(text: seq<byte>, from: nat, at: nat, ms: Members, depth: nat, read: seq<Member>,
                                        finite: seq<byte> -> bool)
    requires from <= |text| && at <= |text| && SkipSpace(text, from) == SkipSpace(text, at)
    requires GoodMembers(ms) && Word(text, at, MembersText(ms))
    requires depth <= MAX_DEPTH && PairsAdmitted(Pairs(ms), MAX_DEPTH - depth, finite) && DistinctKeys(read + Pairs(ms))
    ensures MembersFrom(text, from, depth, read, finite) == Ok(Object(read + Pairs(ms)), at + |MembersText(ms)|)
    ensures !Is(text, SkipSpace(text, at), 0x7D)
    decreases ms, 2
  {
    hide *;
    PairParts(ms, read, MAX_DEPTH - depth, finite);
    MembersParts(ms);
    var q := at + |MemberText(ms)|;
    var next := q + |ms.after| + 1;
    Split(text, at, MemberText(ms), ms.after + ([MembersSep(ms)] + MembersTail(ms)));
    AfterValue(text, q, ms.after, MembersSep(ms), MembersTail(ms));
    IsNot(text, q + |ms.after|, MembersSep(ms));
    ReadsMember(text, from, at, ms, depth, read, finite);
    MembersStep(text, from, depth, read, finite);
    if ms.MoreMembers? {
      ReadsMembers(text, next, next, ms.rest, depth, read + [Member(CharsBytes(ms.key), Meaning(ms.tree))], finite);
    }
  }

  lemma NewKey(read: seq<Member>, more: seq<Member>)
    requires |more| > 0 && DistinctKeys(read + more)
    ensures !HasKey(read, more[0].key)
  {
    assert forall i :: 0 <= i < |read| ==> (read + more)[i] == read[i];
    assert (read + more)[|read|] == more[0];
  }

  // ----- Documents -----

  // Any rendering of a tree whose value is admitted parses to that value.
  lemma ParseComplete(document: seq<byte>, before: seq<byte>, t: Tree, after: seq<byte>, finite: seq<byte> -> bool)
    requires Renders(document, before, t, after) && Admitted(Meaning(t), MAX_DEPTH, finite)
    ensures Parse(document, finite) == Some(Meaning(t))
  {
    hide ValueAt, Text, Admitted, Meaning;
    var text := before + Text(t) + after;
    NoMark(before, t, after);
    if document == BYTE_ORDER_MARK + text {
      assert document[3..] == text;
      assert Word(document, 0, BYTE_ORDER_MARK);
    }
    assert Word(text, 0, before + Text(t));
    var end := |before| + |Text(t)|;
    assert text[end..] == after;
    SkipsSpace(text, end, after);
    if after != [] {
      assert text[end] == after[0];
    }
    ReadsValue(text, 0, before, t, 0, finite);
  }

  // No JSON text starts with a byte-order mark.
  lemma NoMark(before: seq<byte>, t: Tree, after: seq<byte>)
    requires Space(before) && Good(t)
    ensures !Word(before + Text(t) + after, 0, BYTE_ORDER_MARK)
  {
    FirstAscii(t);
    var text := before + Text(t) + after;
    assert text[0] == (if before == [] then Text(t)[0] else before[0]) < 0x80;
    if |text| >= 3 {
      assert text[0..3][0] == text[0];
    }
  }

  lemma FirstAscii(t: Tree)
    requires Good(t)
    ensures |Text(t)| > 0 && Text(t)[0] < 0x80
  {
    match t
    case TNumber(n) =>
      if n.minus {
        assert NumText(n)[0] == 0x2D;
      } else {
        assert NumText(n)[0] == n.whole[0];
      }
    case _ =>
  }
}
