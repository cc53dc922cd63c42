/** Whatever the reader accepts is a rendering of the value it returns, and that value is admitted. */
module JsonSound {
  import opened Common
  import opened Bits
  import opened Utf8
  import opened Json
  import opened JsonGrammar

  lemma Joined(text: seq<byte>, a: nat, b: nat, c: nat)
    requires a <= b <= c <= |text|
    ensures text[a..c] == text[a..b] + text[b..c]
  {
  }

  lemma One(text: seq<byte>, at: nat, b: byte)
    requires at < |text| && text[at] == b
    ensures text[at..at + 1] == [b]
  {
  }

  lemma {:induction false} SpaceSkipped(text: seq<byte>, at: nat)
    requires at <= |text|
    ensures Space(text[at..SkipSpace(text, at)])
    decreases |text| - at
  {
    if at < |text| && IsSpace(text[at]) {
      SpaceSkipped(text, at + 1);
      assert text[at..SkipSpace(text, at)] == [text[at]] + text[at + 1..SkipSpace(text, at)];
    }
  }

  lemma {:induction false} DigitsSkipped(text: seq<byte>, at: nat)
    requires at <= |text|
    ensures SkipDigits(text, at) > at ==> Digits(text[at..SkipDigits(text, at)])
    decreases |text| - at
  {
    if at < |text| && IsDigit(text[at]) {
      DigitsSkipped(text, at + 1);
      assert text[at..SkipDigits(text, at)] == [text[at]] + text[at + 1..SkipDigits(text, at)];
    }
  }

  // ----- Strings -----

  lemma SameNibble(b: byte)
    ensures HexDigit(b).Some? <==> IsNibble(b)
    ensures IsNibble(b) ==> HexDigit(b).value == Nibble(b)
  {
  }

  lemma HexRead(text: seq<byte>, at: nat)
    requires at <= |text| && Hex(text, at, 4, 0).Ok?
    ensures at + 4 <= |text| && HexDigits(text[at..at + 4]) && HexValue(text[at..at + 4]) == Hex(text, at, 4, 0).value
  {
    hide HexDigit, IsNibble, Nibble;
    assert at < |text|;
    SameNibble(text[at]);
    var d0 := HexDigit(text[at]).value;
    assert Hex(text, at, 4, 0) == Hex(text, at + 1, 3, d0);
    assert at + 1 < |text|;
    SameNibble(text[at + 1]);
    var d1 := HexDigit(text[at + 1]).value;
    assert Hex(text, at + 1, 3, d0) == Hex(text, at + 2, 2, d0 * 16 + d1);
    assert at + 2 < |text|;
    SameNibble(text[at + 2]);
    var d2 := HexDigit(text[at + 2]).value;
    assert Hex(text, at + 2, 2, d0 * 16 + d1) == Hex(text, at + 3, 1, (d0 * 16 + d1) * 16 + d2);
    assert at + 3 < |text|;
    SameNibble(text[at + 3]);
    var d3 := HexDigit(text[at + 3]).value;
    assert Hex(text, at + 3, 1, (d0 * 16 + d1) * 16 + d2) == Ok(((d0 * 16 + d1) * 16 + d2) * 16 + d3, at + 4);
    var hex := text[at..at + 4];
    assert hex[0] == text[at] && hex[1] == text[at + 1] && hex[2] == text[at + 2] && hex[3] == text[at + 3];
  }

  lemma EscapeRead(text: seq<byte>, at: nat) returns (c: Char)
    requires at <= |text| && Escape(text, at).Ok?
    ensures GoodChar(c) && !c.Plain?
    ensures [0x5C] + text[at..Escape(text, at).at] == CharText(c) && Escape(text, at).value == Encode(Code(c))
  {
    hide Hex, HexDigits, HexValue, Encode, Word, Short, ESCAPES;
    if Short(text[at]).Some? {
      One(text, at, text[at]);
      ShortEncoding(text[at]);
      return Letter(text[at], Short(text[at]).value);
    }
    HexRead(text, at + 1);
    var high, first := text[at + 1..at + 5], Hex(text, at + 1, 4, 0).value;
    UnitText(text, at);
    if 0xD800 <= first <= 0xDBFF {
      HexRead(text, at + 7);
      PairText(text, at);
      return Pair(high, text[at + 7..at + 11]);
    }
    return Unit(high);
  }

  lemma UnitText(text: seq<byte>, at: nat)
    requires at + 5 <= |text| && text[at] == 0x75
    ensures [0x5C] + text[at..at + 5] == [0x5C, 0x75] + text[at + 1..at + 5]
  {
  }

  lemma PairText(text: seq<byte>, at: nat)
    requires at + 11 <= |text| && text[at] == 0x75 && Word(text, at + 5, [0x5C, 0x75])
    ensures [0x5C] + text[at..at + 11] == [0x5C, 0x75] + text[at + 1..at + 5] + [0x5C, 0x75] + text[at + 7..at + 11]
  {
    UnitText(text, at);
    Joined(text, at, at + 5, at + 11);
    Joined(text, at + 5, at + 7, at + 11);
    assert text[at + 5..at + 7] == [0x5C, 0x75];
  }

  lemma ShortEncoding(e: byte)
    requires Short(e).Some?
    ensures Encode(Short(e).value) == [Short(e).value] && (e, Short(e).value as nat) in ESCAPES
  {
    assert ESCAPES[0] == (0x22, 0x22) && ESCAPES[1] == (0x5C, 0x5C) && ESCAPES[2] == (0x2F, 0x2F);
    assert ESCAPES[3] == (0x62, 0x08) && ESCAPES[4] == (0x66, 0x0C) && ESCAPES[5] == (0x6E, 0x0A);
    assert ESCAPES[6] == (0x72, 0x0D) && ESCAPES[7] == (0x74, 0x09);
  }

  // What a string is made of before its bytes are grouped into characters.
  datatype Piece = Raw(b: byte) | Escaped(c: Char)

  predicate GoodPiece(p: Piece) {
    match p
    case Raw(b) => b >= 0x20 && b != 0x22 && b != 0x5C
    case Escaped(c) => GoodChar(c) && !c.Plain?
  }

  predicate GoodPieces(ps: seq<Piece>) {
    forall i :: 0 <= i < |ps| ==> GoodPiece(ps[i])
  }

  function PieceText(p: Piece): seq<byte>
    requires GoodPiece(p)
  {
    if p.Raw? then [p.b] else CharText(p.c)
  }

  function PieceBytes(p: Piece): seq<byte>
    requires GoodPiece(p)
  {
    if p.Raw? then [p.b] else Encode(Code(p.c))
  }

  function PiecesText(ps: seq<Piece>): seq<byte>
    requires GoodPieces(ps)
  {
    if ps == [] then [] else PieceText(ps[0]) + PiecesText(ps[1..])
  }

  function PiecesBytes(ps: seq<Piece>): seq<byte>
    requires GoodPieces(ps)
  {
    if ps == [] then [] else PieceBytes(ps[0]) + PiecesBytes(ps[1..])
  }

  lemma {:induction false} PiecesRead(text: seq<byte>, at: nat, out: seq<byte>) returns (ps: seq<Piece>)
    requires at <= |text| && StringFrom(text, at, out).Ok?
    ensures GoodPieces(ps) && WellFormed(out + PiecesBytes(ps))
    ensures
      var r := StringFrom(text, at, out);
      text[at..r.at] == PiecesText(ps) + [0x22] && r.value == out + PiecesBytes(ps)
    decreases |text| - at
  {
    hide Escape, WellFormed, Encode, CharText, GoodChar, Code;
    var r := StringFrom(text, at, out);
    if text[at] == 0x22 {
      ps := [];
      assert out + PiecesBytes(ps) == out;
      return;
    }
    var p, next: nat;
    if text[at] != 0x5C {
      p, next := Raw(text[at]), at + 1;
    } else {
      var c := EscapeRead(text, at + 1);
      p, next := Escaped(c), Escape(text, at + 1).at;
      assert text[at..next] == [0x5C] + text[at + 1..next];
    }
    var more := PieceBytes(p);
    var rest := PiecesRead(text, next, out + more);
    ps := [p] + rest;
    assert ps[1..] == rest;
    Joined(text, at, next, r.at);
    assert out + more + PiecesBytes(rest) == out + PiecesBytes(ps);
    assert PieceText(p) + (PiecesText(rest) + [0x22]) == PiecesText(ps) + [0x22];
  }

  lemma EncodeLead(cp: nat)
    requires cp <= 0x10FFFF
    ensures !Tail(Encode(cp)[0])
  {
  }

  // Continuation bytes can only come from raw bytes.
  lemma {:induction false} TailsAreRaw(ps: seq<Piece>, m: nat)
    requires GoodPieces(ps) && m <= |PiecesBytes(ps)|
    requires forall k :: 0 <= k < m ==> Tail(PiecesBytes(ps)[k])
    ensures m <= |ps| && |PiecesText(ps)| >= m
    ensures PiecesText(ps)[..m] == PiecesBytes(ps)[..m]
    ensures PiecesBytes(ps)[m..] == PiecesBytes(ps[m..]) && PiecesText(ps)[m..] == PiecesText(ps[m..])
    decreases m
  {
    hide Encode, CharText, GoodChar, Code;
    if m == 0 {
      assert ps[0..] == ps;
    } else {
      FirstIsRaw(ps);
      var b, rest := ps[0].b, ps[1..];
      hide PiecesBytes, PiecesText;
      Shifted(b, PiecesBytes(rest), 0);
      forall k | 0 <= k < m - 1
        ensures Tail(PiecesBytes(rest)[k])
      {
        assert PiecesBytes(rest)[k] == PiecesBytes(ps)[k + 1];
      }
      TailsAreRaw(rest, m - 1);
      Shifted(b, PiecesBytes(rest), m - 1);
      Shifted(b, PiecesText(rest), m - 1);
      assert ps[m..] == rest[m - 1..];
    }
  }

  lemma FirstIsRaw(ps: seq<Piece>)
    requires GoodPieces(ps) && PiecesBytes(ps) != [] && Tail(PiecesBytes(ps)[0])
    ensures |ps| > 0 && ps[0].Raw?
    ensures PiecesBytes(ps) == [ps[0].b] + PiecesBytes(ps[1..]) && PiecesText(ps) == [ps[0].b] + PiecesText(ps[1..])
  {
    hide Encode, CharText, GoodChar, Code;
    if ps[0].Escaped? {
      assert PiecesBytes(ps)[0] == Encode(Code(ps[0].c))[0];
      EncodeLead(Code(ps[0].c));
      assert false;
    }
  }

  lemma EncodeTails(cp: nat)
    requires cp <= 0x10FFFF
    ensures forall k :: 1 <= k < |Encode(cp)| ==> Tail(Encode(cp)[k])
    ensures cp < 0x80 ==> Encode(cp) == [cp]
    ensures cp >= 0x80 ==> Encode(cp)[0] >= 0x80
  {
  }

  // Well-formed bytes group into characters.
  lemma {:induction false} CharsOf(ps: seq<Piece>) returns (chars: seq<Char>)
    requires GoodPieces(ps) && WellFormed(PiecesBytes(ps))
    ensures GoodChars(chars) && CharsText(chars) == PiecesText(ps) && CharsBytes(chars) == PiecesBytes(ps)
    decreases |ps|
  {
    if ps == [] {
      return [];
    }
    var bytes := PiecesBytes(ps);
    var c: Char, rest: seq<Piece>;
    if ps[0].Escaped? {
      c, rest := ps[0].c, ps[1..];
      WellFormedEncode(Code(c), PiecesBytes(rest));
    } else {
      c, rest := RawCharacter(ps);
    }
    var others := CharsOf(rest);
    chars := [c] + others;
    assert chars[1..] == others;
  }

  lemma RawCharacter(ps: seq<Piece>) returns (c: Char, rest: seq<Piece>)
    requires GoodPieces(ps) && ps != [] && ps[0].Raw? && WellFormed(PiecesBytes(ps))
    ensures GoodChar(c) && |rest| < |ps| && GoodPieces(rest) && WellFormed(PiecesBytes(rest))
    ensures PiecesText(ps) == CharText(c) + PiecesText(rest) && PiecesBytes(ps) == Encode(Code(c)) + PiecesBytes(rest)
  {
    var bytes, later := PiecesBytes(ps), ps[1..];
    assert bytes == [ps[0].b] + PiecesBytes(later);
    assert PiecesText(ps) == [ps[0].b] + PiecesText(later);
    var d := Decode(bytes);
    hide Encode, Decode, PiecesBytes, PiecesText, PieceText, PieceBytes;
    EncodeInvertsDecode(bytes);
    EncodeTails(d.cp);
    var first, m := bytes[..d.bytes], d.bytes - 1;
    assert first[0] == ps[0].b;
    TailsFollow(ps[0].b, PiecesBytes(later), d.cp, m);
    TailsAreRaw(later, m);
    c, rest := Plain(d.cp), later[m..];
    Shifted(ps[0].b, PiecesBytes(later), m);
    Shifted(ps[0].b, PiecesText(later), m);
  }

  lemma Shifted(b: byte, s: seq<byte>, m: nat)
    requires m <= |s|
    ensures ([b] + s)[..m + 1] == [b] + s[..m] && ([b] + s)[m + 1..] == s[m..]
    ensures [b] + s == ([b] + s[..m]) + s[m..]
  {
  }

  lemma TailsFollow(b: byte, s: seq<byte>, cp: nat, m: nat)
    requires cp <= 0x10FFFF && m <= |s| && ([b] + s)[..m + 1] == Encode(cp)
    ensures forall k :: 0 <= k < m ==> Tail(s[k])
  {
    EncodeTails(cp);
    forall k | 0 <= k < m
      ensures Tail(s[k])
    {
      assert s[k] == ([b] + s)[..m + 1][k + 1] == Encode(cp)[k + 1];
    }
  }

  lemma StringRead(text: seq<byte>, at: nat) returns (chars: seq<Char>)
    requires at <= |text| && StringAt(text, at).Ok?
    ensures GoodChars(chars)
    ensures text[at..StringAt(text, at).at] == Quoted(chars) && StringAt(text, at).value == CharsBytes(chars)
  {
    hide StringFrom, CharsText, CharsBytes, PiecesText, PiecesBytes, WellFormed, GoodChars, GoodPieces;
    var ps := PiecesRead(text, at + 1, []);
    assert [] + PiecesBytes(ps) == PiecesBytes(ps);
    chars := CharsOf(ps);
    Joined(text, at, at + 1, StringAt(text, at).at);
    One(text, at, 0x22);
  }

  // ----- Numbers -----

  lemma NumberRead(text: seq<byte>, at: nat, finite: seq<byte> -> bool) returns (n: Num)
    requires at <= |text| && NumberAt(text, at, finite).Ok?
    ensures GoodNum(n) && finite(NumText(n))
    ensures
      var r := NumberAt(text, at, finite);
      text[at..r.at] == NumText(n) && r.value == Number(NumText(n))
  {
    hide WholeEnd, FractionEnd, ExponentEnd;
    var minus := Is(text, at, 0x2D);
    var p := if minus then at + 1 else at;
    var q := WholeEnd(text, p).value;
    var r := FractionEnd(text, q).value;
    var end := ExponentEnd(text, r).value;
    WholeRead(text, p);
    var fraction := FractionRead(text, q);
    var exponent := ExponentRead(text, r);
    n := Num(minus, text[p..q], fraction, exponent);
    if minus {
      One(text, at, 0x2D);
    }
    assert text[at..p] == (if minus then [0x2D] else []);
    FourParts(text, at, p, q, r, end);
  }

  lemma FourParts(text: seq<byte>, a: nat, b: nat, c: nat, d: nat, e: nat)
    requires a <= b <= c <= d <= e <= |text|
    ensures text[a..e] == text[a..b] + text[b..c] + text[c..d] + text[d..e]
  {
    Joined(text, a, b, c);
    Joined(text, a, c, d);
    Joined(text, a, d, e);
  }

  lemma WholeRead(text: seq<byte>, at: nat)
    requires at <= |text| && WholeEnd(text, at).Some?
    ensures
      var whole := text[at..WholeEnd(text, at).value];
      Digits(whole) && (whole[0] == 0x30 ==> |whole| == 1)
  {
    DigitsSkipped(text, at);
    if Is(text, at, 0x30) {
      One(text, at, 0x30);
    }
  }

  lemma FractionRead(text: seq<byte>, at: nat) returns (f: Option<seq<byte>>)
    requires at <= |text| && FractionEnd(text, at).Some?
    ensures (f.Some? ==> Digits(f.value)) && text[at..FractionEnd(text, at).value] == FractionText(f)
  {
    if !Is(text, at, 0x2E) {
      return None;
    }
    var end := FractionEnd(text, at).value;
    DigitsSkipped(text, at + 1);
    One(text, at, 0x2E);
    Joined(text, at, at + 1, end);
    return Some(text[at + 1..end]);
  }

  predicate GoodExponent(e: Exponent) {
    && (e.mark == 0x65 || e.mark == 0x45)
    && (e.sign == [] || e.sign == [0x2B] || e.sign == [0x2D])
    && Digits(e.digits)
  }

  lemma ExponentRead(text: seq<byte>, at: nat) returns (e: Option<Exponent>)
    requires at <= |text| && ExponentEnd(text, at).Some?
    ensures (e.Some? ==> GoodExponent(e.value)) && text[at..ExponentEnd(text, at).value] == ExponentText(e)
  {
    if !Is(text, at, 0x65) && !Is(text, at, 0x45) {
      return None;
    }
    var end := ExponentEnd(text, at).value;
    var start := if Is(text, at + 1, 0x2B) || Is(text, at + 1, 0x2D) then at + 2 else at + 1;
    DigitsSkipped(text, start);
    var x := Exponent(text[at], text[at + 1..start], text[start..end]);
    hide SkipDigits, Digits;
    if start == at + 2 {
      One(text, at + 1, text[at + 1]);
    }
    hide ExponentEnd;
    ThreeParts(text, at, start, end);
    return Some(x);
  }

  lemma ThreeParts(text: seq<byte>, at: nat, start: nat, end: nat)
    requires at + 1 <= start <= end <= |text|
    ensures text[at..end] == [text[at]] + text[at + 1..start] + text[start..end]
  {
    One(text, at, text[at]);
    Joined(text, at, at + 1, start);
    Joined(text, at, start, end);
  }

  // ----- Values -----

  // The text from `from` to `to` is white space and a rendering of v, which is admitted.
  ghost predicate Shown(text: seq<byte>, from: nat, to: nat, before: seq<byte>, t: Tree, v: Value, depth: nat,
                        finite: seq<byte> -> bool) {
    && from <= to <= |text| && Space(before) && Good(t) && text[from..to] == before + Text(t)
    && Meaning(t) == v && depth <= MAX_DEPTH && Admitted(v, MAX_DEPTH - depth, finite)
  }

  // The value itself, after the white space before it.
  ghost predicate Stands(text: seq<byte>, at: nat, end: nat, t: Tree, v: Value, depth: nat, finite: seq<byte> -> bool) {
    && at <= end <= |text| && Good(t) && text[at..end] == Text(t)
    && Meaning(t) == v && depth <= MAX_DEPTH && Admitted(v, MAX_DEPTH - depth, finite)
  }

  lemma {:induction false} ValueRead(text: seq<byte>, start: nat, depth: nat, finite: seq<byte> -> bool)
    returns (before: seq<byte>, t: Tree)
    requires start <= |text| && depth <= MAX_DEPTH && ValueAt(text, start, depth, finite).Ok?
    ensures
      var r := ValueAt(text, start, depth, finite);
      Shown(text, start, r.at, before, t, r.value, depth, finite)
    decreases |text| - start, 1
  {
    var at := SkipSpace(text, start);
    before := text[start..at];
    SpaceSkipped(text, start);
    var r := ValueAt(text, start, depth, finite);
    if Is(text, at, 0x7B) {
      t := ObjectRead(text, start, depth, finite);
    } else if Is(text, at, 0x5B) {
      t := ArrayRead(text, start, depth, finite);
    } else {
      t := AtomRead(text, start, depth, finite);
    }
    hide Space, Good, Text, Meaning, Admitted, ValueAt;
    Joined(text, start, at, r.at);
  }

  lemma AtomRead(text: seq<byte>, start: nat, depth: nat, finite: seq<byte> -> bool) returns (t: Tree)
    requires start <= |text| && depth <= MAX_DEPTH && ValueAt(text, start, depth, finite).Ok?
    requires !Is(text, SkipSpace(text, start), 0x7B) && !Is(text, SkipSpace(text, start), 0x5B)
    ensures
      var r := ValueAt(text, start, depth, finite);
      Stands(text, SkipSpace(text, start), r.at, t, r.value, depth, finite)
  {
    hide SkipSpace, StringAt, NumberAt, ItemsFrom, MembersFrom, GoodNum, NumText, GoodChars, Quoted, CharsBytes;
    var at := SkipSpace(text, start);
    if text[at] == 0x22 {
      var chars := StringRead(text, at);
      return TString(chars);
    } else if Word(text, at, TRUE_WORD) {
      return TTrue;
    } else if Word(text, at, FALSE_WORD) {
      return TFalse;
    } else if Word(text, at, NULL_WORD) {
      return TNull;
    } else {
      var n := NumberRead(text, at, finite);
      return TNumber(n);
    }
  }

  // ----- Arrays -----

  // What an accepted array comes to.
  lemma ArrayOpened(text: seq<byte>, start: nat, depth: nat, finite: seq<byte> -> bool)
    requires start <= |text| && ValueAt(text, start, depth, finite).Ok? && Is(text, SkipSpace(text, start), 0x5B)
    ensures depth < MAX_DEPTH && SkipSpace(text, start) < |text| && text[SkipSpace(text, start)] == 0x5B
    ensures
      var first := SkipSpace(text, SkipSpace(text, start) + 1);
      ValueAt(text, start, depth, finite) ==
      if Is(text, first, 0x5D) then Ok(Array([]), first + 1) else ItemsFrom(text, first, depth + 1, [], finite)
  {
    hide SkipSpace, StringAt, NumberAt, ItemsFrom, MembersFrom;
  }

  lemma EmptyStands(text: seq<byte>, at: nat, first: nat, t: Tree, depth: nat, finite: seq<byte> -> bool)
    requires at + 1 <= first < |text| && depth < MAX_DEPTH
    requires (t.EmptyArray? && text[at] == 0x5B && text[first] == 0x5D)
        || (t.EmptyObject? && text[at] == 0x7B && text[first] == 0x7D)
    requires t.blank == text[at + 1..first] && Space(t.blank)
    ensures Stands(text, at, first + 1, t, if t.EmptyArray? then Array([]) else Object([]), depth, finite)
  {
    One(text, at, text[at]);
    One(text, first, text[first]);
    Joined(text, at, at + 1, first + 1);
    Joined(text, at + 1, first, first + 1);
    assert [text[at]] + (t.blank + [text[first]]) == [text[at]] + t.blank + [text[first]];
  }

  lemma {:induction false} ArrayRead(text: seq<byte>, start: nat, depth: nat, finite: seq<byte> -> bool)
    returns (t: Tree)
    requires start <= |text| && depth <= MAX_DEPTH && ValueAt(text, start, depth, finite).Ok?
    requires Is(text, SkipSpace(text, start), 0x5B)
    ensures
      var r := ValueAt(text, start, depth, finite);
      Stands(text, SkipSpace(text, start), r.at, t, r.value, depth, finite)
    decreases |text| - start, 0
  {
    hide *;
    ArrayOpened(text, start, depth, finite);
    var at := SkipSpace(text, start);
    var first := SkipSpace(text, at + 1);
    SpaceSkipped(text, at + 1);
    Inside(text, first, 0x5D);
    if Is(text, first, 0x5D) {
      t := EmptyArray(text[at + 1..first]);
      EmptyStands(text, at, first, t, depth, finite);
    } else {
      var items := ItemsRead(text, first, depth + 1, [], finite);
      t := FullArrayStands(text, at, first, ItemsFrom(text, first, depth + 1, [], finite).at, items, depth, finite);
    }
  }

  lemma Inside(text: seq<byte>, at: nat, b: byte)
    ensures Is(text, at, b) ==> at < |text| && text[at] == b
  {
  }

  lemma Empty<T>(s: seq<T>)
    ensures [] + s == s
  {
  }

  // The white space after the bracket belongs to the first item.
  lemma FullArrayStands(text: seq<byte>, at: nat, first: nat, end: nat, items: Items, depth: nat,
                        finite: seq<byte> -> bool)
    returns (t: Tree)
    requires at + 1 <= first <= end <= |text| && text[at] == 0x5B && Space(text[at + 1..first])
    requires depth < MAX_DEPTH && ItemsShown(text, first, end, items, depth + 1, finite)
    ensures GoodItems(items) && Stands(text, at, end, t, Array([] + Values(items)), depth, finite)
  {
    var blank := text[at + 1..first];
    var moved := items.(before := blank + items.before);
    SpaceMoved(items, blank);
    Empty(Values(items));
    hide Text, Good, Meaning, Values, ItemsText, Space, GoodItems, AllAdmitted;
    One(text, at, 0x5B);
    Joined(text, at, at + 1, end);
    Joined(text, at + 1, first, end);
    t := FullArray(moved);
    ArrayStands(text, at, end, moved, depth, finite);
  }

  lemma SpaceMoved(items: Items, blank: seq<byte>)
    requires GoodItems(items) && Space(blank)
    ensures
      var moved := items.(before := blank + items.before);
      GoodItems(moved) && Values(moved) == Values(items) && ItemsText(moved) == blank + ItemsText(items)
  {
    hide Text, Good, Meaning;
    var moved := items.(before := blank + items.before);
    assert GoodItems(moved);
    var rest := items.after + (if items.LastItem? then [0x5D] else [0x2C] + ItemsText(items.rest));
    assert (blank + items.before + Text(items.tree)) + rest == blank + ((items.before + Text(items.tree)) + rest);
  }

  lemma ArrayStands(text: seq<byte>, at: nat, end: nat, items: Items, depth: nat, finite: seq<byte> -> bool)
    requires at <= end <= |text| && depth < MAX_DEPTH && GoodItems(items)
    requires text[at..end] == [0x5B] + ItemsText(items) && AllAdmitted(Values(items), MAX_DEPTH - (depth + 1), finite)
    ensures Stands(text, at, end, FullArray(items), Array(Values(items)), depth, finite)
  {
    hide ItemsText, Values, GoodItems;
  }

  // What accepted items come to.
  lemma ItemsOpened(text: seq<byte>, at: nat, depth: nat, read: seq<Value>, finite: seq<byte> -> bool)
    requires at <= |text| && ItemsFrom(text, at, depth, read, finite).Ok?
    ensures
      var item := ValueAt(text, at, depth, finite);
      && item.Ok?
      && var now, end := read + [item.value], SkipSpace(text, item.at);
         || (Is(text, end, 0x2C) && ItemsFrom(text, at, depth, read, finite)
           == ItemsFrom(text, end + 1, depth, now, finite))
         || (Is(text, end, 0x5D) && ItemsFrom(text, at, depth, read, finite) == Ok(Array(now), end + 1))
  {
    hide ValueAt, SkipSpace;
  }

  // Accepted items: what they are, up to and with the closing bracket.
  ghost predicate ItemsShown(text: seq<byte>, at: nat, end: nat, items: Items, depth: nat, finite: seq<byte> -> bool) {
    && at <= end <= |text| && GoodItems(items) && text[at..end] == ItemsText(items)
    && depth <= MAX_DEPTH && AllAdmitted(Values(items), MAX_DEPTH - depth, finite)
  }

  lemma LastShown(text: seq<byte>, at: nat, q: nat, end: nat, before: seq<byte>, t: Tree, v: Value, depth: nat,
                  finite: seq<byte> -> bool)
    requires Shown(text, at, q, before, t, v, depth, finite) && q <= end < |text|
    requires Space(text[q..end]) && text[end] == 0x5D
    ensures
      var items := LastItem(before, t, text[q..end]);
      ItemsShown(text, at, end + 1, items, depth, finite) && GoodItems(items) && Values(items) == [v]
  {
    hide Text, Good, Meaning, Admitted, Space;
    One(text, end, 0x5D);
    Joined(text, q, end, end + 1);
    Joined(text, at, q, end + 1);
  }

  lemma MoreShown(text: seq<byte>, at: nat, q: nat, comma: nat, end: nat, before: seq<byte>, t: Tree, rest: Items,
                  v: Value, depth: nat, finite: seq<byte> -> bool)
    requires Shown(text, at, q, before, t, v, depth, finite) && q <= comma < |text|
    requires Space(text[q..comma]) && text[comma] == 0x2C
    requires ItemsShown(text, comma + 1, end, rest, depth, finite)
    ensures
      var items := MoreItems(before, t, text[q..comma], rest);
      && ItemsShown(text, at, end, items, depth, finite)
      && GoodItems(rest) && GoodItems(items) && Values(items) == [v] + Values(rest)
  {
    hide Text, Good, Meaning, Admitted, Space;
    var items := MoreItems(before, t, text[q..comma], rest);
    assert GoodItems(items);
    SeparatedText(text, at, q, comma, end);
    assert ItemsText(items) == (before + Text(t)) + (text[q..comma] + ([0x2C] + ItemsText(rest)));
    assert AllAdmitted([v] + Values(rest), MAX_DEPTH - depth, finite);
  }

  lemma {:induction false} ItemsRead(text: seq<byte>, at: nat, depth: nat, read: seq<Value>, finite: seq<byte> -> bool)
    returns (items: Items)
    requires at <= |text| && depth <= MAX_DEPTH && ItemsFrom(text, at, depth, read, finite).Ok?
    ensures
      var r := ItemsFrom(text, at, depth, read, finite);
      ItemsShown(text, at, r.at, items, depth, finite) && GoodItems(items) && r.value == Array(read + Values(items))
    decreases |text| - at, 2
  {
    hide *;
    ItemsOpened(text, at, depth, read, finite);
    var item := ValueAt(text, at, depth, finite);
    var end, now := SkipSpace(text, item.at), read + [item.value];
    var before, t := ValueRead(text, at, depth, finite);
    SpaceSkipped(text, item.at);
    Inside(text, end, 0x2C);
    Inside(text, end, 0x5D);
    if Is(text, end, 0x2C) && ItemsFrom(text, at, depth, read, finite) == ItemsFrom(text, end + 1, depth, now, finite) {
      var rest := ItemsRead(text, end + 1, depth, now, finite);
      MoreShown(text, at, item.at, end, ItemsFrom(text, at, depth, read, finite).at, before, t, rest, item.value, depth,
        finite);
      items := MoreItems(before, t, text[item.at..end], rest);
      assert read + ([item.value] + Values(rest)) == now + Values(rest);
    } else {
      LastShown(text, at, item.at, end, before, t, item.value, depth, finite);
      items := LastItem(before, t, text[item.at..end]);
    }
  }

  // ----- Objects -----

  lemma ObjectOpened(text: seq<byte>, start: nat, depth: nat, finite: seq<byte> -> bool)
    requires start <= |text| && ValueAt(text, start, depth, finite).Ok? && Is(text, SkipSpace(text, start), 0x7B)
    ensures depth < MAX_DEPTH && SkipSpace(text, start) < |text| && text[SkipSpace(text, start)] == 0x7B
    ensures
      var first := SkipSpace(text, SkipSpace(text, start) + 1);
      ValueAt(text, start, depth, finite) ==
      if Is(text, first, 0x7D) then Ok(Object([]), first + 1) else MembersFrom(text, first, depth + 1, [], finite)
  {
    hide SkipSpace, StringAt, NumberAt, ItemsFrom, MembersFrom;
  }

  lemma {:induction false} ObjectRead(text: seq<byte>, start: nat, depth: nat, finite: seq<byte> -> bool)
    returns (t: Tree)
    requires start <= |text| && depth <= MAX_DEPTH && ValueAt(text, start, depth, finite).Ok?
    requires Is(text, SkipSpace(text, start), 0x7B)
    ensures
      var r := ValueAt(text, start, depth, finite);
      Stands(text, SkipSpace(text, start), r.at, t, r.value, depth, finite)
    decreases |text| - start, 0
  {
    hide *;
    ObjectOpened(text, start, depth, finite);
    var at := SkipSpace(text, start);
    var first := SkipSpace(text, at + 1);
    SpaceSkipped(text, at + 1);
    Inside(text, first, 0x7D);
    if Is(text, first, 0x7D) {
      t := EmptyObject(text[at + 1..first]);
      EmptyStands(text, at, first, t, depth, finite);
    } else {
      NoKeys();
      var ms := MembersRead(text, first, depth + 1, [], finite);
      t := FullObjectStands(text, at, first, MembersFrom(text, first, depth + 1, [], finite).at, ms, depth, finite);
    }
  }

  lemma NoKeys()
    ensures DistinctKeys([])
  {
  }

  lemma FullObjectStands(text: seq<byte>, at: nat, first: nat, end: nat, ms: Members, depth: nat,
                         finite: seq<byte> -> bool)
    returns (t: Tree)
    requires at + 1 <= first <= end <= |text| && text[at] == 0x7B && Space(text[at + 1..first])
    requires depth < MAX_DEPTH && MembersShown(text, first, end, ms, depth + 1, finite)
    requires GoodMembers(ms) && DistinctKeys([] + Pairs(ms))
    ensures Stands(text, at, end, t, Object([] + Pairs(ms)), depth, finite)
  {
    var blank := text[at + 1..first];
    var moved := ms.(head := blank + ms.head);
    HeadMoved(ms, blank);
    Empty(Pairs(ms));
    hide Text, Good, Meaning, Pairs, MembersText, Space, GoodMembers, DistinctKeys, PairsAdmitted;
    One(text, at, 0x7B);
    Joined(text, at, at + 1, end);
    Joined(text, at + 1, first, end);
    t := FullObject(moved);
    ObjectStands(text, at, end, moved, depth, finite);
  }

  lemma HeadMoved(ms: Members, blank: seq<byte>)
    requires GoodMembers(ms) && Space(blank)
    ensures
      var moved := ms.(head := blank + ms.head);
      GoodMembers(moved) && Pairs(moved) == Pairs(ms) && MembersText(moved) == blank + MembersText(ms)
  {
    hide Text, Good, Quoted, GoodChars, CharsBytes, Meaning;
    var moved := ms.(head := blank + ms.head);
    assert GoodMembers(moved);
    assert Pairs(moved) == Pairs(ms);
    assert MemberText(moved) == blank + MemberText(ms);
    hide MemberText;
    var rest := ms.after + (if ms.LastMember? then [0x7D] else [0x2C] + MembersText(ms.rest));
    assert (blank + MemberText(ms)) + rest == blank + (MemberText(ms) + rest);
  }

  lemma ObjectStands(text: seq<byte>, at: nat, end: nat, ms: Members, depth: nat, finite: seq<byte> -> bool)
    requires at <= end <= |text| && depth < MAX_DEPTH && GoodMembers(ms) && text[at..end] == [0x7B] + MembersText(ms)
    requires PairsAdmitted(Pairs(ms), MAX_DEPTH - (depth + 1), finite) && DistinctKeys(Pairs(ms))
    ensures Stands(text, at, end, FullObject(ms), Object(Pairs(ms)), depth, finite)
  {
    hide MembersText, Pairs, GoodMembers, DistinctKeys;
  }

  // What an accepted member comes to.
  lemma MemberOpened(text: seq<byte>, at: nat, depth: nat, read: seq<Member>, finite: seq<byte> -> bool)
    requires at <= |text| && MemberAt(text, at, depth, read, finite).Ok?
    ensures
      var key := StringAt(text, SkipSpace(text, at));
      && key.Ok? && !HasKey(read, key.value) && Is(text, SkipSpace(text, key.at), 0x3A)
      && SkipSpace(text, key.at) < |text| && text[SkipSpace(text, key.at)] == 0x3A
      && var item := ValueAt(text, SkipSpace(text, key.at) + 1, depth, finite);
         item.Ok? && MemberAt(text, at, depth, read, finite) == Ok(Member(key.value, item.value), item.at)
  {
    hide ValueAt, StringAt, SkipSpace, HasKey;
  }

  // An accepted member, as a one-member list with nothing after the value.
  ghost predicate MemberShown(text: seq<byte>, at: nat, end: nat, ms: Members, m: Member, depth: nat,
                              finite: seq<byte> -> bool) {
    && at <= end <= |text| && GoodMembers(ms) && ms.LastMember? && text[at..end] == MemberText(ms)
    && m == Member(CharsBytes(ms.key), Meaning(ms.tree))
    && depth <= MAX_DEPTH && Admitted(m.value, MAX_DEPTH - depth, finite)
  }

  lemma {:induction false} MemberRead(text: seq<byte>, at: nat, depth: nat, read: seq<Member>,
                                      finite: seq<byte> -> bool)
    returns (ms: Members)
    requires at <= |text| && depth <= MAX_DEPTH && MemberAt(text, at, depth, read, finite).Ok?
    ensures
      var r := MemberAt(text, at, depth, read, finite);
      MemberShown(text, at, r.at, ms, r.value, depth, finite) && !HasKey(read, r.value.key)
    decreases |text| - at, 2
  {
    hide *;
    MemberOpened(text, at, depth, read, finite);
    var p := SkipSpace(text, at);
    var key := StringAt(text, p);
    var colon := SkipSpace(text, key.at);
    SpaceSkipped(text, at);
    SpaceSkipped(text, key.at);
    var chars := StringRead(text, p);
    var before, t := ValueRead(text, colon + 1, depth, finite);
    ms := MemberJoin(text, at, p, key.at, colon, ValueAt(text, colon + 1, depth, finite).at, chars, before, t,
                     ValueAt(text, colon + 1, depth, finite).value, depth, finite);
  }

  lemma MemberJoin(text: seq<byte>, at: nat, p: nat, q: nat, colon: nat, end: nat, chars: seq<Char>, before: seq<byte>,
                   t: Tree, v: Value, depth: nat, finite: seq<byte> -> bool) returns (ms: Members)
    requires at <= p <= q <= colon < |text| && text[colon] == 0x3A
    requires Space(text[at..p]) && Space(text[q..colon]) && GoodChars(chars) && text[p..q] == Quoted(chars)
    requires Shown(text, colon + 1, end, before, t, v, depth, finite)
    ensures MemberShown(text, at, end, ms, Member(CharsBytes(chars), v), depth, finite)
  {
    hide Text, Good, Meaning, Admitted, Quoted, CharsBytes, GoodChars, Space;
    NoSpace();
    ms := LastMember(text[at..p], chars, text[q..colon], before, t, []);
    MemberPieces(text, at, p, q, colon, end);
  }

  lemma MemberPieces(text: seq<byte>, at: nat, p: nat, q: nat, colon: nat, end: nat)
    requires at <= p <= q <= colon < end <= |text| && text[colon] == 0x3A
    ensures text[at..end] == text[at..p] + (text[p..q] + (text[q..colon] + ([0x3A] + text[colon + 1..end])))
  {
    One(text, colon, 0x3A);
    Joined(text, colon, colon + 1, end);
    Joined(text, q, colon, end);
    Joined(text, p, q, end);
    Joined(text, at, p, end);
  }

  lemma NoSpace()
    ensures Space([])
  {
  }

  lemma MembersOpened(text: seq<byte>, at: nat, depth: nat, read: seq<Member>, finite: seq<byte> -> bool)
    requires at <= |text| && MembersFrom(text, at, depth, read, finite).Ok?
    ensures
      var member := MemberAt(text, at, depth, read, finite);
      && member.Ok?
      && var now, end := read + [member.value], SkipSpace(text, member.at);
         || (Is(text, end, 0x2C) && MembersFrom(text, at, depth, read, finite)
           == MembersFrom(text, end + 1, depth, now, finite))
         || (Is(text, end, 0x7D) && MembersFrom(text, at, depth, read, finite) == Ok(Object(now), end + 1))
  {
    hide MemberAt, SkipSpace;
  }

  ghost predicate MembersShown(text: seq<byte>, at: nat, end: nat, ms: Members, depth: nat, finite: seq<byte> -> bool) {
    && at <= end <= |text| && GoodMembers(ms) && text[at..end] == MembersText(ms)
    && depth <= MAX_DEPTH && PairsAdmitted(Pairs(ms), MAX_DEPTH - depth, finite)
  }

  lemma LastMemberShown(text: seq<byte>, at: nat, q: nat, end: nat, ms: Members, m: Member, depth: nat,
                        finite: seq<byte> -> bool)
    returns (last: Members)
    requires MemberShown(text, at, q, ms, m, depth, finite) && q <= end < |text|
    requires Space(text[q..end]) && text[end] == 0x7D
    ensures MembersShown(text, at, end + 1, last, depth, finite) && GoodMembers(last) && Pairs(last) == [m]
  {
    hide Text, Good, Meaning, Admitted, Space, Quoted, GoodChars, CharsBytes;
    last := LastMember(ms.head, ms.key, ms.colon, ms.before, ms.tree, text[q..end]);
    assert MemberText(last) == MemberText(ms);
    One(text, end, 0x7D);
    Joined(text, q, end, end + 1);
    Joined(text, at, q, end + 1);
  }

  lemma MoreMembersShown(text: seq<byte>, at: nat, q: nat, comma: nat, end: nat, ms: Members, rest: Members, m: Member,
                         depth: nat, finite: seq<byte> -> bool) returns (all: Members)
    requires MemberShown(text, at, q, ms, m, depth, finite) && q <= comma < |text|
    requires Space(text[q..comma]) && text[comma] == 0x2C
    requires MembersShown(text, comma + 1, end, rest, depth, finite)
    ensures MembersShown(text, at, end, all, depth, finite)
    ensures GoodMembers(rest) && GoodMembers(all) && Pairs(all) == [m] + Pairs(rest)
  {
    all := MoreMembers(ms.head, ms.key, ms.colon, ms.before, ms.tree, text[q..comma], rest);
    MoreMembersParts(ms, text[q..comma], rest);
    hide Text, Good, Meaning, Admitted, Space, Quoted, GoodChars, CharsBytes, GoodMembers, MemberText, MembersText,
      Pairs;
    SeparatedText(text, at, q, comma, end);
    assert PairsAdmitted([m] + Pairs(rest), MAX_DEPTH - depth, finite);
  }

  lemma SeparatedText(text: seq<byte>, at: nat, q: nat, comma: nat, end: nat)
    requires at <= q <= comma < end <= |text| && text[comma] == 0x2C
    ensures text[at..end] == text[at..q] + (text[q..comma] + ([0x2C] + text[comma + 1..end]))
  {
    One(text, comma, 0x2C);
    Joined(text, comma, comma + 1, end);
    Joined(text, q, comma, end);
    Joined(text, at, q, end);
  }

  lemma MoreMembersParts(ms: Members, after: seq<byte>, rest: Members)
    requires GoodMembers(ms) && Space(after) && GoodMembers(rest)
    ensures
      var all := MoreMembers(ms.head, ms.key, ms.colon, ms.before, ms.tree, after, rest);
      && GoodMembers(all) && MembersText(all) == MemberText(ms) + (after + ([0x2C] + MembersText(rest)))
      && GoodChars(ms.key) && Good(ms.tree)
      && Pairs(all) == [Member(CharsBytes(ms.key), Meaning(ms.tree))] + Pairs(rest)
  {
    hide Text, Good, Meaning, Space, Quoted, GoodChars, CharsBytes;
    var all := MoreMembers(ms.head, ms.key, ms.colon, ms.before, ms.tree, after, rest);
    assert GoodMembers(all);
    assert MemberText(all) == MemberText(ms);
  }

  lemma KeyAdded(read: seq<Member>, m: Member)
    requires DistinctKeys(read) && !HasKey(read, m.key)
    ensures DistinctKeys(read + [m])
  {
    var now := read + [m];
    assert forall i :: 0 <= i < |read| ==> now[i] == read[i];
  }

  lemma {:induction false} MembersRead(text: seq<byte>, at: nat, depth: nat, read: seq<Member>,
                                       finite: seq<byte> -> bool)
    returns (ms: Members)
    requires at <= |text| && depth <= MAX_DEPTH && MembersFrom(text, at, depth, read, finite).Ok? && DistinctKeys(read)
    ensures
      var r := MembersFrom(text, at, depth, read, finite);
      && MembersShown(text, at, r.at, ms, depth, finite) && GoodMembers(ms)
      && r.value == Object(read + Pairs(ms)) && DistinctKeys(read + Pairs(ms))
    decreases |text| - at, 3
  {
    hide *;
    MembersOpened(text, at, depth, read, finite);
    var member := MemberAt(text, at, depth, read, finite);
    var end, now := SkipSpace(text, member.at), read + [member.value];
    var one := MemberRead(text, at, depth, read, finite);
    KeyAdded(read, member.value);
    SpaceSkipped(text, member.at);
    Inside(text, end, 0x2C);
    Inside(text, end, 0x7D);
    if Is(text, end, 0x2C) && MembersFrom(text, at, depth, read, finite)
      == MembersFrom(text, end + 1, depth, now, finite) {
      var rest := MembersRead(text, end + 1, depth, now, finite);
      ms := MoreMembersShown(text, at, member.at, end, MembersFrom(text, at, depth, read, finite).at, one, rest,
        member.value, depth, finite);
      assert read + ([member.value] + Pairs(rest)) == now + Pairs(rest);
    } else {
      ms := LastMemberShown(text, at, member.at, end, one, member.value, depth, finite);
    }
  }

  // ----- Documents -----

  // An accepted document renders the value returned, and that value is admitted.
  lemma ParseSound(document: seq<byte>, finite: seq<byte> -> bool)
    returns (before: seq<byte>, t: Tree, after: seq<byte>)
    requires Parse(document, finite).Some?
    ensures Renders(document, before, t, after)
    ensures Meaning(t) == Parse(document, finite).value && Admitted(Meaning(t), MAX_DEPTH, finite)
  {
    var text := if Word(document, 0, BYTE_ORDER_MARK) then document[3..] else document;
    var r := ValueAt(text, 0, 0, finite);
    hide ValueAt, SkipSpace, Text, Admitted, Meaning, Good, Space;
    before, t := ValueRead(text, 0, 0, finite);
    SpaceSkipped(text, r.at);
    after := text[r.at..];
    Joined(text, 0, r.at, |text|);
    assert text[0..|text|] == text && text[r.at..|text|] == after;
    if Word(document, 0, BYTE_ORDER_MARK) {
      assert document == document[0..3] + document[3..];
    }
  }
}
