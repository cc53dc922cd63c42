/** The grammar of RFC 8259: syntax trees, the text each stands for and the value it denotes. It shares
    no table and no test of characters with the reader. */
module JsonGrammar {
  import opened Common
  import opened Bits
  import opened Utf8
  import opened Json

  // ----- Strings (section 7) -----

  datatype Char =
    | Plain(cp: nat)                              // unescaped, in UTF-8
    | Letter(e: byte, cp: nat)                    // \n and the like, with the code point it denotes
    | Unit(hex: seq<byte>)                        // \uXXXX
    | Pair(high: seq<byte>, low: seq<byte>)       // a surrogate pair

  // The letters after a backslash and what they denote.
  const ESCAPES: seq<(byte, nat)> :=
    [(0x22, 0x22), (0x5C, 0x5C), (0x2F, 0x2F), (0x62, 0x08), (0x66, 0x0C), (0x6E, 0x0A), (0x72, 0x0D), (0x74, 0x09)]

  predicate IsNibble(b: byte) {
    0x30 <= b < 0x3A || 0x41 <= b < 0x47 || 0x61 <= b < 0x67
  }

  function Nibble(b: byte): (v: nat)
    requires IsNibble(b)
    ensures v < 16
  {
    var code: int := b;
    if code < 0x40 then code - 0x30 else if code < 0x60 then code - 0x37 else code - 0x57
  }

  predicate HexDigits(hex: seq<byte>) {
    |hex| == 4 && forall i :: 0 <= i < |hex| ==> IsNibble(hex[i])
  }

  function HexValue(hex: seq<byte>): (v: nat)
    requires HexDigits(hex)
    ensures v < 0x10000
  {
    Nibble(hex[0]) * 0x1000 + Nibble(hex[1]) * 0x100 + Nibble(hex[2]) * 0x10 + Nibble(hex[3])
  }

  predicate GoodChar(c: Char) {
    match c
    case Plain(cp) => Scalar(cp) && cp >= 0x20 && cp != 0x22 && cp != 0x5C
    case Letter(e, cp) => (e, cp) in ESCAPES
    case Unit(hex) => HexDigits(hex) && Scalar(HexValue(hex))
    case Pair(high, low) =>
      HexDigits(high) && HexDigits(low) && 0xD800 <= HexValue(high) <= 0xDBFF && 0xDC00 <= HexValue(low) <= 0xDFFF
  }

  // The code point a character denotes.
  function Code(c: Char): (cp: nat)
    requires GoodChar(c)
    ensures Scalar(cp)
  {
    match c
    case Plain(cp) => cp
    case Letter(_, cp) => cp
    case Unit(hex) => HexValue(hex)
    case Pair(high, low) => 0x10000 + (HexValue(high) - 0xD800) * 0x400 + (HexValue(low) - 0xDC00)
  }

  function CharText(c: Char): seq<byte>
    requires GoodChar(c)
  {
    match c
    case Plain(cp) => Encode(cp)
    case Letter(e, _) => [0x5C, e]
    case Unit(hex) => [0x5C, 0x75] + hex
    case Pair(high, low) => [0x5C, 0x75] + high + [0x5C, 0x75] + low
  }

  predicate GoodChars(chars: seq<Char>) {
    forall i :: 0 <= i < |chars| ==> GoodChar(chars[i])
  }

  function CharsText(chars: seq<Char>): seq<byte>
    requires GoodChars(chars)
  {
    if chars == [] then [] else CharText(chars[0]) + CharsText(chars[1..])
  }

  // The UTF-8 text of the denoted code points.
  function CharsBytes(chars: seq<Char>): seq<byte>
    requires GoodChars(chars)
  {
    if chars == [] then [] else Encode(Code(chars[0])) + CharsBytes(chars[1..])
  }

  function Quoted(chars: seq<Char>): seq<byte>
    requires GoodChars(chars)
  {
    [0x22] + CharsText(chars) + [0x22]
  }

  // ----- Numbers (section 6) -----

  datatype Num = Num(minus: bool, whole: seq<byte>, fraction: Option<seq<byte>>, exponent: Option<Exponent>)

  datatype Exponent = Exponent(mark: byte, sign: seq<byte>, digits: seq<byte>)

  predicate Digits(s: seq<byte>) {
    |s| > 0 && forall i :: 0 <= i < |s| ==> 0x30 <= s[i] < 0x3A
  }

  predicate GoodNum(n: Num) {
    && Digits(n.whole) && (n.whole[0] == 0x30 ==> |n.whole| == 1)
    && (n.fraction.Some? ==> Digits(n.fraction.value))
    && (n.exponent.Some? ==>
          var e := n.exponent.value;
          && (e.mark == 0x65 || e.mark == 0x45)
          && (e.sign == [] || e.sign == [0x2B] || e.sign == [0x2D])
          && Digits(e.digits))
  }

  function FractionText(f: Option<seq<byte>>): seq<byte> {
    if f.None? then [] else [0x2E] + f.value
  }

  function ExponentText(e: Option<Exponent>): seq<byte> {
    if e.None? then [] else [e.value.mark] + e.value.sign + e.value.digits
  }

  function NumText(n: Num): seq<byte> {
    (if n.minus then [0x2D] else []) + n.whole + FractionText(n.fraction) + ExponentText(n.exponent)
  }

  // ----- Values (sections 2 to 5) -----

  datatype Tree =
    | TNull
    | TTrue
    | TFalse
    | TNumber(n: Num)
    | TString(chars: seq<Char>)
    | EmptyArray(blank: seq<byte>)
    | FullArray(items: Items)
    | EmptyObject(blank: seq<byte>)
    | FullObject(members: Members)

  datatype Items =
    | LastItem(before: seq<byte>, tree: Tree, after: seq<byte>)
    | MoreItems(before: seq<byte>, tree: Tree, after: seq<byte>, rest: Items)

  datatype Members =
    | LastMember(head: seq<byte>, key: seq<Char>, colon: seq<byte>, before: seq<byte>, tree: Tree, after: seq<byte>)
    | MoreMembers(head: seq<byte>, key: seq<Char>, colon: seq<byte>, before: seq<byte>, tree: Tree, after: seq<byte>,
                  rest: Members)

  predicate Space(s: seq<byte>) {
    forall i :: 0 <= i < |s| ==> s[i] in {0x20, 0x09, 0x0A, 0x0D}
  }

  predicate Good(t: Tree) {
    match t
    case TNumber(n) => GoodNum(n)
    case TString(chars) => GoodChars(chars)
    case EmptyArray(blank) => Space(blank)
    case EmptyObject(blank) => Space(blank)
    case FullArray(items) => GoodItems(items)
    case FullObject(members) => GoodMembers(members)
    case _ => true
  }

  predicate GoodItems(items: Items) {
    && Space(items.before) && Good(items.tree) && Space(items.after)
    && (items.MoreItems? ==> GoodItems(items.rest))
  }

  predicate GoodMembers(ms: Members) {
    && Space(ms.head) && GoodChars(ms.key) && Space(ms.colon) && Space(ms.before) && Good(ms.tree) && Space(ms.after)
    && (ms.MoreMembers? ==> GoodMembers(ms.rest))
  }

  function Text(t: Tree): seq<byte>
    requires Good(t)
  {
    match t
    case TNull => [0x6E, 0x75, 0x6C, 0x6C]
    case TTrue => [0x74, 0x72, 0x75, 0x65]
    case TFalse => [0x66, 0x61, 0x6C, 0x73, 0x65]
    case TNumber(n) => NumText(n)
    case TString(chars) => Quoted(chars)
    case EmptyArray(blank) => [0x5B] + blank + [0x5D]
    case FullArray(items) => [0x5B] + ItemsText(items)
    case EmptyObject(blank) => [0x7B] + blank + [0x7D]
    case FullObject(members) => [0x7B] + MembersText(members)
  }

  // Items with their separators and the closing bracket.
  function ItemsText(items: Items): seq<byte>
    requires GoodItems(items)
  {
    (items.before + Text(items.tree))
      + (items.after + (if items.LastItem? then [0x5D] else [0x2C] + ItemsText(items.rest)))
  }

  // A member up to the white space after its value.
  function MemberText(ms: Members): seq<byte>
    requires GoodMembers(ms)
    decreases ms, 0
  {
    ms.head + (Quoted(ms.key) + (ms.colon + ([0x3A] + (ms.before + Text(ms.tree)))))
  }

  function MembersText(ms: Members): seq<byte>
    requires GoodMembers(ms)
    decreases ms, 1
  {
    MemberText(ms) + (ms.after + (if ms.LastMember? then [0x7D] else [0x2C] + MembersText(ms.rest)))
  }

  function Meaning(t: Tree): Value
    requires Good(t)
  {
    match t
    case TNull => Null
    case TTrue => Bool(true)
    case TFalse => Bool(false)
    case TNumber(n) => Number(NumText(n))
    case TString(chars) => String(CharsBytes(chars))
    case EmptyArray(_) => Array([])
    case FullArray(items) => Array(Values(items))
    case EmptyObject(_) => Object([])
    case FullObject(members) => Object(Pairs(members))
  }

  function Values(items: Items): seq<Value>
    requires GoodItems(items)
  {
    [Meaning(items.tree)] + (if items.LastItem? then [] else Values(items.rest))
  }

  function Pairs(ms: Members): seq<Member>
    requires GoodMembers(ms)
  {
    [Member(CharsBytes(ms.key), Meaning(ms.tree))] + (if ms.LastMember? then [] else Pairs(ms.rest))
  }

  // A document: a value between white space, possibly after a byte-order mark.
  ghost predicate Renders(document: seq<byte>, before: seq<byte>, t: Tree, after: seq<byte>) {
    && Space(before) && Good(t) && Space(after)
    && (document == before + Text(t) + after || document == [0xEF, 0xBB, 0xBF] + (before + Text(t) + after))
  }

  predicate AllAdmitted(values: seq<Value>, depth: nat, finite: seq<byte> -> bool) {
    forall i :: 0 <= i < |values| ==> Admitted(values[i], depth, finite)
  }

  predicate PairsAdmitted(members: seq<Member>, depth: nat, finite: seq<byte> -> bool) {
    forall i :: 0 <= i < |members| ==> Admitted(members[i].value, depth, finite)
  }
}
