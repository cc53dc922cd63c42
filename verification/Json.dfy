/** JSON values, and the reader as a function of the text and a position in it. */
module Json {
  import opened Common
  import opened Bits
  import opened Utf8

  datatype Value =
    | Null
    | Bool(b: bool)
    | Number(token: seq<byte>)
    | String(text: seq<byte>)
    | Array(items: seq<Value>)
    | Object(members: seq<Member>)

  datatype Member = Member(key: seq<byte>, value: Value)

  const MAX_DEPTH: nat := 32

  // What the reader admits: containers nested at most `depth` deep, distinct keys in every object
  // and no number out of range. Whether a token's double is finite is a parameter.
  predicate Admitted(v: Value, depth: nat, finite: seq<byte> -> bool) {
    match v
    case Number(token) => finite(token)
    case Array(items) =>
      depth > 0 && forall i :: 0 <= i < |items| ==> Admitted(items[i], depth - 1, finite)
    case Object(members) =>
      && depth > 0 && DistinctKeys(members)
      && forall i :: 0 <= i < |members| ==> Admitted(members[i].value, depth - 1, finite)
    case _ => true
  }

  predicate HasKey(members: seq<Member>, key: seq<byte>) {
    exists i :: 0 <= i < |members| && members[i].key == key
  }

  predicate DistinctKeys(members: seq<Member>) {
    forall i, j :: 0 <= i < j < |members| ==> members[i].key != members[j].key
  }

  datatype Parsed<+T> = Fail | Ok(value: T, at: nat)

  // ----- Tokens -----

  predicate IsSpace(b: byte) {
    b == 0x20 || b == 0x09 || b == 0x0D || b == 0x0A
  }

  predicate IsDigit(b: byte) {
    0x30 <= b <= 0x39
  }

  function SkipSpace(text: seq<byte>, at: nat): (r: nat)
    requires at <= |text|
    ensures at <= r <= |text|
    decreases |text| - at
  {
    if at < |text| && IsSpace(text[at]) then SkipSpace(text, at + 1) else at
  }

  lemma {:induction false} SkipSpaceTwice(text: seq<byte>, at: nat)
    requires at <= |text|
    ensures SkipSpace(text, SkipSpace(text, at)) == SkipSpace(text, at)
    ensures SkipSpace(text, at) < |text| ==> !IsSpace(text[SkipSpace(text, at)])
    decreases |text| - at
  {
    if at < |text| && IsSpace(text[at]) {
      SkipSpaceTwice(text, at + 1);
    }
  }

  function SkipDigits(text: seq<byte>, at: nat): (r: nat)
    requires at <= |text|
    ensures at <= r <= |text|
    decreases |text| - at
  {
    if at < |text| && IsDigit(text[at]) then SkipDigits(text, at + 1) else at
  }

  // `word` stands at `at`.
  predicate Word(text: seq<byte>, at: nat, word: seq<byte>) {
    at + |word| <= |text| && text[at..at + |word|] == word
  }

  const TRUE_WORD: seq<byte> := [0x74, 0x72, 0x75, 0x65]
  const FALSE_WORD: seq<byte> := [0x66, 0x61, 0x6C, 0x73, 0x65]
  const NULL_WORD: seq<byte> := [0x6E, 0x75, 0x6C, 0x6C]

  function HexDigit(b: byte): (r: Option<nat>)
    ensures r.Some? ==> r.value < 16
  {
    if 0x30 <= b <= 0x39 then Some(b - 0x30)
    else if 0x61 <= b <= 0x66 then Some(b - 0x61 + 10)
    else if 0x41 <= b <= 0x46 then Some(b - 0x41 + 10)
    else None
  }

  // What `left` digits of four leave room for.
  function Room(left: nat): nat {
    if left == 4 then 1 else if left == 3 then 0x10 else if left == 2 then 0x100 else if left == 1 then 0x1000
      else 0x10000
  }

  // Exactly `left` hexadecimal digits more.
  function Hex(text: seq<byte>, at: nat, left: nat, value: nat): (r: Parsed<nat>)
    requires at <= |text| && left <= 4 && value < Room(left)
    ensures r.Ok? ==> r.at == at + left && r.at <= |text| && r.value < 0x10000
    decreases left
  {
    if left == 0 then Ok(value, at)
    else if at >= |text| || HexDigit(text[at]).None? then Fail
    else Hex(text, at + 1, left - 1, value * 16 + HexDigit(text[at]).value)
  }

  // ----- Strings -----

  // What a one-letter escape stands for.
  function Short(e: byte): Option<byte> {
    if e == 0x22 || e == 0x5C || e == 0x2F then Some(e)
    else if e == 0x62 then Some(0x08)
    else if e == 0x66 then Some(0x0C)
    else if e == 0x6E then Some(0x0A)
    else if e == 0x72 then Some(0x0D)
    else if e == 0x74 then Some(0x09)
    else None
  }

  // The bytes of the escape after a backslash.
  function Escape(text: seq<byte>, at: nat): (r: Parsed<seq<byte>>)
    requires at <= |text|
    ensures r.Ok? ==> at < r.at <= |text|
  {
    if at >= |text| then Fail
    else if Short(text[at]).Some? then Ok([Short(text[at]).value], at + 1)
    else if text[at] != 0x75 then Fail
    else
      var first := Hex(text, at + 1, 4, 0);
      if first.Fail? then Fail
      else if 0xD800 <= first.value <= 0xDBFF then
        if !Word(text, first.at, [0x5C, 0x75]) then Fail
        else
          var second := Hex(text, first.at + 2, 4, 0);
          if second.Fail? || second.value < 0xDC00 || second.value > 0xDFFF then Fail
          else Ok(Encode(0x10000 + (first.value - 0xD800) * 0x400 + (second.value - 0xDC00)), second.at)
      else if 0xDC00 <= first.value <= 0xDFFF then Fail
      else Ok(Encode(first.value), first.at)
  }

  // A string after its opening quote, with the bytes read so far.
  function StringFrom(text: seq<byte>, at: nat, out: seq<byte>): (r: Parsed<seq<byte>>)
    requires at <= |text|
    ensures r.Ok? ==> at < r.at <= |text|
    decreases |text| - at
  {
    if at >= |text| then Fail
    else if text[at] == 0x22 then if WellFormed(out) then Ok(out, at + 1) else Fail
    else if text[at] < 0x20 then Fail
    else if text[at] != 0x5C then StringFrom(text, at + 1, out + [text[at]])
    else
      var escape := Escape(text, at + 1);
      if escape.Fail? then Fail else StringFrom(text, escape.at, out + escape.value)
  }

  function StringAt(text: seq<byte>, at: nat): (r: Parsed<seq<byte>>)
    requires at <= |text|
    ensures r.Ok? ==> at < r.at <= |text|
  {
    if at >= |text| || text[at] != 0x22 then Fail else StringFrom(text, at + 1, [])
  }

  // ----- Numbers -----

  predicate Is(text: seq<byte>, at: nat, b: byte) {
    at < |text| && text[at] == b
  }

  function WholeEnd(text: seq<byte>, at: nat): (r: Option<nat>)
    requires at <= |text|
    ensures r.Some? ==> at < r.value <= |text|
  {
    if Is(text, at, 0x30) then Some(at + 1)
    else if SkipDigits(text, at) == at then None
    else Some(SkipDigits(text, at))
  }

  function FractionEnd(text: seq<byte>, at: nat): (r: Option<nat>)
    requires at <= |text|
    ensures r.Some? ==> at <= r.value <= |text|
  {
    if !Is(text, at, 0x2E) then Some(at)
    else if SkipDigits(text, at + 1) == at + 1 then None
    else Some(SkipDigits(text, at + 1))
  }

  function ExponentEnd(text: seq<byte>, at: nat): (r: Option<nat>)
    requires at <= |text|
    ensures r.Some? ==> at <= r.value <= |text|
  {
    if !Is(text, at, 0x65) && !Is(text, at, 0x45) then Some(at)
    else
      var start := if Is(text, at + 1, 0x2B) || Is(text, at + 1, 0x2D) then at + 2 else at + 1;
      if SkipDigits(text, start) == start then None else Some(SkipDigits(text, start))
  }

  function NumberAt(text: seq<byte>, at: nat, finite: seq<byte> -> bool): (r: Parsed<Value>)
    requires at <= |text|
    ensures r.Ok? ==> at < r.at <= |text|
  {
    var whole := WholeEnd(text, if Is(text, at, 0x2D) then at + 1 else at);
    if whole.None? then Fail
    else
      var fraction := FractionEnd(text, whole.value);
      if fraction.None? then Fail
      else
        var end := ExponentEnd(text, fraction.value);
        if end.None? || !finite(text[at..end.value]) then Fail
        else Ok(Number(text[at..end.value]), end.value)
  }

  // ----- Values -----

  // A value, with `depth` containers open around it.
  function ValueAt(text: seq<byte>, start: nat, depth: nat, finite: seq<byte> -> bool): (r: Parsed<Value>)
    requires start <= |text|
    ensures r.Ok? ==> start < r.at <= |text|
    decreases |text| - start, 0
  {
    var at := SkipSpace(text, start);
    if at >= |text| then Fail
    else if text[at] == 0x7B then
      if depth >= MAX_DEPTH then Fail
      else
        var first := SkipSpace(text, at + 1);
        if Is(text, first, 0x7D) then Ok(Object([]), first + 1)
        else MembersFrom(text, first, depth + 1, [], finite)
    else if text[at] == 0x5B then
      if depth >= MAX_DEPTH then Fail
      else
        var first := SkipSpace(text, at + 1);
        if Is(text, first, 0x5D) then Ok(Array([]), first + 1)
        else ItemsFrom(text, first, depth + 1, [], finite)
    else if text[at] == 0x22 then
      var s := StringAt(text, at);
      if s.Fail? then Fail else Ok(String(s.value), s.at)
    else if Word(text, at, TRUE_WORD) then Ok(Bool(true), at + 4)
    else if Word(text, at, FALSE_WORD) then Ok(Bool(false), at + 5)
    else if Word(text, at, NULL_WORD) then Ok(Null, at + 4)
    else NumberAt(text, at, finite)
  }

  // The items from `at` on, after those already read.
  function ItemsFrom(text: seq<byte>, at: nat, depth: nat, items: seq<Value>,
                     finite: seq<byte> -> bool): (r: Parsed<Value>)
    requires at <= |text|
    ensures r.Ok? ==> at < r.at <= |text|
    decreases |text| - at, 1
  {
    var item := ValueAt(text, at, depth, finite);
    if item.Fail? then Fail
    else
      var end := SkipSpace(text, item.at);
      if Is(text, end, 0x2C) then ItemsFrom(text, end + 1, depth, items + [item.value], finite)
      else if Is(text, end, 0x5D) then Ok(Array(items + [item.value]), end + 1)
      else Fail
  }

  // One member: its key, a colon and its value.
  function MemberAt(text: seq<byte>, start: nat, depth: nat, members: seq<Member>,
                    finite: seq<byte> -> bool): (r: Parsed<Member>)
    requires start <= |text|
    ensures r.Ok? ==> start < r.at <= |text|
    decreases |text| - start, 1
  {
    var key := StringAt(text, SkipSpace(text, start));
    if key.Fail? || HasKey(members, key.value) then Fail
    else
      var colon := SkipSpace(text, key.at);
      if !Is(text, colon, 0x3A) then Fail
      else
        var item := ValueAt(text, colon + 1, depth, finite);
        if item.Fail? then Fail else Ok(Member(key.value, item.value), item.at)
  }

  function MembersFrom(text: seq<byte>, at: nat, depth: nat, members: seq<Member>,
                       finite: seq<byte> -> bool): (r: Parsed<Value>)
    requires at <= |text|
    ensures r.Ok? ==> at < r.at <= |text|
    decreases |text| - at, 2
  {
    var member := MemberAt(text, at, depth, members, finite);
    if member.Fail? then Fail
    else
      var end := SkipSpace(text, member.at);
      if Is(text, end, 0x2C) then MembersFrom(text, end + 1, depth, members + [member.value], finite)
      else if Is(text, end, 0x7D) then Ok(Object(members + [member.value]), end + 1)
      else Fail
  }

  const BYTE_ORDER_MARK: seq<byte> := [0xEF, 0xBB, 0xBF]

  // A whole document; a byte-order mark is skipped.
  function Parse(document: seq<byte>, finite: seq<byte> -> bool): Option<Value> {
    var text := if Word(document, 0, BYTE_ORDER_MARK) then document[3..] else document;
    var r := ValueAt(text, 0, 0, finite);
    if r.Ok? && SkipSpace(text, r.at) == |text| then Some(r.value) else None
  }
}
