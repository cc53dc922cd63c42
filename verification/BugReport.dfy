/** The bug report link: percent-encoded form fields in a URL of bounded length. */
module BugReport {
  import opened Common
  import opened Bits

  // A byte string.
  type Text = seq<byte>

  const PAGE: string := "https://github.com/rthoms334/taxi-cam/issues/new"
  const TEMPLATE: string := "bug_report.yml"
  const URL_LIMIT: nat := 7500
  const SAVED_NOTICE: string := "[Snapshot shortened; the full snapshot is in report-info.txt.]"
  const PLAIN_NOTICE: string := "[Snapshot shortened to fit the form.]"
  const HEX: string := "0123456789ABCDEF"

  // ----- Encoding, and RFC 3986 section 2.1 decoding -----

  predicate Unreserved(c: char) {
    'a' <= c <= 'z' || 'A' <= c <= 'Z' || '0' <= c <= '9' || c in "-_.~"
  }

  function EncodedByte(b: byte): string {
    if Unreserved(b as char) then [b as char] else ['%', HEX[b / 16], HEX[b % 16]]
  }

  function Encoded(s: Text): string {
    if s == [] then "" else Encoded(s[..|s| - 1]) + EncodedByte(s[|s| - 1])
  }

  method QueryValue(value: Text) returns (result: string)
    ensures result == Encoded(value)
  {
    result := "";
    for i := 0 to |value|
      invariant result == Encoded(value[..i])
    {
      var b := value[i];
      assert value[..i + 1][..i] == value[..i];
      if Unreserved(b as char) {
        result := result + [b as char];
      } else {
        result := result + ['%'];
        result := result + [HEX[b / 16]];
        result := result + [HEX[b % 16]];
      }
    }
    assert value[..|value|] == value;
  }

  function HexDigit(c: char): (d: Option<nat>)
    ensures d.Some? ==> d.value < 16
  {
    if '0' <= c <= '9' then Some(c as int - '0' as int)
    else if 'A' <= c <= 'F' then Some(c as int - 'A' as int + 10)
    else if 'a' <= c <= 'f' then Some(c as int - 'a' as int + 10)
    else None
  }

  function Prepended(b: byte, rest: Option<Text>): Option<Text> {
    if rest.None? then None else Some([b] + rest.value)
  }

  // A percent sign and two hexadecimal digits stand for a byte; any other character for itself.
  function Decoded(s: string): Option<Text> {
    if s == "" then Some([])
    else if s[0] != '%' then (if s[0] as int < 256 then Prepended(s[0] as int, Decoded(s[1..])) else None)
    else if |s| < 3 || HexDigit(s[1]).None? || HexDigit(s[2]).None? then None
    else Prepended(16 * HexDigit(s[1]).value + HexDigit(s[2]).value, Decoded(s[3..]))
  }

  lemma DecodesByte(b: byte, rest: string)
    ensures Decoded(EncodedByte(b) + rest) == Prepended(b, Decoded(rest))
  {
    var s := EncodedByte(b) + rest;
    if Unreserved(b as char) {
      assert s[1..] == rest;
    } else {
      HexRoundTrip(b / 16);
      HexRoundTrip(b % 16);
      assert s[3..] == rest;
    }
  }

  lemma HexRoundTrip(n: nat)
    requires n < 16
    ensures HexDigit(HEX[n]) == Some(n)
  {
  }

  // The text in front of what the rest decodes to.
  function InFront(head: Text, rest: Option<Text>): Option<Text> {
    if rest.None? then None else Some(head + rest.value)
  }

  lemma {:induction false} DecodesBefore(s: Text, rest: string)
    ensures Decoded(Encoded(s) + rest) == InFront(s, Decoded(rest))
  {
    if s == [] {
      assert Encoded(s) + rest == rest;
      assert Decoded(rest).Some? ==> s + Decoded(rest).value == Decoded(rest).value;
    } else {
      var before, b := s[..|s| - 1], s[|s| - 1];
      DecodesByte(b, rest);
      DecodesBefore(before, EncodedByte(b) + rest);
      Regroup(Encoded(before), EncodedByte(b), rest);
      assert Encoded(s) == Encoded(before) + EncodedByte(b);
      assert s == before + [b];
      var d := Decoded(rest);
      hide Decoded, EncodedByte, Encoded;
      Regroup(before, [b], if d.Some? then d.value else []);
    }
  }

  // Decoding inverts encoding.
  lemma DecodeInvertsEncode(s: Text)
    ensures Decoded(Encoded(s)) == Some(s)
  {
    DecodesBefore(s, "");
    assert Encoded(s) + "" == Encoded(s);
    assert s + [] == s;
  }

  lemma EncodedLast(s: Text, b: byte)
    ensures Encoded(s + [b]) == Encoded(s) + EncodedByte(b)
  {
    assert (s + [b])[..|s|] == s;
  }

  // Encoding distributes over concatenation.
  lemma {:induction false} EncodeDistributes(s: Text, t: Text)
    ensures Encoded(s + t) == Encoded(s) + Encoded(t)
  {
    if t == [] {
      assert s + t == s;
    } else {
      var before, b := t[..|t| - 1], t[|t| - 1];
      EncodeDistributes(s, before);
      EncodeDistributesLast(s, before, b);
      FrontAndLast(t);
      hide *;
    }
  }

  lemma FrontAndLast<T>(s: seq<T>)
    requires s != []
    ensures s == s[..|s| - 1] + [s[|s| - 1]]
  {
  }

  lemma EncodeDistributesLast(s: Text, before: Text, b: byte)
    requires Encoded(s + before) == Encoded(s) + Encoded(before)
    ensures Encoded(s + (before + [b])) == Encoded(s) + Encoded(before + [b])
  {
    EncodedLast(before, b);
    EncodedLast(s + before, b);
    Regroup(s, before, [b]);
    Regroup(Encoded(s), Encoded(before), EncodedByte(b));
    hide *;
  }

  lemma {:induction false} EncodedLength(s: Text)
    ensures |s| <= |Encoded(s)| <= 3 * |s|
  {
    if s != [] {
      EncodedLength(s[..|s| - 1]);
    }
  }

  // Neither a separator of a query nor anything else with a meaning in a URL but the percent sign.
  predicate Sealed(s: string) {
    forall i :: 0 <= i < |s| ==> Unreserved(s[i]) || s[i] == '%'
  }

  lemma {:induction false} EncodedSealed(s: Text)
    ensures Sealed(Encoded(s))
  {
    if s != [] {
      EncodedSealed(s[..|s| - 1]);
      hide Unreserved;
      assert Sealed(EncodedByte(s[|s| - 1])) by { ByteSealed(s[|s| - 1]); }
    }
  }

  lemma ByteSealed(b: byte)
    ensures Sealed(EncodedByte(b))
  {
    assert forall n :: 0 <= n < 16 ==> Unreserved(HEX[n]);
  }

  // The unreserved characters of RFC 3986 section 2.3 by their codes: ALPHA, DIGIT, "-", ".", "_", "~".
  predicate UnreservedCode(b: byte) {
    0x41 <= b <= 0x5A || 0x61 <= b <= 0x7A || 0x30 <= b <= 0x39 || b in {0x2D, 0x2E, 0x5F, 0x7E}
  }

  // They stand for themselves; any other byte is a percent sign and its two hexadecimal digits in upper case.
  lemma EncodedByteIs(b: byte)
    ensures UnreservedCode(b) ==> EncodedByte(b) == [b as char]
    ensures !UnreservedCode(b) ==>
      && |EncodedByte(b)| == 3 && EncodedByte(b)[0] == '%' && HexDigit(EncodedByte(b)[1]) == Some(b / 16)
      && HexDigit(EncodedByte(b)[2]) == Some(b % 16) && EncodedByte(b)[1] <= 'F' && EncodedByte(b)[2] <= 'F'
  {
  }

  // ----- Text for the form -----

  const NEWLINE: byte := 10
  const BLANK: byte := 32

  predicate Printable(b: byte) {
    32 <= b < 127
  }

  function Cleaned(b: byte, newlines: bool): Text {
    if b == NEWLINE && newlines then [NEWLINE]
    else if Printable(b) then [b]
    else if b != 13 && b != 0 then (if b == 9 || b == NEWLINE then [BLANK] else [63])
    else []
  }

  function CleanText(text: Text, newlines: bool): Text {
    if text == [] then [] else CleanText(text[..|text| - 1], newlines) + Cleaned(text[|text| - 1], newlines)
  }

  function Cut(s: Text, limit: nat): Text {
    if |s| <= limit then s else s[..limit]
  }

  function Trimmed(s: Text): Text {
    if s != [] && (s[|s| - 1] == BLANK || s[|s| - 1] == NEWLINE) then Trimmed(s[..|s| - 1]) else s
  }

  // What a form field shows of a text.
  function FieldText(text: Text, limit: nat, newlines: bool): Text {
    Trimmed(Cut(CleanText(text, newlines), limit))
  }

  method ReportText(text: Text, limit: nat, newlines: bool) returns (out: Text)
    ensures out == FieldText(text, limit, newlines)
  {
    out := [];
    var i := 0;
    while i < |text| && |out| < limit
      invariant i <= |text| && out == CleanText(text[..i], newlines) && |out| <= limit
    {
      var b := text[i];
      assert text[..i + 1][..i] == text[..i];
      if b == NEWLINE && newlines {
        out := out + [NEWLINE];
      } else if Printable(b) {
        out := out + [b];
      } else if b != 13 && b != 0 {
        out := out + (if b == 9 || b == NEWLINE then [BLANK] else [63]);
      }
      i := i + 1;
    }
    CleanGrows(text, i, newlines);
    assert text[..|text|] == text;
    assert out == Cut(CleanText(text, newlines), limit);
    hide CleanText, Cut;
    ghost var cut := out;
    while out != [] && (out[|out| - 1] == BLANK || out[|out| - 1] == NEWLINE)
      invariant Trimmed(out) == Trimmed(cut)
      decreases |out|
    {
      out := out[..|out| - 1];
    }
  }

  lemma {:induction false} CleanGrows(text: Text, i: nat, newlines: bool)
    requires i <= |text|
    ensures CleanText(text[..i], newlines) <= CleanText(text, newlines)
  {
    if i == |text| {
      assert text[..i] == text;
    } else {
      CleanGrows(text[..|text| - 1], i, newlines);
      assert text[..|text| - 1][..i] == text[..i];
    }
  }

  predicate Plain(s: Text, newlines: bool) {
    forall i :: 0 <= i < |s| ==> Printable(s[i]) || (newlines && s[i] == NEWLINE)
  }

  lemma {:induction false} CleanIsPlain(text: Text, newlines: bool)
    ensures Plain(CleanText(text, newlines), newlines)
  {
    if text != [] {
      CleanIsPlain(text[..|text| - 1], newlines);
    }
  }

  lemma {:induction false} TrimmedIsPrefix(s: Text)
    ensures Trimmed(s) <= s
    ensures Trimmed(s) != [] ==> Trimmed(s)[|Trimmed(s)| - 1] != BLANK && Trimmed(s)[|Trimmed(s)| - 1] != NEWLINE
    ensures forall i :: |Trimmed(s)| <= i < |s| ==> s[i] == BLANK || s[i] == NEWLINE
  {
    if s != [] && (s[|s| - 1] == BLANK || s[|s| - 1] == NEWLINE) {
      TrimmedIsPrefix(s[..|s| - 1]);
    }
  }

  // Bounded, printable, no blanks at the end.
  lemma FieldTextIsPlain(text: Text, limit: nat, newlines: bool)
    ensures
      var out := FieldText(text, limit, newlines);
      |out| <= limit && Plain(out, newlines) && (out != [] ==> out[|out| - 1] != BLANK && out[|out| - 1] != NEWLINE)
  {
    CleanIsPlain(text, newlines);
    TrimmedIsPrefix(Cut(CleanText(text, newlines), limit));
  }

  // What is shown of one byte: printable ASCII as it is, a line feed where lines are kept, a blank for a tab or
  // any other line feed, nothing for a carriage return or a NUL, a question mark for the rest.
  lemma CleanedByte(b: byte, newlines: bool)
    ensures
      CleanText([b], newlines) ==
        if ' ' as int <= b <= '~' as int then [b]
        else if b == '\n' as int then if newlines then [b] else [' ' as int]
        else if b == '\t' as int then [' ' as int]
        else if b == '\r' as int || b == 0 then []
        else ['?' as int]
  {
    assert [b][..0] == [];
  }

  lemma CleanLast(s: Text, b: byte, newlines: bool)
    ensures CleanText(s + [b], newlines) == CleanText(s, newlines) + Cleaned(b, newlines)
  {
    assert (s + [b])[..|s|] == s;
    hide Cleaned;
  }

  lemma {:induction false} CleanDistributes(s: Text, t: Text, newlines: bool)
    ensures CleanText(s + t, newlines) == CleanText(s, newlines) + CleanText(t, newlines)
  {
    if t == [] {
      assert s + t == s;
    } else {
      var before, b := t[..|t| - 1], t[|t| - 1];
      CleanDistributes(s, before, newlines);
      CleanLast(s + before, b, newlines);
      CleanLast(before, b, newlines);
      FrontAndLast(t);
      hide *;
      Regroup(s, before, [b]);
      Regroup(CleanText(s, newlines), CleanText(before, newlines), Cleaned(b, newlines));
    }
  }

  lemma {:induction false} PlainIsClean(s: Text, newlines: bool)
    requires Plain(s, newlines)
    ensures CleanText(s, newlines) == s
  {
    if s != [] {
      PlainIsClean(s[..|s| - 1], newlines);
      assert s == s[..|s| - 1] + [s[|s| - 1]];
    }
  }

  // Text that may be shown is shown unchanged.
  lemma FieldTextKeeps(s: Text, limit: nat, newlines: bool)
    requires Plain(s, newlines) && |s| <= limit && (s != [] ==> s[|s| - 1] != BLANK && s[|s| - 1] != NEWLINE)
    ensures FieldText(s, limit, newlines) == s
  {
    PlainIsClean(s, newlines);
  }

  // Of any text, what is shown is the clean text's first bytes, without the blanks and line feeds they end in.
  lemma FieldTextExactly(text: Text, limit: nat, newlines: bool)
    ensures
      var clean, out := CleanText(text, newlines), FieldText(text, limit, newlines);
      && out <= clean && |out| <= limit && (out != [] ==> out[|out| - 1] != 0x20 && out[|out| - 1] != 0x0A)
      && forall i :: |out| <= i < limit && i < |clean| ==> clean[i] == 0x20 || clean[i] == 0x0A
  {
    var clean := CleanText(text, newlines);
    TrimmedIsPrefix(Cut(clean, limit));
    hide CleanText, Trimmed;
  }

  // ----- The snapshot, cut to whole lines -----

  // Just past the end of the line at `begin`.
  function LineEnd(s: Text, begin: nat): (end: nat)
    requires begin < |s|
    ensures begin < end <= |s|
    decreases |s| - begin
  {
    if s[begin] == NEWLINE || begin + 1 == |s| then begin + 1 else LineEnd(s, begin + 1)
  }

  // The whole lines from `begin` on that fit into what room is left.
  function Kept(s: Text, begin: nat, used: nat, room: nat): (kept: nat)
    requires begin <= |s|
    ensures begin <= kept <= |s|
    decreases |s| - begin
  {
    if begin == |s| then begin
    else
      var end := LineEnd(s, begin);
      var bytes := |Encoded(s[begin..end])|;
      if used + bytes > room then begin else Kept(s, end, used + bytes, room)
  }

  function Notice(saved: bool): Text {
    Bytes(if saved then SAVED_NOTICE else PLAIN_NOTICE)
  }

  function Shown(snapshot: Text, budget: nat, saved: bool): Text {
    var notice := |Encoded(Notice(saved))|;
    if |Encoded(snapshot)| <= budget then snapshot
    else if notice > budget then []
    else snapshot[..Kept(snapshot, 0, 0, budget - notice)] + Notice(saved)
  }

  method Fit(snapshot: Text, budget: nat, saved: bool) returns (r: Text)
    ensures r == Shown(snapshot, budget, saved)
  {
    hide Notice, Encoded;
    var whole := QueryValue(snapshot);
    if |whole| <= budget {
      return snapshot;
    }
    var suffix := Notice(saved);
    var encoded := QueryValue(suffix);
    if |encoded| > budget {
      return [];
    }
    hide LineEnd;
    ghost var room: nat := budget - |encoded|;
    var kept: nat, used: nat, begin: nat := 0, 0, 0;
    while begin < |snapshot|
      invariant begin == kept <= |snapshot|
      invariant Kept(snapshot, 0, 0, room) == Kept(snapshot, begin, used, room)
    {
      var end := LineEnd(snapshot, begin);
      var line := QueryValue(snapshot[begin..end]);
      if used + |line| + |encoded| > budget {
        break;
      }
      used := used + |line|;
      kept, begin := end, end;
    }
    return snapshot[..kept] + suffix;
  }

  // Where a prefix of whole lines may end.
  predicate WholeLines(s: Text, k: nat) {
    k == 0 || k == |s| || (k < |s| && s[k - 1] == NEWLINE)
  }

  lemma {:induction false} NextBoundary(s: Text, begin: nat, k: nat)
    requires begin < k <= |s| && WholeLines(s, k)
    ensures LineEnd(s, begin) <= k && WholeLines(s, LineEnd(s, begin))
    decreases |s| - begin
  {
    if s[begin] != NEWLINE && begin + 1 != |s| {
      NextBoundary(s, begin + 1, k);
    }
  }

  // What the encoding of the first k bytes takes.
  function Size(s: Text, k: nat): nat
    requires k <= |s|
  {
    |Encoded(s[..k])|
  }

  lemma EncodedPrefix(s: Text, i: nat, j: nat)
    requires i <= j <= |s|
    ensures Size(s, j) == Size(s, i) + |Encoded(s[i..j])|
  {
    hide Encoded;
    EncodeDistributes(s[..i], s[i..j]);
    assert s[..j] == s[..i] + s[i..j];
  }

  // The prefix fits and no longer one of whole lines does.
  ghost predicate Longest(s: Text, k: nat, room: nat) {
    && k <= |s| && WholeLines(s, k) && Size(s, k) <= room
    && forall j: nat :: k < j <= |s| && WholeLines(s, j) ==> Size(s, j) > room
  }

  lemma LongestHere(s: Text, begin: nat, room: nat)
    requires begin < |s| && WholeLines(s, begin) && Size(s, begin) <= room < Size(s, LineEnd(s, begin))
    ensures Longest(s, begin, room)
  {
    var end := LineEnd(s, begin);
    hide Size;
    forall k: nat | begin < k <= |s| && WholeLines(s, k) ensures Size(s, k) > room {
      NextBoundary(s, begin, k);
      EncodedPrefix(s, end, k);
    }
  }

  lemma KeptStep(s: Text, begin: nat, room: nat)
    requires begin < |s| && Size(s, begin) <= room
    ensures
      var end := LineEnd(s, begin);
      Kept(s, begin, Size(s, begin), room) == if Size(s, end) > room then begin else Kept(s, end, Size(s, end), room)
  {
    hide Size, LineEnd, Encoded;
    EncodedPrefix(s, begin, LineEnd(s, begin));
  }

  // The lines kept are the longest prefix of whole lines that fits.
  lemma {:induction false} KeptIsLongest(s: Text, begin: nat, room: nat)
    requires begin <= |s| && WholeLines(s, begin) && Size(s, begin) <= room
    ensures Longest(s, Kept(s, begin, Size(s, begin), room), room)
    decreases |s| - begin
  {
    hide Size, LineEnd;
    if begin < |s| {
      var end := LineEnd(s, begin);
      NextBoundary(s, begin, |s|);
      KeptStep(s, begin, room);
      hide Longest, Kept, WholeLines;
      if Size(s, end) > room {
        LongestHere(s, begin, room);
      } else {
        KeptIsLongest(s, end, room);
      }
    }
  }

  // A snapshot is shown whole where it fits; else as the longest prefix of whole lines that fits
  // before the notice; else not at all. What is shown always fits.
  lemma ShownIsLongest(snapshot: Text, budget: nat, saved: bool)
    ensures
      var r := Shown(snapshot, budget, saved);
      && |Encoded(r)| <= budget
      && (|Encoded(snapshot)| <= budget ==> r == snapshot)
      && (|Encoded(snapshot)| > budget ==>
            if |Encoded(Notice(saved))| <= budget then ShownPrefix(snapshot, r, budget, saved) else r == [])
  {
    hide Notice;
    assert Encoded([]) == "";
    hide Encoded;
    var r, notice := Shown(snapshot, budget, saved), |Encoded(Notice(saved))|;
    if |Encoded(snapshot)| > budget && notice <= budget {
      var kept := Kept(snapshot, 0, 0, budget - notice);
      assert r == snapshot[..kept] + Notice(saved);
      hide Shown, Kept;
      CutFits(snapshot, kept, budget, saved);
    }
  }

  lemma CutFits(snapshot: Text, kept: nat, budget: nat, saved: bool)
    requires |Encoded(Notice(saved))| <= budget
    requires kept == Kept(snapshot, 0, 0, budget - |Encoded(Notice(saved))|)
    ensures Longest(snapshot, kept, budget - |Encoded(Notice(saved))|)
    ensures |Encoded(snapshot[..kept] + Notice(saved))| <= budget
  {
    NothingYet(snapshot);
    hide Notice, Encoded, Kept, Longest;
    KeptIsLongest(snapshot, 0, budget - |Encoded(Notice(saved))|);
    LongestFits(snapshot, kept, budget - |Encoded(Notice(saved))|);
    EncodeDistributes(snapshot[..kept], Notice(saved));
  }

  lemma NothingYet(s: Text)
    ensures WholeLines(s, 0) && Size(s, 0) == 0
  {
    assert s[..0] == [];
  }

  lemma LongestFits(s: Text, k: nat, room: nat)
    requires Longest(s, k, room)
    ensures k <= |s| && |Encoded(s[..k])| <= room
  {
  }

  ghost predicate ShownPrefix(snapshot: Text, r: Text, budget: nat, saved: bool) {
    var notice := |Encoded(Notice(saved))|;
    notice <= budget && exists k: nat :: Longest(snapshot, k, budget - notice) && r == snapshot[..k] + Notice(saved)
  }

  // The notice fits any budget of the form link.
  lemma NoticeIsShort(saved: bool)
    ensures |Encoded(Notice(saved))| <= 3 * 64
    ensures Notice(true) == Bytes("[Snapshot shortened; the full snapshot is in report-info.txt.]")
    ensures Notice(false) == Bytes("[Snapshot shortened to fit the form.]")
  {
    BytesLength(if saved then SAVED_NOTICE else PLAIN_NOTICE);
    EncodedLength(Notice(saved));
    assert |SAVED_NOTICE| <= 64 && |PLAIN_NOTICE| <= 64;
  }

  // In the link a snapshot stands whole, or as its longest prefix of whole lines with the notice.
  ghost predicate ShownInLink(snapshot: Text, shown: Text, budget: nat, saved: bool) {
    if |Encoded(snapshot)| <= budget then shown == snapshot else ShownPrefix(snapshot, shown, budget, saved)
  }

  // ----- The URL -----

  datatype Field = Field(id: string, value: Text)

  datatype FormField = FormField(id: string, value: Text, limit: nat, lines: bool)

  function Part(f: Field): string {
    f.id + "=" + Encoded(f.value)
  }

  function Query(fields: seq<Field>): string {
    if fields == [] then ""
    else if |fields| == 1 then Part(fields[0])
    else Query(fields[..|fields| - 1]) + "&" + Part(fields[|fields| - 1])
  }

  // The form's fields that say something.
  function Filled(table: seq<FormField>): seq<Field> {
    if table == [] then []
    else
      var f := table[|table| - 1];
      Filled(table[..|table| - 1]) + if f.value == [] then [] else [Field(f.id, FieldText(f.value, f.limit, f.lines))]
  }

  function Table(simulator: Text, aircraft: Text, environment: Text, logs: Text): seq<FormField> {
    [FormField("simulator_version", simulator, 120, false), FormField("aircraft", aircraft, 240, false),
     FormField("environment", environment, 1000, true), FormField("logs", logs, 300, true)]
  }

  function Heading(version: Text): seq<Field> {
    [Field(TEMPLATE_ID, Bytes(TEMPLATE)), Field(VERSION_ID, Cut(version, 64))]
  }

  // Room left for the snapshot in the form link.
  function Budget(fields: seq<Field>): int {
    URL_LIMIT - |PAGE + "?" + Query(fields)| - |"&runtime_snapshot="|
  }

  lemma QueryMore(fields: seq<Field>, f: Field)
    requires fields != []
    ensures Query(fields + [f]) == Query(fields) + "&" + Part(f)
  {
    assert (fields + [f])[..|fields|] == fields;
  }

  lemma UnreservedByte(c: char)
    requires Unreserved(c)
    ensures c as int % 256 == c as int && EncodedByte(c as int) == [c]
  {
  }

  lemma {:induction false} BytesOfUnreserved(s: string)
    requires forall i :: 0 <= i < |s| ==> Unreserved(s[i])
    ensures Encoded(Bytes(s)) == s
  {
    if s != "" {
      var before, c := s[..|s| - 1], s[|s| - 1];
      BytesOfUnreserved(before);
      UnreservedByte(c);
      EncodedLast(Bytes(before), c as int);
      assert Bytes(s) == Bytes(before) + [c as int];
      FrontAndLast(s);
      hide *;
    }
  }

  const TEMPLATE_ID: string := "template"
  const VERSION_ID: string := "taxi_cam_version"
  const SNAPSHOT_ID: string := "runtime_snapshot"

  lemma HeadingQuery(version: Text)
    ensures Query(Heading(version))
        == TEMPLATE_ID + "=" + TEMPLATE + "&" + (VERSION_ID + "=" + Encoded(Cut(version, 64)))
    ensures Heading(version) != [] && |Query(Heading(version))| <= 60 + 192
  {
    var first, second := Field(TEMPLATE_ID, Bytes(TEMPLATE)), Field(VERSION_ID, Cut(version, 64));
    assert |TEMPLATE_ID| + |TEMPLATE| + |VERSION_ID| + 3 <= 60;
    BytesOfUnreserved(TEMPLATE);
    EncodedLength(Cut(version, 64));
    assert |Cut(version, 64)| <= 64;
    hide Encoded, Bytes, Cut, Query, TEMPLATE_ID, TEMPLATE, VERSION_ID;
    assert Heading(version) == [first] + [second];
    hide Heading;
    QueryMore([first], second);
    QueryOne(first);
  }

  lemma QueryOne(f: Field)
    ensures Query([f]) == Part(f)
  {
  }

  lemma FilledMore(table: seq<FormField>, i: nat)
    requires i < |table|
    ensures
      var f := table[i];
      Filled(table[..i + 1]) == Filled(table[..i]) + if f.value == [] then []
        else [Field(f.id, FieldText(f.value, f.limit, f.lines))]
  {
    assert table[..i + 1][..i] == table[..i];
  }

  lemma AppendEmpty<T>(s: seq<T>)
    ensures s + [] == s
  {
  }

  // One more row of the table.
  lemma MoreFilled(table: seq<FormField>, i: nat, heading: seq<Field>)
    requires i < |table| && heading != []
    ensures
      var f, before, after := table[i], heading + Filled(table[..i]), heading + Filled(table[..i + 1]);
      && Query(after) == Query(before)
        + (if f.value == [] then "" else "&" + (f.id + "=" + Encoded(FieldText(f.value, f.limit, f.lines))))
      && |Query(after)| <= |Query(before)| + 2 + |f.id| + 3 * f.limit
  {
    var f, before := table[i], Filled(table[..i]);
    var text := FieldText(f.value, f.limit, f.lines);
    var query := Query(heading + before);
    FilledMore(table, i);
    if f.value != [] {
      var field := Field(f.id, text);
      Regroup(heading, before, [field]);
      QueryMore(heading + before, field);
      FieldTextIsPlain(f.value, f.limit, f.lines);
      EncodedLength(text);
      assert Part(field) == f.id + "=" + Encoded(text);
      hide *;
      Regroup(query, "&", f.id + "=" + Encoded(text));
    } else {
      AppendEmpty(before);
      AppendEmpty(query);
      hide *;
    }
  }

  // What the four rows may add.
  function Most(f: FormField): nat {
    2 + |f.id| + 3 * f.limit
  }

  lemma FourRows(table: seq<FormField>, heading: seq<Field>)
    requires |table| == 4 && heading != []
    ensures |Query(heading + Filled(table))| <= |Query(heading)| + Most(table[0]) + Most(table[1]) + Most(table[2])
        + Most(table[3])
  {
    NoneFilled(table, heading);
    hide Query, Filled;
    MoreFilled(table, 0, heading);
    MoreFilled(table, 1, heading);
    MoreFilled(table, 2, heading);
    MoreFilled(table, 3, heading);
    assert table[..4] == table;
  }

  lemma TableSizes(simulator: Text, aircraft: Text, environment: Text, logs: Text)
    ensures
      var table := Table(simulator, aircraft, environment, logs);
      |table| == 4 && Most(table[0]) + Most(table[1]) + Most(table[2]) + Most(table[3]) <= 60 + 3 * 1660
  {
  }

  // The other fields leave at least 1500 bytes for the snapshot.
  lemma BudgetIsEnough(version: Text, simulator: Text, aircraft: Text, environment: Text, logs: Text)
    ensures Budget(Heading(version) + Filled(Table(simulator, aircraft, environment, logs))) >= 1500
  {
    var heading, table := Heading(version), Table(simulator, aircraft, environment, logs);
    HeadingQuery(version);
    TableSizes(simulator, aircraft, environment, logs);
    assert |PAGE| + |"&runtime_snapshot="| <= 100;
    hide *;
    FourRows(table, heading);
    BudgetIs(heading + Filled(table));
  }

  lemma BudgetIs(fields: seq<Field>)
    ensures Budget(fields) == URL_LIMIT - |PAGE| - 1 - |Query(fields)| - |"&runtime_snapshot="|
  {
  }

  lemma NoneFilled(table: seq<FormField>, heading: seq<Field>)
    ensures heading + Filled(table[..0]) == heading
  {
  }

  lemma PageIs()
    ensures PAGE + "?" == "https://github.com/rthoms334/taxi-cam/issues/new?" && URL_LIMIT == 7500
  {
  }

  method Url(version: Text, simulator: Text, aircraft: Text, environment: Text, logs: Text, snapshot: Text, saved: bool)
    returns (url: string)
    ensures
      var fields := Heading(version) + Filled(Table(simulator, aircraft, environment, logs));
      Budget(fields) >= 1500 &&
      var shown := Shown(snapshot, Budget(fields), saved);
      && url == "https://github.com/rthoms334/taxi-cam/issues/new?" + Query(fields + [Field(SNAPSHOT_ID, shown)])
      && ShownInLink(snapshot, shown, Budget(fields), saved)
    ensures |url| <= 7500
  {
    var table := Table(simulator, aircraft, environment, logs);
    ghost var heading := Heading(version);
    HeadingQuery(version);
    PageIs();
    NoneFilled(table, heading);
    BudgetIsEnough(version, simulator, aircraft, environment, logs);
    hide *;
    var number := QueryValue(Cut(version, 64));
    url := PAGE + "?" + (TEMPLATE_ID + "=" + TEMPLATE + "&" + (VERSION_ID + "=" + number));
    for i := 0 to |table|
      invariant url == PAGE + "?" + Query(heading + Filled(table[..i]))
    {
      var f := table[i];
      MoreFilled(table, i, heading);
      if f.value != [] {
        var text := ReportText(f.value, f.limit, f.lines);
        var encoded := QueryValue(text);
        url := url + ("&" + (f.id + "=" + encoded));
      }
    }
    assert table[..|table|] == table;
    ghost var fields := heading + Filled(table);
    BudgetIs(fields);
    var budget := URL_LIMIT - |url| - |"&runtime_snapshot="|;
    var shown := Fit(snapshot, budget, saved);
    var encoded := QueryValue(shown);
    SnapshotLast(fields, shown, budget, snapshot, saved);
    LinkShows(snapshot, budget, saved);
    url := url + ("&" + (SNAPSHOT_ID + "=" + encoded));
  }

  lemma LinkShows(snapshot: Text, budget: nat, saved: bool)
    requires budget >= 1500
    ensures ShownInLink(snapshot, Shown(snapshot, budget, saved), budget, saved)
  {
    NoticeIsShort(saved);
    ShownIsLongest(snapshot, budget, saved);
    hide Shown, ShownPrefix, Notice, Encoded;
  }

  // The snapshot goes last and fits.
  lemma SnapshotLast(fields: seq<Field>, shown: Text, budget: nat, snapshot: Text, saved: bool)
    requires fields != [] && shown == Shown(snapshot, budget, saved)
    ensures Query(fields + [Field(SNAPSHOT_ID, shown)]) == Query(fields) + ("&" + (SNAPSHOT_ID + "=" + Encoded(shown)))
    ensures |"&" + (SNAPSHOT_ID + "=" + Encoded(shown))| <= |"&runtime_snapshot="| + budget
  {
    var field := Field(SNAPSHOT_ID, shown);
    QueryMore(fields, field);
    ShownIsLongest(snapshot, budget, saved);
    assert Part(field) == SNAPSHOT_ID + "=" + Encoded(shown);
    assert |SNAPSHOT_ID| + 2 == |"&runtime_snapshot="|;
    hide *;
    Regroup(Query(fields), "&", SNAPSHOT_ID + "=" + Encoded(shown));
  }

  // ----- Reading the link back -----

  // Where c comes first, or the length.
  function First(s: string, c: char): (i: nat)
    ensures i <= |s| && (forall j :: 0 <= j < i ==> s[j] != c) && (i < |s| ==> s[i] == c)
  {
    if s == "" || s[0] == c then 0 else 1 + First(s[1..], c)
  }

  // The parts of a query between the ampersands.
  function Split(s: string): seq<string>
    decreases |s|
  {
    var i := First(s, '&');
    if i == |s| then [s] else [s[..i]] + Split(s[i + 1..])
  }

  // A field's name, up to the first equals sign, and its decoded value.
  function ReadPart(part: string): (string, Option<Text>) {
    var i := First(part, '=');
    if i == |part| then (part, Some([])) else (part[..i], Decoded(part[i + 1..]))
  }

  function ReadParts(parts: seq<string>): seq<(string, Option<Text>)> {
    if parts == [] then [] else ReadParts(parts[..|parts| - 1]) + [ReadPart(parts[|parts| - 1])]
  }

  // What a browser takes from the link after the page's address.
  function ReadQuery(query: string): seq<(string, Option<Text>)> {
    ReadParts(Split(query))
  }

  function Values(fields: seq<Field>): seq<(string, Option<Text>)> {
    if fields == [] then []
    else Values(fields[..|fields| - 1]) + [(fields[|fields| - 1].id, Some(fields[|fields| - 1].value))]
  }

  predicate Name(id: string) {
    '=' !in id && '&' !in id
  }

  predicate Named(f: Field) {
    Name(f.id)
  }

  lemma FirstIs(s: string, c: char, i: nat)
    requires i <= |s| && (forall j :: 0 <= j < i ==> s[j] != c) && (i < |s| ==> s[i] == c)
    ensures First(s, c) == i
  {
  }

  lemma ReadsPart(f: Field)
    requires Named(f)
    ensures '&' !in Part(f) && ReadPart(Part(f)) == (f.id, Some(f.value))
  {
    var value := Encoded(f.value);
    EncodedSealed(f.value);
    DecodeInvertsEncode(f.value);
    hide Encoded, Decoded;
    var part := Part(f);
    assert part[|f.id|] == '=' && part[..|f.id|] == f.id && part[|f.id| + 1..] == value;
    FirstIs(part, '=', |f.id|);
    assert '&' !in value;
  }

  lemma {:induction false} SplitMore(s: string, part: string)
    requires '&' !in part
    ensures Split(s + "&" + part) == Split(s) + [part]
    decreases |s|
  {
    var i, t := First(s, '&'), s + "&" + part;
    assert t[..i] == s[..i];
    FirstIs(t, '&', i);
    if i == |s| {
      assert t[..i] == s && t[i + 1..] == part;
      FirstIs(part, '&', |part|);
      assert Split(part) == [part];
    } else {
      assert t[i + 1..] == s[i + 1..] + "&" + part;
      SplitMore(s[i + 1..], part);
    }
  }

  // Every field is read back by name and value, in order.
  lemma {:induction false} QueryReadsBack(fields: seq<Field>)
    requires fields != [] && forall f :: f in fields ==> Named(f)
    ensures ReadQuery(Query(fields)) == Values(fields)
  {
    var before, last := fields[..|fields| - 1], fields[|fields| - 1];
    assert fields == before + [last] && last in fields;
    ReadsPart(last);
    assert Values(fields) == Values(before) + [(last.id, Some(last.value))];
    assert before == [] ==> Query(fields) == Part(last);
    hide ReadPart, Part, Named;
    if before == [] {
      FirstIs(Part(last), '&', |Part(last)|);
      ReadPartsLast([], Part(last));
      assert Split(Query(fields)) == [] + [Part(last)];
      assert Values(fields) == [] + [(last.id, Some(last.value))];
      assert ReadParts([]) == [];
    } else {
      assert forall f :: f in before ==> f in fields;
      QueryReadsBack(before);
      QueryMore(before, last);
      SplitMore(Query(before), Part(last));
      ReadPartsLast(Split(Query(before)), Part(last));
      hide Query, Split, ReadParts;
    }
  }

  lemma ReadPartsLast(parts: seq<string>, part: string)
    ensures ReadParts(parts + [part]) == ReadParts(parts) + [ReadPart(part)]
  {
    assert (parts + [part])[..|parts|] == parts;
  }

  lemma {:induction false} FilledNamed(table: seq<FormField>)
    requires forall f :: f in table ==> Name(f.id)
    ensures forall f :: f in Filled(table) ==> Named(f)
  {
    if table != [] {
      var before, last := table[..|table| - 1], table[|table| - 1];
      assert last in table && forall f :: f in before ==> f in table;
      FilledNamed(before);
    }
  }

  lemma TableNamed(simulator: Text, aircraft: Text, environment: Text, logs: Text)
    ensures forall f :: f in Table(simulator, aircraft, environment, logs) ==> Name(f.id)
  {
    assert Name("simulator_version") && Name("aircraft");
    assert Name("environment") && Name("logs");
    hide Name;
  }

  lemma HeadingNamed(version: Text)
    ensures forall f :: f in Heading(version) ==> Named(f)
  {
  }

  lemma SnapshotNamed(shown: Text)
    ensures Named(Field(SNAPSHOT_ID, shown))
  {
  }

  // Read as a query, the link gives back the template, the version, every filled field as the form
  // shows it, and the snapshot as shown.
  lemma LinkReadsBack(version: Text, simulator: Text, aircraft: Text, environment: Text, logs: Text, shown: Text)
    ensures
      var fields := Heading(version) + Filled(Table(simulator, aircraft, environment, logs))
        + [Field(SNAPSHOT_ID, shown)];
      ReadQuery(Query(fields)) ==
        [("template", Some(Bytes("bug_report.yml"))),
         ("taxi_cam_version", Some(if |version| <= 64 then version else version[..64]))]
        + Shows("simulator_version", simulator, 120, false) + Shows("aircraft", aircraft, 240, false)
        + Shows("environment", environment, 1000, true) + Shows("logs", logs, 300, true)
        + [("runtime_snapshot", Some(shown))]
  {
    var table := Table(simulator, aircraft, environment, logs);
    HeadingNamed(version);
    TableNamed(simulator, aircraft, environment, logs);
    FilledNamed(table);
    SnapshotNamed(shown);
    TableValues(simulator, aircraft, environment, logs);
    HeadingValues(version);
    LastValue([], Field(SNAPSHOT_ID, shown));
    hide *;
    QueryReadsBack(Heading(version) + Filled(table) + [Field(SNAPSHOT_ID, shown)]);
    ValuesAppend(Heading(version) + Filled(table), [Field(SNAPSHOT_ID, shown)]);
    ValuesAppend(Heading(version), Filled(table));
    FiveParts(Values(Heading(version)), Shows("simulator_version", simulator, 120, false),
      Shows("aircraft", aircraft, 240, false), Shows("environment", environment, 1000, true),
      Shows("logs", logs, 300, true));
  }

  // What the form says under a name, where it says anything.
  function Shows(id: string, value: Text, limit: nat, lines: bool): seq<(string, Option<Text>)> {
    if value == [] then [] else [(id, Some(FieldText(value, limit, lines)))]
  }

  lemma {:induction false} ValuesAppend(a: seq<Field>, b: seq<Field>)
    ensures Values(a + b) == Values(a) + Values(b)
  {
    if b == [] {
      assert a + b == a;
    } else {
      ValuesAppend(a, b[..|b| - 1]);
      assert (a + b)[..|a + b| - 1] == a + b[..|b| - 1];
    }
  }

  lemma LastValue(before: seq<Field>, f: Field)
    ensures Values(before + [f]) == Values(before) + [(f.id, Some(f.value))]
    ensures Values([f]) == [(f.id, Some(f.value))]
  {
    assert (before + [f])[..|before|] == before && [f][..0] == [];
  }

  lemma HeadingValues(version: Text)
    ensures Values(Heading(version)) ==
      [("template", Some(Bytes("bug_report.yml"))),
       ("taxi_cam_version", Some(if |version| <= 64 then version else version[..64]))]
  {
    var first, second := Field(TEMPLATE_ID, Bytes(TEMPLATE)), Field(VERSION_ID, Cut(version, 64));
    LastValue([first], second);
    LastValue([], first);
    hide Values, Bytes;
    assert Heading(version) == [first] + [second];
  }

  function RowShows(f: FormField): seq<(string, Option<Text>)> {
    Shows(f.id, f.value, f.limit, f.lines)
  }

  // What the first rows say.
  function FirstValues(table: seq<FormField>, i: nat): seq<(string, Option<Text>)>
    requires i <= |table|
  {
    Values(Filled(table[..i]))
  }

  lemma RowValues(table: seq<FormField>, i: nat)
    requires i < |table|
    ensures FirstValues(table, i + 1) == FirstValues(table, i) + RowShows(table[i])
  {
    var f, before := table[i], Filled(table[..i]);
    FilledMore(table, i);
    AppendEmpty(before);
    AppendEmpty(Values(before));
    LastValue(before, Field(f.id, FieldText(f.value, f.limit, f.lines)));
    hide Filled, Values, FieldText;
  }

  lemma AllRows(table: seq<FormField>)
    ensures FirstValues(table, 0) == []
    ensures Values(Filled(table)) == FirstValues(table, |table|)
  {
    assert table[..|table|] == table;
  }

  lemma FourValues(table: seq<FormField>)
    requires |table| == 4
    ensures Values(Filled(table)) == RowShows(table[0]) + RowShows(table[1]) + RowShows(table[2]) + RowShows(table[3])
  {
    hide *;
    AllRows(table);
    RowValues(table, 0);
    NoneBefore(RowShows(table[0]));
    RowValues(table, 1);
    RowValues(table, 2);
    RowValues(table, 3);
  }

  lemma NoneBefore<T>(s: seq<T>)
    ensures [] + s == s
  {
  }

  lemma TableValues(simulator: Text, aircraft: Text, environment: Text, logs: Text)
    ensures Values(Filled(Table(simulator, aircraft, environment, logs)))
         == Shows("simulator_version", simulator, 120, false) + Shows("aircraft", aircraft, 240, false)
            + Shows("environment", environment, 1000, true) + Shows("logs", logs, 300, true)
  {
    hide Shows, Values, Filled;
    FourValues(Table(simulator, aircraft, environment, logs));
  }

  lemma FiveParts<T>(a: seq<T>, b: seq<T>, c: seq<T>, d: seq<T>, e: seq<T>)
    ensures a + (b + c + d + e) == a + b + c + d + e
  {
  }
}
