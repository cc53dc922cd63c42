/** Version numbers of the changelog: three 16-bit components, each in its canonical decimal spelling. */
module Versions {
  import opened Common
  import opened Bits
  import opened Json

  const MAX_COMPONENT: nat := 65535
  const DOT: byte := 0x2E

  datatype Version = Version(major: nat, minor: nat, patch: nat)

  predicate Less(a: Version, b: Version) {
    || a.major < b.major
    || (a.major == b.major && a.minor < b.minor)
    || (a.major == b.major && a.minor == b.minor && a.patch < b.patch)
  }

  predicate Fits(v: Version) {
    v.major <= MAX_COMPONENT && v.minor <= MAX_COMPONENT && v.patch <= MAX_COMPONENT
  }

  lemma LessIsStrict(a: Version, b: Version, c: Version)
    ensures !(Less(a, b) && Less(b, a)) && (Less(a, b) || Less(b, a) || a == b)
    ensures Less(a, b) && Less(b, c) ==> Less(a, c)
  {
  }

  // One version is less than another exactly if it is at the first component in which they differ.
  lemma LessExactly(a: Version, b: Version)
    ensures Less(a, b) <==>
        exists i :: 0 <= i < 3 && [a.major, a.minor, a.patch][..i] == [b.major, b.minor, b.patch][..i]
                    && [a.major, a.minor, a.patch][i] < [b.major, b.minor, b.patch][i]
  {
    var s, t := [a.major, a.minor, a.patch], [b.major, b.minor, b.patch];
    assert s[..1] == [s[0]] && t[..1] == [t[0]] && s[..2] == [s[0], s[1]] && t[..2] == [t[0], t[1]];
    assert s[..0] == t[..0];
    if Less(a, b) {
      var i := if s[0] < t[0] then 0 else if s[1] < t[1] then 1 else 2;
      assert s[..i] == t[..i] && s[i] < t[i];
    }
  }

  // ----- Spelling -----

  function Decimal(n: nat): (s: seq<byte>)
    ensures |s| > 0 && forall i :: 0 <= i < |s| ==> IsDigit(s[i])
  {
    (if n < 10 then [] else Decimal(n / 10)) + [0x30 + n % 10]
  }

  function VersionText(v: Version): seq<byte> {
    Decimal(v.major) + [DOT] + Decimal(v.minor) + [DOT] + Decimal(v.patch)
  }

  // ----- Reading -----

  function DigitValue(b: byte): (d: nat)
    requires IsDigit(b)
    ensures d < 10
  {
    var code: int := b;
    code - 0x30
  }

  function Value(digits: seq<byte>): nat
    requires forall i :: 0 <= i < |digits| ==> IsDigit(digits[i])
  {
    if digits == [] then 0 else 10 * Value(digits[..|digits| - 1]) + DigitValue(digits[|digits| - 1])
  }

  lemma {:induction false} DigitsBefore(text: seq<byte>, at: nat)
    requires at <= |text|
    ensures forall i :: at <= i < SkipDigits(text, at) ==> IsDigit(text[i])
    ensures SkipDigits(text, at) < |text| ==> !IsDigit(text[SkipDigits(text, at)])
    decreases |text| - at
  {
    if at < |text| && IsDigit(text[at]) {
      DigitsBefore(text, at + 1);
    }
  }

  // One component: its value and where it ends.
  function Component(text: seq<byte>, at: nat): (r: Parsed<nat>)
    requires at <= |text|
    ensures r.Ok? ==> at < r.at <= |text| && r.value <= MAX_COMPONENT
  {
    var end := SkipDigits(text, at);
    DigitsBefore(text, at);
    if end == at || (end - at > 1 && text[at] == 0x30) || Value(text[at..end]) > MAX_COMPONENT then Fail
    else Ok(Value(text[at..end]), end)
  }

  // The first n components, with dots between them, and where they end.
  function Components(text: seq<byte>, n: nat): (r: Parsed<seq<nat>>)
    ensures r.Ok? ==> r.at <= |text| && |r.value| == n && forall i :: 0 <= i < n ==> r.value[i] <= MAX_COMPONENT
  {
    if n == 0 then Ok([], 0)
    else
      var before := Components(text, n - 1);
      if before.Fail? || (n > 1 && !Is(text, before.at, DOT)) then Fail
      else
        var next := Component(text, if n > 1 then before.at + 1 else before.at);
        if next.Fail? then Fail else Ok(before.value + [next.value], next.at)
  }

  function VersionOf(text: seq<byte>): (r: Option<Version>)
    ensures r.Some? ==> Fits(r.value)
  {
    var parts := Components(text, 3);
    if parts.Fail? || parts.at != |text| then None else Some(Version(parts.value[0], parts.value[1], parts.value[2]))
  }

  method ParseVersion(text: seq<byte>) returns (ok: bool, value: Version)
    ensures ok == VersionOf(text).Some?
    ensures ok ==> VersionOf(text) == Some(value)
  {
    hide Component;
    value := Version(0, 0, 0);
    var parts: seq<nat>, at: nat := [], 0;
    for i := 0 to 3
      invariant Components(text, i) == Ok(parts, at)
    {
      StepsFail(text, i + 1);
      if i > 0 {
        if !Is(text, at, DOT) {
          return false, value;
        }
        at := at + 1;
      }
      var ok, number, end := ReadComponent(text, at);
      if !ok {
        return false, value;
      }
      parts, at := parts + [number], end;
    }
    if at != |text| {
      return false, value;
    }
    return true, Version(parts[0], parts[1], parts[2]);
  }

  lemma {:induction false} StepsFail(text: seq<byte>, n: nat)
    ensures n <= 3 && Components(text, n).Fail? ==> Components(text, 3).Fail?
    decreases 3 - n
  {
    if n < 3 {
      StepsFail(text, n + 1);
    }
  }

  method ReadComponent(text: seq<byte>, start: nat) returns (ok: bool, number: nat, at: nat)
    requires start <= |text|
    ensures ok == Component(text, start).Ok?
    ensures ok ==> Component(text, start) == Parsed.Ok(number, at)
  {
    DigitsBefore(text, start);
    at, number := start, 0;
    while at < |text| && IsDigit(text[at])
      invariant start <= at <= SkipDigits(text, start) && SkipDigits(text, at) == SkipDigits(text, start)
      invariant number == Value(text[start..at]) && number <= MAX_COMPONENT
    {
      assert text[start..at + 1][..at - start] == text[start..at];
      number := number * 10 + DigitValue(text[at]);
      at := at + 1;
      if number > MAX_COMPONENT {
        ValueGrows(text, start, at, SkipDigits(text, start));
        return false, number, at;
      }
    }
    if at == start || (at - start > 1 && text[start] == 0x30) {
      return false, number, at;
    }
    return true, number, at;
  }

  lemma {:induction false} ValueGrows(text: seq<byte>, at: nat, i: nat, end: nat)
    requires at <= i <= end <= |text| && forall k :: at <= k < end ==> IsDigit(text[k])
    ensures Value(text[at..i]) <= Value(text[at..end])
    decreases end - i
  {
    if i < end {
      ValueGrows(text, at, i, end - 1);
      assert text[at..end][..end - 1 - at] == text[at..end - 1];
    }
  }

  // ----- Reading is exactly undoing the spelling -----

  lemma ValueLast(digits: seq<byte>, d: nat)
    requires d < 10 && forall i :: 0 <= i < |digits| ==> IsDigit(digits[i])
    ensures Value(digits + [0x30 + d]) == 10 * Value(digits) + d
  {
    assert (digits + [0x30 + d])[..|digits|] == digits;
  }

  lemma {:induction false} ValueOfDecimal(n: nat)
    ensures Value(Decimal(n)) == n && (|Decimal(n)| > 1 ==> Decimal(n)[0] != 0x30)
  {
    if n >= 10 {
      ValueOfDecimal(n / 10);
      ValueLast(Decimal(n / 10), n % 10);
      FirstDigit(n / 10);
      hide Value;
    } else {
      ValueLast([], n);
      hide Value;
    }
  }

  lemma FirstDigit(n: nat)
    ensures 0 < n < 10 ==> Decimal(n) == [0x30 + n] && Decimal(n)[0] != 0x30
  {
  }

  lemma DecimalStep(n: nat, d: nat)
    requires n > 0 && d < 10
    ensures Decimal(10 * n + d) == Decimal(n) + [0x30 + d]
  {
    assert (10 * n + d) / 10 == n && (10 * n + d) % 10 == d;
  }

  lemma {:induction false} DecimalOfValue(digits: seq<byte>)
    requires digits != [] && (forall i :: 0 <= i < |digits| ==> IsDigit(digits[i]))
        && (|digits| > 1 ==> digits[0] != 0x30)
    ensures Decimal(Value(digits)) == digits
    ensures digits[0] != 0x30 ==> Value(digits) > 0
  {
    var before, last := digits[..|digits| - 1], digits[|digits| - 1];
    var d := DigitValue(last);
    assert Value(digits) == 10 * Value(before) + d;
    assert digits == before + [0x30 + d];
    if before != [] {
      DecimalOfValue(before);
      DecimalStep(Value(before), d);
      hide Decimal, Value;
    } else {
      assert Value([]) == 0 && Decimal(d) == [] + [0x30 + d];
      hide Decimal, Value;
    }
  }

  // A component is read exactly when it is the decimal of a 16-bit number with no digit after it.
  lemma ComponentExact(text: seq<byte>, at: nat, n: nat, end: nat)
    requires at <= |text|
    ensures Component(text, at) == Ok(n, end) <==>
      (n <= MAX_COMPONENT && at < end <= |text| && text[at..end] == Decimal(n)
        && (end < |text| ==> !IsDigit(text[end])))
  {
    DigitsBefore(text, at);
    var stop := SkipDigits(text, at);
    if at < end <= |text| && text[at..end] == Decimal(n) && (end < |text| ==> !IsDigit(text[end])) {
      forall i | at <= i < end ensures IsDigit(text[i]) {
        assert text[at..end][i - at] == text[i];
      }
      assert stop == end;
      assert text[at..end][0] == text[at];
      ValueOfDecimal(n);
    }
    if Component(text, at) == Ok(n, end) {
      assert text[at..end][0] == text[at];
      DecimalOfValue(text[at..end]);
    }
  }

  // A version is read exactly from its own spelling.
  lemma VersionExact(text: seq<byte>, v: Version)
    ensures VersionOf(text) == Some(v) <==> (Fits(v) && text == VersionText(v))
  {
    if Fits(v) && text == VersionText(v) {
      TextReads(text, v);
    }
    if VersionOf(text) == Some(v) {
      ReadsText(text, v);
    }
  }

  lemma ComponentsStep(text: seq<byte>, n: nat, before: seq<nat>, at: nat, number: nat, end: nat)
    requires Components(text, n) == Ok(before, at) && at <= |text| && (n > 0 ==> Is(text, at, DOT))
    requires Component(text, if n > 0 then at + 1 else at) == Ok(number, end)
    ensures Components(text, n + 1) == Ok(before + [number], end)
  {
  }

  lemma Layout(text: seq<byte>, a: seq<byte>, b: seq<byte>, c: seq<byte>)
    requires text == a + [DOT] + b + [DOT] + c
    ensures
      var i, j := |a|, |a| + 1 + |b|;
      && j + 1 + |c| == |text|
      && text[0..i] == a && text[i] == DOT && text[i + 1..j] == b && text[j] == DOT && text[j + 1..|text|] == c
  {
  }

  lemma TextReads(text: seq<byte>, v: Version)
    requires Fits(v) && text == VersionText(v)
    ensures VersionOf(text) == Some(v)
  {
    var a, b, c := Decimal(v.major), Decimal(v.minor), Decimal(v.patch);
    hide Decimal;
    var i, j := |a|, |a| + 1 + |b|;
    Layout(text, a, b, c);
    ComponentExact(text, 0, v.major, i);
    ComponentExact(text, i + 1, v.minor, j);
    ComponentExact(text, j + 1, v.patch, |text|);
    hide Component;
    assert Components(text, 0) == Ok([], 0);
    hide Components;
    ComponentsStep(text, 0, [], 0, v.major, i);
    ComponentsStep(text, 1, [] + [v.major], i, v.minor, j);
    ComponentsStep(text, 2, [] + [v.major] + [v.minor], j, v.patch, |text|);
  }

  lemma ComponentsBack(text: seq<byte>, n: nat)
    requires n > 0 && Components(text, n).Ok?
    ensures
      var before, all := Components(text, n - 1), Components(text, n);
      && before.Ok? && before.at <= |text| && |before.value| == n - 1 && (n > 1 ==> Is(text, before.at, DOT))
      && Component(text, if n > 1 then before.at + 1 else before.at) == Ok(all.value[n - 1], all.at)
      && all.value == before.value + [all.value[n - 1]]
  {
  }

  // Components with dots between them.
  function Dotted(parts: seq<nat>): seq<byte> {
    if parts == [] then []
    else if |parts| == 1 then Decimal(parts[0])
    else Dotted(parts[..|parts| - 1]) + [DOT] + Decimal(parts[|parts| - 1])
  }

  lemma {:induction false} ComponentsAreDotted(text: seq<byte>, n: nat)
    requires Components(text, n).Ok?
    ensures text[..Components(text, n).at] == Dotted(Components(text, n).value)
  {
    if n > 0 {
      ComponentsBack(text, n);
      ComponentsAreDotted(text, n - 1);
      var before, all := Components(text, n - 1), Components(text, n);
      var from := if n > 1 then before.at + 1 else before.at;
      ComponentExact(text, from, all.value[n - 1], all.at);
      assert n == 1 ==> before.value == [] && before.at == 0;
      DottedMore(before.value, all.value[n - 1]);
      hide Components, Component, Dotted, Decimal;
      Extends(text, before.at, from, all.at);
    }
  }

  lemma DottedMore(parts: seq<nat>, n: nat)
    ensures Dotted(parts + [n]) == if parts == [] then Decimal(n) else Dotted(parts) + [DOT] + Decimal(n)
  {
    assert (parts + [n])[..|parts|] == parts;
  }

  lemma Extends(text: seq<byte>, i: nat, from: nat, end: nat)
    requires i <= from <= end <= |text| && (from == i + 1 ==> text[i] == DOT) && (from == i ==> i == 0) && from <= i + 1
    ensures text[..end] == if from == i then text[from..end] else text[..i] + [DOT] + text[from..end]
  {
  }

  lemma ReadsText(text: seq<byte>, v: Version)
    requires VersionOf(text) == Some(v)
    ensures Fits(v) && text == VersionText(v)
  {
    ComponentsAreDotted(text, 3);
    var parts := Components(text, 3).value;
    assert parts == [] + [v.major] + [v.minor] + [v.patch] && text[..|text|] == text;
    hide Components, Dotted, Decimal;
    DottedMore([], v.major);
    DottedMore([] + [v.major], v.minor);
    DottedMore([] + [v.major] + [v.minor], v.patch);
  }

  // Different versions are spelled differently, whatever their size.
  lemma VersionsDiffer(v: Version, w: Version)
    ensures VersionText(v) == VersionText(w) <==> v == w
  {
    if VersionText(v) == VersionText(w) {
      var a, b, c := Decimal(v.major), Decimal(v.minor), Decimal(v.patch);
      var d, e, f := Decimal(w.major), Decimal(w.minor), Decimal(w.patch);
      hide Decimal;
      Regroup(a + [DOT], b + [DOT], c);
      Regroup(d + [DOT], e + [DOT], f);
      Regroup(a + [DOT], b, [DOT]);
      Regroup(d + [DOT], e, [DOT]);
      FirstPart(a, b + [DOT] + c, d, e + [DOT] + f, DOT);
      FirstPart(b, c, e, f, DOT);
      DecimalsDiffer(v.major, w.major);
      DecimalsDiffer(v.minor, w.minor);
      DecimalsDiffer(v.patch, w.patch);
    }
  }

  lemma DecimalsDiffer(m: nat, n: nat)
    ensures Decimal(m) == Decimal(n) <==> m == n
  {
    ValueOfDecimal(m);
    ValueOfDecimal(n);
    hide Decimal, Value;
  }
}
