/** The names of crash records: one canonical spelling for each process and tick count. */
module RecordNames {
  const PREFIX: string := "renderer-fault-"
  const MAX_DWORD: nat := 0xFFFF_FFFF
  const MAX_U64: nat := 0xFFFF_FFFF_FFFF_FFFF

  predicate IsDigit(c: char) {
    '0' <= c <= '9'
  }

  function Digit(d: nat): char
    requires d < 10
  {
    '0' + d as char
  }

  function DigitValue(c: char): (d: nat)
    requires IsDigit(c)
    ensures d < 10 && Digit(d) == c
  {
    c as nat - '0' as nat
  }

  // What %lu and %llu print.
  function Decimal(n: nat): (s: string)
    ensures |s| > 0 && forall i :: 0 <= i < |s| ==> IsDigit(s[i])
  {
    (if n < 10 then "" else Decimal(n / 10)) + [Digit(n % 10)]
  }

  // The name a new record is given.
  function Printed(process: nat, ticks: nat): string {
    "renderer-fault-" + Decimal(process) + "-" + Decimal(ticks) + ".bin"
  }

  ghost predicate IsRecordName(name: string) {
    exists process: nat, ticks: nat :: 1 <= process <= 0xFFFF_FFFF && ticks <= 0xFFFF_FFFF_FFFF_FFFF
      && name == Printed(process, ticks)
  }

  // The text from `at` on is this number and then the separator.
  predicate Reads(name: string, at: nat, n: nat, separator: char) {
    at + |Decimal(n)| < |name| && name[at..at + |Decimal(n)|] == Decimal(n) && name[at + |Decimal(n)|] == separator
  }

  lemma DecimalGrows(n: nat, d: nat)
    requires n > 0 && d < 10
    ensures Decimal(10 * n + d) == Decimal(n) + [Digit(d)]
  {
    assert (10 * n + d) / 10 == n && (10 * n + d) % 10 == d;
  }

  lemma DecimalStarts(n: nat)
    ensures Decimal(n)[0] == '0' <==> n == 0
    ensures n == 0 ==> Decimal(n) == "0"
  {
  }

  // A number whose decimal goes on after the decimal of `n` and `d` is at least 10 n + d.
  lemma {:induction false} Longer(m: nat, n: nat, d: nat)
    requires d < 10 && |Decimal(n)| < |Decimal(m)| && Decimal(m)[..|Decimal(n)|] == Decimal(n)
    requires Decimal(m)[|Decimal(n)|] == Digit(d)
    ensures m >= 10 * n + d
  {
    var k := |Decimal(n)|;
    var head := Decimal(m / 10);
    assert Decimal(m) == head + [Digit(m % 10)];
    if |head| > k {
      assert head[..k] == Decimal(m)[..k] && head[k] == Decimal(m)[k];
      Longer(m / 10, n, d);
    } else {
      assert head == Decimal(m)[..k];
      DecimalInjective(m / 10, n);
    }
  }

  lemma {:induction false} DecimalInjective(m: nat, n: nat)
    requires Decimal(m) == Decimal(n)
    ensures m == n
  {
    var last := |Decimal(m)| - 1;
    assert Decimal(m)[last] == Digit(m % 10) && Decimal(n)[last] == Digit(n % 10);
    assert m >= 10 ==> |Decimal(m / 10)| >= 1;
    assert n >= 10 ==> |Decimal(n / 10)| >= 1;
    if m >= 10 {
      assert Decimal(m / 10) == Decimal(m)[..last];
      assert Decimal(n / 10) == Decimal(n)[..last];
      DecimalInjective(m / 10, n / 10);
    }
  }

  predicate DigitAt(name: string, at: nat) {
    at < |name| && IsDigit(name[at])
  }

  lemma ReadsDigits(name: string, at: nat, n: nat, separator: char)
    requires Reads(name, at, n, separator) && !IsDigit(separator)
    ensures
      var end := at + |Decimal(n)|;
      && at < end < |name| && !DigitAt(name, end) && name[end] == separator && name[at..end] == Decimal(n)
      && (forall j :: at <= j < end ==> DigitAt(name, j)) && name[at] == Decimal(n)[0]
  {
    var end := at + |Decimal(n)|;
    forall j | at <= j < end ensures DigitAt(name, j) {
      assert name[at..end][j - at] == Decimal(n)[j - at];
    }
  }

  // Two numbers read at the same place are the same.
  lemma ReadsOnce(name: string, at: nat, m: nat, n: nat, separator: char)
    requires Reads(name, at, m, separator) && Reads(name, at, n, separator) && !IsDigit(separator)
    ensures m == n
  {
    ReadsDigits(name, at, m, separator);
    ReadsDigits(name, at, n, separator);
    assert |Decimal(m)| == |Decimal(n)|;
    DecimalInjective(m, n);
  }

  // What is read starts with every run of digits.
  lemma ReadsRun(name: string, at: nat, cursor: nat, n: nat, m: nat, separator: char)
    requires Reads(name, at, m, separator) && !IsDigit(separator)
    requires at < cursor <= |name| && name[at..cursor] == Decimal(n)
    ensures DigitAt(name, cursor) ==> m >= 10 * n + DigitValue(name[cursor])
    ensures !DigitAt(name, cursor) ==> m == n && cursor < |name| && name[cursor] == separator
  {
    ReadsDigits(name, at, m, separator);
    var end := at + |Decimal(m)|;
    forall j | at <= j < cursor ensures DigitAt(name, j) {
      assert name[at..cursor][j - at] == Decimal(n)[j - at];
    }
    assert cursor <= end;
    assert name[at..end][..cursor - at] == name[at..cursor];
    if DigitAt(name, cursor) {
      assert name[at..end][cursor - at] == name[cursor];
      Longer(m, n, DigitValue(name[cursor]));
    } else {
      assert cursor == end;
      DecimalInjective(m, n);
    }
  }

  lemma Spelled(name: string, at: nat, cursor: nat, n: nat, separator: char)
    requires at <= cursor < |name| && name[at..cursor] == Decimal(n) && name[cursor] == separator
    ensures Reads(name, at, n, separator) && cursor == at + |Decimal(n)|
  {
  }

  ghost predicate Fits(name: string, at: nat, maximum: nat, separator: char, positive: bool) {
    exists n: nat :: n <= maximum && (positive ==> n != 0) && Reads(name, at, n, separator)
  }

  // One number in its canonical spelling, at most `maximum`, with its separator.
  method Number(name: string, at: nat, maximum: nat, separator: char, positive: bool) returns (ok: bool, next: nat)
    requires at <= |name| && !IsDigit(separator) && maximum >= 9
    ensures ok <==> Fits(name, at, maximum, separator, positive)
    ensures ok ==> at < next <= |name|
    ensures ok ==> forall n: nat :: Reads(name, at, n, separator) ==> next == at + |Decimal(n)| + 1
  {
    next := at;
    NumberStarts(name, at, maximum, separator, positive);
    hide Reads, Fits;
    if at == |name| || !IsDigit(name[at]) || (name[at] == '0' && at + 1 < |name| && IsDigit(name[at + 1])) {
      return false, next;
    }
    var value: nat := DigitValue(name[at]);
    next := at + 1;
    assert Decimal(value) == [name[at]] == name[at..next];
    hide Decimal;
    while next < |name| && IsDigit(name[next])
      invariant at < next <= |name| && value <= maximum
      invariant name[at..next] == Decimal(value)
      invariant value == 0 ==> !DigitAt(name, next)
    {
      var digit := DigitValue(name[next]);
      if value > (maximum - digit) / 10 {
        NumberOverflows(name, at, next, value, maximum, separator, positive);
        return false, next;
      }
      NumberGoesOn(name, at, next, value);
      value, next := value * 10 + digit, next + 1;
    }
    NumberEnds(name, at, next, value, maximum, separator, positive);
    if (positive && value == 0) || next == |name| || name[next] != separator {
      return false, next;
    }
    return true, next + 1;
  }

  lemma NumberStarts(name: string, at: nat, maximum: nat, separator: char, positive: bool)
    requires at <= |name| && !IsDigit(separator)
    ensures Fits(name, at, maximum, separator, positive) ==>
        DigitAt(name, at) && (name[at] == '0' ==> !DigitAt(name, at + 1))
  {
    forall n: nat | Reads(name, at, n, separator) ensures DigitAt(name, at)
      && (name[at] == '0' ==> !DigitAt(name, at + 1)) {
      ReadsDigits(name, at, n, separator);
      DecimalStarts(n);
    }
  }

  lemma NumberGoesOn(name: string, at: nat, next: nat, value: nat)
    requires at < next && DigitAt(name, next) && value > 0 && name[at..next] == Decimal(value)
    ensures name[at..next + 1] == Decimal(value * 10 + DigitValue(name[next]))
  {
    DecimalGrows(value, DigitValue(name[next]));
    assert name[at..next + 1] == name[at..next] + [name[next]];
  }

  lemma NumberOverflows(name: string, at: nat, next: nat, value: nat, maximum: nat, separator: char, positive: bool)
    requires at < next && DigitAt(name, next) && name[at..next] == Decimal(value) && !IsDigit(separator) && maximum >= 9
    requires value > (maximum - DigitValue(name[next])) / 10
    ensures !Fits(name, at, maximum, separator, positive)
  {
    forall n: nat | Reads(name, at, n, separator) ensures n > maximum {
      ReadsRun(name, at, next, value, n, separator);
    }
  }

  lemma NumberEnds(name: string, at: nat, next: nat, value: nat, maximum: nat, separator: char, positive: bool)
    requires at < next <= |name| && !DigitAt(name, next) && name[at..next] == Decimal(value) && !IsDigit(separator)
        && value <= maximum
    ensures Fits(name, at, maximum, separator, positive) <==>
        (positive ==> value != 0) && next < |name| && name[next] == separator
    ensures forall n: nat :: Reads(name, at, n, separator) ==> next == at + |Decimal(n)|
  {
    forall n: nat | Reads(name, at, n, separator) ensures n == value && next < |name| && name[next] == separator {
      ReadsRun(name, at, next, value, n, separator);
    }
    if next < |name| && name[next] == separator {
      Spelled(name, at, next, value, separator);
    }
  }

  // The text after the process number is a tick count and the suffix.
  ghost predicate Rest(name: string, middle: nat) {
    exists ticks: nat :: ticks <= MAX_U64 && Reads(name, middle, ticks, '.')
      && name[middle + |Decimal(ticks)| + 1..] == "bin"
  }

  lemma Layout(name: string, head: string, t: string, u: string, tail: string)
    requires name == head + t + "-" + u + "." + tail
    ensures
      var p, middle := |head|, |head| + |t| + 1;
      && middle + |u| < |name| && name[..p] == head && name[p..p + |t|] == t && name[p + |t|] == '-'
      && name[middle..middle + |u|] == u && name[middle + |u|] == '.' && name[middle + |u| + 1..] == tail
  {
  }

  lemma PrintedReads(name: string, process: nat, ticks: nat)
    requires name == Printed(process, ticks)
    ensures |PREFIX| <= |name| && name[..|PREFIX|] == PREFIX && Reads(name, |PREFIX|, process, '-')
    ensures
      var middle := |PREFIX| + |Decimal(process)| + 1;
      Reads(name, middle, ticks, '.') && name[middle + |Decimal(ticks)| + 1..] == "bin"
  {
    var t, u := Decimal(process), Decimal(ticks);
    var start := PREFIX + t + "-" + u;
    assert name == start + "." + "bin" by {
      assert ".bin" == "." + "bin";
      Joined(start, ".", "bin");
    }
    hide Decimal, Printed;
    Layout(name, PREFIX, t, u, "bin");
  }

  lemma Joined(a: string, b: string, c: string)
    ensures a + (b + c) == a + b + c
  {
  }

  lemma ReadsPrinted(name: string, process: nat, ticks: nat)
    requires |PREFIX| <= |name| && name[..|PREFIX|] == PREFIX && Reads(name, |PREFIX|, process, '-')
    requires
      var middle := |PREFIX| + |Decimal(process)| + 1;
      Reads(name, middle, ticks, '.') && name[middle + |Decimal(ticks)| + 1..] == "bin"
    ensures name == Printed(process, ticks)
  {
    var p, middle := |PREFIX|, |PREFIX| + |Decimal(process)| + 1;
    var end := middle + |Decimal(ticks)|;
    assert name[p..middle - 1] == Decimal(process) && name[middle..end] == Decimal(ticks);
    assert name[middle - 1] == '-' && name[end] == '.';
    hide Decimal, Reads;
    Parts(name, p, middle, end);
  }

  lemma Parts(s: string, p: nat, middle: nat, end: nat)
    requires p < middle <= end < |s|
    ensures s == s[..p] + s[p..middle - 1] + [s[middle - 1]] + s[middle..end] + [s[end]] + s[end + 1..]
  {
  }

  lemma RecordNameSplits(name: string)
    ensures IsRecordName(name) <==>
      (|PREFIX| <= |name| && name[..|PREFIX|] == PREFIX
       && exists process: nat ::
            1 <= process <= MAX_DWORD && Reads(name, |PREFIX|, process, '-')
            && Rest(name, |PREFIX| + |Decimal(process)| + 1))
  {
    hide Decimal, Printed;
    if IsRecordName(name) {
      var process: nat, ticks: nat :| 1 <= process <= MAX_DWORD && ticks <= MAX_U64 && name == Printed(process, ticks);
      PrintedReads(name, process, ticks);
      assert Rest(name, |PREFIX| + |Decimal(process)| + 1);
    }
    if |PREFIX| <= |name| && name[..|PREFIX|] == PREFIX {
      forall process: nat | 1 <= process <= MAX_DWORD && Reads(name, |PREFIX|, process, '-')
        && Rest(name, |PREFIX| + |Decimal(process)| + 1)
        ensures IsRecordName(name)
      {
        var ticks: nat :| ticks <= MAX_U64 && Reads(name, |PREFIX| + |Decimal(process)| + 1, ticks, '.')
          && name[|PREFIX| + |Decimal(process)| + 1 + |Decimal(ticks)| + 1..] == "bin";
        ReadsPrinted(name, process, ticks);
      }
    }
  }

  // Exactly the names new records are given.
  method RecordFilename(name: string) returns (record: bool)
    ensures record <==> IsRecordName(name)
  {
    RecordNameSplits(name);
    hide Reads, Decimal, IsRecordName;
    if |name| < |PREFIX| || name[..|PREFIX|] != PREFIX {
      return false;
    }
    var ok, middle := Number(name, |PREFIX|, MAX_DWORD, '-', true);
    if !ok {
      return false;
    }
    var end: nat;
    ok, end := Number(name, middle, MAX_U64, '.', false);
    assert Rest(name, middle) <==> ok && name[end..] == "bin";
    hide Rest;
    return ok && name[end..] == "bin";
  }

  // No two records of different processes or times share a name.
  lemma NamesDiffer(process: nat, ticks: nat, process': nat, ticks': nat)
    requires Printed(process, ticks) == Printed(process', ticks')
    ensures process == process' && ticks == ticks'
  {
    var name := Printed(process, ticks);
    PrintedReads(name, process, ticks);
    PrintedReads(name, process', ticks');
    ReadsOnce(name, |PREFIX|, process, process', '-');
    ReadsOnce(name, |PREFIX| + |Decimal(process)| + 1, ticks, ticks', '.');
  }
}
