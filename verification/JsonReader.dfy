/** The JSON reader: a cursor and a depth counter over a text, updated as it goes. */
module JsonReader {
  import opened Common
  import opened Bits
  import opened Utf8
  import opened Json
  import opened JsonGrammar
  import JsonSound
  import JsonComplete

  // A document is accepted exactly when it renders an admitted value, and then as that value.
  lemma ParseExact(document: seq<byte>, v: Value, finite: seq<byte> -> bool)
    ensures Parse(document, finite) == Some(v) <==>
            Admitted(v, 32, finite)
            && exists before, t, after :: Renders(document, before, t, after) && Meaning(t) == v
  {
    hide Parse, Text, Good, Space, Meaning, Admitted;
    if Parse(document, finite) == Some(v) {
      var before, t, after := JsonSound.ParseSound(document, finite);
    }
    forall before, t, after | Renders(document, before, t, after) && Meaning(t) == v && Admitted(v, 32, finite)
      ensures Parse(document, finite) == Some(v)
    {
      JsonComplete.ParseComplete(document, before, t, after, finite);
    }
  }

  class Parser {
    const text: seq<byte>
    const finite: seq<byte> -> bool
    var at: nat
    var depth: nat

    constructor (text: seq<byte>, finite: seq<byte> -> bool)
      ensures this.text == text && this.finite == finite && at == 0 && depth == 0
    {
      this.text, this.finite, at, depth := text, finite, 0, 0;
    }

    method SkipBlanks()
      requires at <= |text|
      modifies this`at
      ensures at == SkipSpace(text, old(at))
    {
      while at < |text| && IsSpace(text[at])
        invariant at <= |text|
        invariant SkipSpace(text, at) == SkipSpace(text, old(at))
      {
        at := at + 1;
      }
    }

    method Literal(word: seq<byte>) returns (ok: bool)
      requires at <= |text|
      modifies this`at
      ensures ok == Word(text, old(at), word)
      ensures at == if ok then old(at) + |word| else old(at)
      ensures at <= |text|
    {
      if at + |word| > |text| || text[at..at + |word|] != word {
        return false;
      }
      at := at + |word|;
      return true;
    }

    method Hex4() returns (ok: bool, value: nat)
      requires at <= |text|
      modifies this`at
      ensures at <= |text|
      ensures ok == Hex(text, old(at), 4, 0).Ok?
      ensures ok ==> Hex(text, old(at), 4, 0) == Parsed.Ok(value, at)
    {
      value := 0;
      for i := 0 to 4
        invariant at <= |text| && value < Room(4 - i)
        invariant Hex(text, at, 4 - i, value) == Hex(text, old(at), 4, 0)
      {
        if at >= |text| {
          return false, value;
        }
        var digit := HexDigit(text[at]);
        at := at + 1;
        if digit.None? {
          return false, value;
        }
        value := value * 16 + digit.value;
      }
      return true, value;
    }

    // After a backslash. The source reads the escape inside ReadString.
    method ReadEscape() returns (ok: bool, bytes: seq<byte>)
      requires at <= |text|
      modifies this`at
      ensures at <= |text|
      ensures ok == Escape(text, old(at)).Ok?
      ensures ok ==> Escape(text, old(at)) == Parsed.Ok(bytes, at)
    {
      hide Hex, Encode, Short;
      bytes := [];
      if at >= |text| {
        return false, bytes;
      }
      var e := text[at];
      at := at + 1;
      if Short(e).Some? {
        return true, [Short(e).value];
      }
      if e != 0x75 {
        return false, bytes;
      }
      var read, cp := Hex4();
      if !read {
        return false, bytes;
      }
      if 0xD800 <= cp <= 0xDBFF {
        var pair := Literal([0x5C, 0x75]);
        if !pair {
          return false, bytes;
        }
        var low;
        read, low := Hex4();
        if !read || low < 0xDC00 || low > 0xDFFF {
          return false, bytes;
        }
        cp := 0x10000 + (cp - 0xD800) * 0x400 + (low - 0xDC00);
      } else if 0xDC00 <= cp <= 0xDFFF {
        return false, bytes;
      }
      return true, Encode(cp);
    }

    method ReadString() returns (ok: bool, out: seq<byte>)
      requires at <= |text|
      modifies this`at
      ensures at <= |text|
      ensures ok == StringAt(text, old(at)).Ok?
      ensures ok ==> StringAt(text, old(at)) == Parsed.Ok(out, at)
    {
      hide Escape, WellFormed;
      out := [];
      if at >= |text| || text[at] != 0x22 {
        return false, out;
      }
      at := at + 1;
      while at < |text|
        invariant at <= |text|
        invariant StringFrom(text, at, out) == StringFrom(text, old(at) + 1, [])
        decreases |text| - at
      {
        var c := text[at];
        if c == 0x22 {
          at := at + 1;
          return WellFormed(out), out;
        }
        if c < 0x20 {
          return false, out;
        }
        at := at + 1;
        if c != 0x5C {
          out := out + [c];
        } else {
          var read, bytes := ReadEscape();
          if !read {
            return false, out;
          }
          out := out + bytes;
        }
      }
      return false, out;
    }

    method ReadDigits() returns (ok: bool)
      requires at <= |text|
      modifies this`at
      ensures at == SkipDigits(text, old(at)) && ok == (at > old(at))
    {
      var start := at;
      while at < |text| && IsDigit(text[at])
        invariant old(at) <= at <= |text|
        invariant SkipDigits(text, at) == SkipDigits(text, old(at))
      {
        at := at + 1;
      }
      return at > start;
    }

    // The whole part, the fraction and the exponent of a number, in the order ReadNumber takes them.
    method ReadWhole() returns (ok: bool)
      requires at <= |text|
      modifies this`at
      ensures at <= |text|
      ensures WholeEnd(text, old(at)) == if ok then Some(at) else None
    {
      hide SkipDigits;
      if at < |text| && text[at] == 0x30 {
        at := at + 1;
        return true;
      }
      ok := ReadDigits();
    }

    method ReadFraction() returns (ok: bool)
      requires at <= |text|
      modifies this`at
      ensures at <= |text|
      ensures FractionEnd(text, old(at)) == if ok then Some(at) else None
    {
      hide SkipDigits;
      if at < |text| && text[at] == 0x2E {
        at := at + 1;
        ok := ReadDigits();
        return ok;
      }
      return true;
    }

    method ReadExponent() returns (ok: bool)
      requires at <= |text|
      modifies this`at
      ensures at <= |text|
      ensures ExponentEnd(text, old(at)) == if ok then Some(at) else None
    {
      hide SkipDigits;
      if at < |text| && (text[at] == 0x65 || text[at] == 0x45) {
        at := at + 1;
        if at < |text| && (text[at] == 0x2B || text[at] == 0x2D) {
          at := at + 1;
        }
        ok := ReadDigits();
        return ok;
      }
      return true;
    }

    method ReadNumber() returns (ok: bool, v: Value)
      requires at <= |text|
      modifies this`at
      ensures at <= |text|
      ensures ok == NumberAt(text, old(at), finite).Ok?
      ensures ok ==> NumberAt(text, old(at), finite) == Parsed.Ok(v, at)
    {
      hide WholeEnd, FractionEnd, ExponentEnd;
      v := Null;
      var start := at;
      if at < |text| && text[at] == 0x2D {
        at := at + 1;
      }
      ok := ReadWhole();
      if !ok {
        return;
      }
      ok := ReadFraction();
      if !ok {
        return;
      }
      ok := ReadExponent();
      if !ok {
        return;
      }
      v := Number(text[start..at]);
      ok := finite(text[start..at]);
    }

    // The depth comes back unchanged from an accepted value; a refused one ends the whole parse.
    method ReadValue() returns (ok: bool, v: Value)
      requires at <= |text| && depth <= MAX_DEPTH
      modifies this
      ensures at <= |text|
      ensures ok == ValueAt(text, old(at), old(depth), finite).Ok?
      ensures ok ==> ValueAt(text, old(at), old(depth), finite) == Parsed.Ok(v, at) && depth == old(depth)
      decreases |text| - at, 2
    {
      hide StringAt, NumberAt, SkipSpace;
      v := Null;
      SkipBlanks();
      if at >= |text| {
        return false, v;
      }
      var c := text[at];
      if c == 0x7B || c == 0x5B {
        depth := depth + 1;
        if depth > MAX_DEPTH {
          return false, v;
        }
        at := at + 1;
        SkipBlanks();
        if at < |text| && text[at] == (if c == 0x7B then 0x7D else 0x5D) {
          at := at + 1;
          depth := depth - 1;
          return true, if c == 0x7B then Object([]) else Array([]);
        }
        if c == 0x7B {
          ok, v := ReadMembers();
        } else {
          ok, v := ReadItems();
        }
        return ok, v;
      }
      if c == 0x22 {
        var s;
        ok, s := ReadString();
        return ok, String(s);
      }
      var word := Literal(TRUE_WORD);
      if word {
        return true, Bool(true);
      }
      word := Literal(FALSE_WORD);
      if word {
        return true, Bool(false);
      }
      word := Literal(NULL_WORD);
      if word {
        return true, Null;
      }
      ok, v := ReadNumber();
    }

    // The loop of ReadValue over the items of an array.
    method ReadItems() returns (ok: bool, v: Value)
      requires at <= |text| && 0 < depth <= MAX_DEPTH
      modifies this
      ensures at <= |text|
      ensures ok == ItemsFrom(text, old(at), old(depth), [], finite).Ok?
      ensures ok ==> ItemsFrom(text, old(at), old(depth), [], finite) == Parsed.Ok(v, at) && depth == old(depth) - 1
      decreases |text| - at, 3
    {
      hide ValueAt, SkipSpace;
      v := Null;
      var items: seq<Value> := [];
      while true
        invariant old(at) <= at <= |text| && depth == old(depth)
        invariant ItemsFrom(text, at, depth, items, finite) == ItemsFrom(text, old(at), old(depth), [], finite)
        decreases |text| - at
      {
        var read, item := ReadValue();
        if !read {
          return false, v;
        }
        items := items + [item];
        SkipBlanks();
        if at >= |text| {
          return false, v;
        }
        var next := text[at];
        at := at + 1;
        if next != 0x2C {
          if next != 0x5D {
            return false, v;
          }
          depth := depth - 1;
          return true, Array(items);
        }
      }
    }

    // The loop of ReadValue over the members of an object.
    method ReadMembers() returns (ok: bool, v: Value)
      requires at <= |text| && 0 < depth <= MAX_DEPTH
      modifies this
      ensures at <= |text|
      ensures ok == MembersFrom(text, old(at), old(depth), [], finite).Ok?
      ensures ok ==> MembersFrom(text, old(at), old(depth), [], finite) == Parsed.Ok(v, at) && depth == old(depth) - 1
      decreases |text| - at, 3
    {
      hide ValueAt, SkipSpace, StringAt, HasKey;
      v := Null;
      var members: seq<Member> := [];
      while true
        invariant old(at) <= at <= |text| && depth == old(depth)
        invariant MembersFrom(text, at, depth, members, finite) == MembersFrom(text, old(at), old(depth), [], finite)
        decreases |text| - at
      {
        SkipBlanks();
        var read, key := ReadString();
        if !read || HasKey(members, key) {
          return false, v;
        }
        SkipBlanks();
        if at >= |text| || text[at] != 0x3A {
          return false, v;
        }
        at := at + 1;
        var item;
        read, item := ReadValue();
        if !read {
          return false, v;
        }
        members := members + [Member(key, item)];
        SkipBlanks();
        if at >= |text| {
          return false, v;
        }
        var next := text[at];
        at := at + 1;
        if next != 0x2C {
          if next != 0x7D {
            return false, v;
          }
          depth := depth - 1;
          return true, Object(members);
        }
      }
    }
  }

  // One complete document. On refusal the value stays what it was.
  method ParseDocument(document: seq<byte>, finite: seq<byte> -> bool, before: Value) returns (ok: bool, out: Value)
    ensures ok == Parse(document, finite).Some?
    ensures out == if ok then Parse(document, finite).value else before
  {
    hide ValueAt, SkipSpace;
    var text := document;
    if |text| >= 3 && text[..3] == BYTE_ORDER_MARK {
      text := text[3..];
    }
    var parser := new Parser(text, finite);
    var read, parsed := parser.ReadValue();
    if !read {
      return false, before;
    }
    parser.SkipBlanks();
    if parser.at != |text| {
      return false, before;
    }
    return true, parsed;
  }
}
