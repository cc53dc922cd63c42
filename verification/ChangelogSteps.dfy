/** The JSON reader in the terms of the changelog reader: one item or member at a time, and the separator
    after it. */
module ChangelogSteps {
  import opened Bits
  import opened Json
  import opened Changelog

  // What a JSON value starts with tells what it is.
  lemma ValueKinds(text: seq<byte>, start: nat, depth: nat, finite: seq<byte> -> bool)
    requires start <= |text| && depth < MAX_DEPTH
    ensures
      var at, v := SkipSpace(text, start), ValueAt(text, start, depth, finite);
      && (v.Ok? && v.value.String? <==> StringAt(text, at).Ok?)
      && (StringAt(text, at).Ok? ==> v == Ok(String(StringAt(text, at).value), StringAt(text, at).at))
      && (v.Ok? && v.value.Array? ==> Is(text, at, 0x5B)) && (v.Ok? && v.value.Object? ==> Is(text, at, 0x7B))
  {
    var at := SkipSpace(text, start);
    if at < |text| {
      if text[at] == 0x7B {
        ObjectKind(text, SkipSpace(text, at + 1), depth + 1, [], finite);
      } else if text[at] == 0x5B {
        ArrayKind(text, SkipSpace(text, at + 1), depth + 1, [], finite);
      }
    }
    hide MembersFrom, ItemsFrom, StringFrom, WholeEnd, FractionEnd, ExponentEnd;
  }

  // The items read come after those there were.
  lemma {:induction false} ArrayKind(text: seq<byte>, at: nat, depth: nat, items: seq<Value>, finite: seq<byte> -> bool)
    requires at <= |text|
    ensures
      var r := ItemsFrom(text, at, depth, items, finite);
      r.Ok? ==>
        && r.value.Array? && |items| < |r.value.items| && r.value.items[..|items|] == items
        && ValueAt(text, at, depth, finite).Ok? && r.value.items[|items|] == ValueAt(text, at, depth, finite).value
    decreases |text| - at
  {
    hide ValueAt;
    var item := ValueAt(text, at, depth, finite);
    if item.Ok? {
      var end := SkipSpace(text, item.at);
      if Is(text, end, 0x2C) {
        ArrayKind(text, end + 1, depth, items + [item.value], finite);
        var r := ItemsFrom(text, at, depth, items, finite);
        hide ItemsFrom;
        if r.Ok? {
          assert r.value.items[..|items|] == r.value.items[..|items| + 1][..|items|];
        }
      }
    }
  }

  lemma {:induction false} ObjectKind(text: seq<byte>, at: nat, depth: nat, members: seq<Member>,
                                      finite: seq<byte> -> bool)
    requires at <= |text|
    ensures
      var r := MembersFrom(text, at, depth, members, finite);
      r.Ok? ==>
        && r.value.Object? && |members| < |r.value.members| && r.value.members[..|members|] == members
        && MemberAt(text, at, depth, members, finite).Ok?
        && r.value.members[|members|] == MemberAt(text, at, depth, members, finite).value
    decreases |text| - at
  {
    hide MemberAt;
    var member := MemberAt(text, at, depth, members, finite);
    if member.Ok? {
      var end := SkipSpace(text, member.at);
      if Is(text, end, 0x2C) {
        ObjectKind(text, end + 1, depth, members + [member.value], finite);
        var r := MembersFrom(text, at, depth, members, finite);
        hide MembersFrom;
        if r.Ok? {
          assert r.value.members[..|members|] == r.value.members[..|members| + 1][..|members|];
        }
      }
    }
  }

  function ItemsOf(v: Value): seq<Value> {
    if v.Array? then v.items else []
  }

  function MembersOf(v: Value): seq<Member> {
    if v.Object? then v.members else []
  }

  // ----- One item or member at a time -----

  datatype Separator = Comma(at: nat) | Close(at: nat) | Neither

  // What comes after an item, past any blanks.
  function After(text: seq<byte>, at: nat, close: byte): (s: Separator)
    requires at <= |text|
    ensures !s.Neither? ==> at < s.at <= |text|
  {
    var end := SkipSpace(text, at);
    if Is(text, end, 0x2C) then Comma(end + 1) else if Is(text, end, close) then Close(end + 1) else Neither
  }

  lemma ItemsStep(text: seq<byte>, at: nat, depth: nat, items: seq<Value>, finite: seq<byte> -> bool)
    requires at <= |text|
    ensures
      var item := ValueAt(text, at, depth, finite);
      ItemsFrom(text, at, depth, items, finite) ==
        if item.Fail? then Fail
        else match After(text, item.at, 0x5D)
             case Comma(next) => ItemsFrom(text, next, depth, items + [item.value], finite)
             case Close(next) => Ok(Array(items + [item.value]), next)
             case Neither => Fail
  {
    hide ValueAt, SkipSpace;
  }

  lemma MembersStep(text: seq<byte>, at: nat, depth: nat, members: seq<Member>, finite: seq<byte> -> bool)
    requires at <= |text|
    ensures
      var m := MemberAt(text, at, depth, members, finite);
      MembersFrom(text, at, depth, members, finite) ==
        if m.Fail? then Fail
        else match After(text, m.at, 0x7D)
             case Comma(next) => MembersFrom(text, next, depth, members + [m.value], finite)
             case Close(next) => Ok(Object(members + [m.value]), next)
             case Neither => Fail
  {
    hide MemberAt, SkipSpace;
  }

  // The items of a list from the k-th on.
  function TailItems(r: Parsed<Value>, k: nat): seq<Value> {
    if r.Ok? && k <= |ItemsOf(r.value)| then ItemsOf(r.value)[k..] else []
  }

  function TailMembers(r: Parsed<Value>, k: nat): seq<Member> {
    if r.Ok? && k <= |MembersOf(r.value)| then MembersOf(r.value)[k..] else []
  }

  lemma Unrolled<T>(s: seq<T>, k: nat)
    requires k < |s|
    ensures s[k..] == [s[k]] + s[k + 1..] && s[k..][0] == s[k] && s[k..][1..] == s[k + 1..]
  {
  }

  lemma ItemsTail(text: seq<byte>, at: nat, depth: nat, items: seq<Value>, finite: seq<byte> -> bool)
    requires at <= |text|
    ensures
      var item, r := ValueAt(text, at, depth, finite), ItemsFrom(text, at, depth, items, finite);
      r.Ok? ==>
        && item.Ok? && TailItems(r, |items|) == [item.value] + TailItems(r, |items| + 1)
        && (After(text, item.at, 0x5D).Close? ==> TailItems(r, |items| + 1) == [])
  {
    ArrayKind(text, at, depth, items, finite);
    ItemsStep(text, at, depth, items, finite);
    hide ValueAt, ItemsFrom, After;
    var r := ItemsFrom(text, at, depth, items, finite);
    if r.Ok? {
      Unrolled(ItemsOf(r.value), |items|);
    }
  }

  lemma MembersTail(text: seq<byte>, at: nat, depth: nat, members: seq<Member>, finite: seq<byte> -> bool)
    requires at <= |text|
    ensures
      var m, r := MemberAt(text, at, depth, members, finite), MembersFrom(text, at, depth, members, finite);
      r.Ok? ==>
        && m.Ok? && TailMembers(r, |members|) == [m.value] + TailMembers(r, |members| + 1)
        && (After(text, m.at, 0x7D).Close? ==> TailMembers(r, |members| + 1) == [])
  {
    ObjectKind(text, at, depth, members, finite);
    MembersStep(text, at, depth, members, finite);
    hide MemberAt, MembersFrom, After;
    var r := MembersFrom(text, at, depth, members, finite);
    if r.Ok? {
      Unrolled(MembersOf(r.value), |members|);
    }
  }

  // Blanks in front do not matter.
  lemma BlanksBeforeItems(text: seq<byte>, at: nat, depth: nat, items: seq<Value>, finite: seq<byte> -> bool)
    requires at <= |text|
    ensures ItemsFrom(text, SkipSpace(text, at), depth, items, finite) == ItemsFrom(text, at, depth, items, finite)
  {
    SameValue(text, at, depth, finite);
    ItemsStep(text, at, depth, items, finite);
    ItemsStep(text, SkipSpace(text, at), depth, items, finite);
    hide *;
  }

  lemma BlanksBeforeMembers(text: seq<byte>, at: nat, depth: nat, members: seq<Member>, finite: seq<byte> -> bool)
    requires at <= |text|
    ensures MembersFrom(text, SkipSpace(text, at), depth, members, finite)
        == MembersFrom(text, at, depth, members, finite)
  {
    SameMember(text, at, depth, members, finite);
    MembersStep(text, at, depth, members, finite);
    MembersStep(text, SkipSpace(text, at), depth, members, finite);
    hide *;
  }

  lemma SameMember(text: seq<byte>, at: nat, depth: nat, members: seq<Member>, finite: seq<byte> -> bool)
    requires at <= |text|
    ensures MemberAt(text, SkipSpace(text, at), depth, members, finite) == MemberAt(text, at, depth, members, finite)
  {
    SkipSpaceTwice(text, at);
    hide *;
    SameStart(text, SkipSpace(text, at), at, depth, members, finite);
  }

  lemma SameStart(text: seq<byte>, p: nat, q: nat, depth: nat, members: seq<Member>, finite: seq<byte> -> bool)
    requires p <= |text| && q <= |text| && SkipSpace(text, p) == SkipSpace(text, q)
    ensures MemberAt(text, p, depth, members, finite) == MemberAt(text, q, depth, members, finite)
  {
    hide SkipSpace, StringAt, ValueAt, HasKey, Is;
  }

  lemma SameValue(text: seq<byte>, at: nat, depth: nat, finite: seq<byte> -> bool)
    requires at <= |text|
    ensures ValueAt(text, SkipSpace(text, at), depth, finite) == ValueAt(text, at, depth, finite)
  {
    SkipSpaceTwice(text, at);
    hide MembersFrom, ItemsFrom, StringAt, NumberAt;
  }

  // A value that starts with a bracket, or with a brace.
  lemma Lists(text: seq<byte>, start: nat, depth: nat, finite: seq<byte> -> bool)
    requires start <= |text| && depth < MAX_DEPTH
    ensures
      var list, v := Past(text, start, 0x5B), ValueAt(text, start, depth, finite);
      if list.None? then !(v.Ok? && v.value.Array?)
      else v == if Past(text, list.value, 0x5D).Some? then Ok(Array([]), Past(text, list.value, 0x5D).value)
                else ItemsFrom(text, list.value, depth + 1, [], finite)
  {
    var at := SkipSpace(text, start);
    ValueKinds(text, start, depth, finite);
    if at < |text| {
      BlanksBeforeItems(text, at + 1, depth + 1, [], finite);
    }
    hide MembersFrom, ItemsFrom, StringAt, NumberAt, SkipSpace;
  }

  lemma Objects(text: seq<byte>, start: nat, depth: nat, finite: seq<byte> -> bool)
    requires start <= |text| && depth < MAX_DEPTH
    ensures
      var brace, v := Past(text, start, 0x7B), ValueAt(text, start, depth, finite);
      if brace.None? then !(v.Ok? && v.value.Object?)
      else v == if Past(text, brace.value, 0x7D).Some? then Ok(Object([]), Past(text, brace.value, 0x7D).value)
                else MembersFrom(text, brace.value, depth + 1, [], finite)
  {
    var at := SkipSpace(text, start);
    ValueKinds(text, start, depth, finite);
    if at < |text| {
      BlanksBeforeMembers(text, at + 1, depth + 1, [], finite);
    }
    hide MembersFrom, ItemsFrom, StringAt, NumberAt, SkipSpace;
  }

  // One member, read as JSON.
  lemma MemberParts(text: seq<byte>, at: nat, depth: nat, members: seq<Member>, finite: seq<byte> -> bool)
    requires at <= |text|
    ensures
      var key, m := KeyAt(text, at), MemberAt(text, at, depth, members, finite);
      && (m.Ok? && |m.value.key| <= MAX_KEY ==>
            key.Ok? && key.value == m.value.key && ValueAt(text, key.at, depth, finite) == Ok(m.value.value, m.at))
      && (m.Ok? && |m.value.key| > MAX_KEY ==> key.Fail?)
      && (m.Fail? && key.Ok? ==> HasKey(members, key.value) || ValueAt(text, key.at, depth, finite).Fail?)
  {
    hide ValueAt, StringAt, HasKey;
  }
}
