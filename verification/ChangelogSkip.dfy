/** What lenient reading passes over: any JSON value within bounds, and nothing shorter or longer. */
module ChangelogSkips {
  import opened Common
  import opened Bits
  import opened Json
  import opened Changelog
  import opened ChangelogSteps

  // A value that can be passed over, `depth` containers inside the unknown field: nested at most eight
  // deep, with keys of at most 32 bytes.
  predicate Skippable(v: Value, depth: nat) {
    && depth <= 8
    && match v
       case String(text) => |text| <= 65536
       case Array(items) => forall i :: 0 <= i < |items| ==> Skippable(items[i], depth + 1)
       case Object(members) =>
         forall i :: 0 <= i < |members| ==> |members[i].key| <= 32 && Skippable(members[i].value, depth + 1)
       case _ => true
  }

  // What may follow a value: not a byte that would prolong a number or a word.
  predicate Stops(text: seq<byte>, at: nat) {
    at < |text| ==> !PlainByte(text[at])
  }

  lemma AfterEnds(text: seq<byte>, at: nat, close: byte)
    requires at <= |text| && (close == 0x5D || close == 0x7D) && !After(text, at, close).Neither?
    ensures Stops(text, at)
  {
  }

  // ----- Words and numbers -----

  lemma {:induction false} SkipsPlain(text: seq<byte>, at: nat, end: nat)
    requires at <= end <= |text| && Stops(text, end) && forall i :: at <= i < end ==> PlainByte(text[i])
    ensures SkipPlain(text, at) == end
    decreases end - at
  {
    if at < end {
      SkipsPlain(text, at + 1, end);
    }
  }

  lemma {:induction false} DigitsArePlain(text: seq<byte>, at: nat)
    requires at <= |text|
    ensures forall i :: at <= i < SkipDigits(text, at) ==> PlainByte(text[i])
    decreases |text| - at
  {
    if at < |text| && IsDigit(text[at]) {
      DigitsArePlain(text, at + 1);
    }
  }

  lemma NumberIsPlain(text: seq<byte>, at: nat, finite: seq<byte> -> bool)
    requires at <= |text| && NumberAt(text, at, finite).Ok?
    ensures forall i :: at <= i < NumberAt(text, at, finite).at ==> PlainByte(text[i])
  {
    var start := if Is(text, at, 0x2D) then at + 1 else at;
    var whole := WholeEnd(text, start).value;
    var fraction := FractionEnd(text, whole).value;
    DigitsArePlain(text, start);
    if Is(text, whole, 0x2E) {
      DigitsArePlain(text, whole + 1);
    }
    if Is(text, fraction, 0x65) || Is(text, fraction, 0x45) {
      DigitsArePlain(text, if Is(text, fraction + 1, 0x2B) || Is(text, fraction + 1, 0x2D) then fraction + 2
        else fraction + 1);
    }
    hide SkipDigits;
  }

  predicate Opens(b: byte) {
    b == 0x22 || b == 0x7B || b == 0x5B
  }

  // A word or a number ends where its run of plain bytes ends.
  lemma AtomSkipped(text: seq<byte>, at: nat, depth: nat, finite: seq<byte> -> bool)
    requires at < |text| && SkipSpace(text, at) == at && !Opens(text[at])
    requires ValueAt(text, at, depth, finite).Ok? && Stops(text, ValueAt(text, at, depth, finite).at)
    ensures SkipPlain(text, at) == ValueAt(text, at, depth, finite).at
    ensures !ValueAt(text, at, depth, finite).value.Array? && !ValueAt(text, at, depth, finite).value.Object?
    ensures !ValueAt(text, at, depth, finite).value.String?
  {
    var end := ValueAt(text, at, depth, finite).at;
    hide SkipPlain, SkipSpace, WholeEnd, FractionEnd, ExponentEnd;
    if Word(text, at, TRUE_WORD) {
      WordIsPlain(text, at, TRUE_WORD);
    } else if Word(text, at, FALSE_WORD) {
      WordIsPlain(text, at, FALSE_WORD);
    } else if Word(text, at, NULL_WORD) {
      WordIsPlain(text, at, NULL_WORD);
    } else {
      NumberIsPlain(text, at, finite);
    }
    SkipsPlain(text, at, end);
  }

  lemma WordIsPlain(text: seq<byte>, at: nat, word: seq<byte>)
    requires Word(text, at, word) && forall i :: 0 <= i < |word| ==> PlainByte(word[i])
    ensures forall i :: at <= i < at + |word| ==> PlainByte(text[i])
  {
    forall i | at <= i < at + |word|
      ensures PlainByte(text[i])
    {
      assert text[i] == text[at..at + |word|][i - at] == word[i - at];
    }
  }

  // ----- Values -----

  function SkippedTo(v: Parsed<Value>, skippable: bool): Option<nat> {
    if v.Ok? && skippable then Some(v.at) else None
  }

  predicate AllSkippable(items: seq<Value>, depth: nat) {
    forall i :: 0 <= i < |items| ==> Skippable(items[i], depth)
  }

  predicate MemberSkippable(m: Member, depth: nat) {
    |m.key| <= MAX_KEY && Skippable(m.value, depth)
  }

  predicate MembersSkippable(members: seq<Member>, depth: nat) {
    forall i :: 0 <= i < |members| ==> MemberSkippable(members[i], depth)
  }

  // A JSON value is passed over, to its end, exactly when it is within the bounds.
  lemma {:induction false} SkipJson(text: seq<byte>, start: nat, k: nat, depth: nat, finite: seq<byte> -> bool)
    requires start <= |text|
    requires ValueAt(text, start, depth, finite).Ok? && Stops(text, ValueAt(text, start, depth, finite).at)
    ensures
      var v := ValueAt(text, start, depth, finite);
      Skip(text, start, k) == SkippedTo(v, Skippable(v.value, k))
    decreases |text| - start, 2
  {
    var at, v := SkipSpace(text, start), ValueAt(text, start, depth, finite);
    SkipSpaceTwice(text, start);
    SameValue(text, start, depth, finite);
    hide ValueAt, MembersFrom, ItemsFrom, SkipMembers, SkipItems, StringAt, SkipPlain;
    if k > MAX_SKIP {
    } else if Is(text, at, 0x7B) {
      SkipObjectJson(text, at, k, depth, finite);
    } else if Is(text, at, 0x5B) {
      SkipArrayJson(text, at, k, depth, finite);
    } else if Is(text, at, 0x22) {
      SkipStringJson(text, at, k, depth, finite);
    } else {
      AtomSkipped(text, at, depth, finite);
    }
  }

  lemma SkipStringJson(text: seq<byte>, at: nat, k: nat, depth: nat, finite: seq<byte> -> bool)
    requires at < |text| && SkipSpace(text, at) == at && text[at] == 0x22 && k <= MAX_SKIP
    requires ValueAt(text, at, depth, finite).Ok?
    ensures
      var v := ValueAt(text, at, depth, finite);
      Skip(text, at, k) == SkippedTo(v, Skippable(v.value, k))
  {
    hide StringFrom;
  }

  lemma {:induction false} SkipObjectJson(text: seq<byte>, at: nat, k: nat, depth: nat, finite: seq<byte> -> bool)
    requires at < |text| && SkipSpace(text, at) == at && text[at] == 0x7B && k <= MAX_SKIP
    requires ValueAt(text, at, depth, finite).Ok?
    ensures
      var v := ValueAt(text, at, depth, finite);
      Skip(text, at, k) == SkippedTo(v, Skippable(v.value, k))
    decreases |text| - at, 1
  {
    var v := ValueAt(text, at, depth, finite);
    ContainerDepth(text, at, depth, finite);
    OpenAt(text, at, 0x7B);
    Objects(text, at, depth, finite);
    SkipOpens(text, at, k);
    hide ValueAt, MembersFrom, SkipMembers, Skip, Past, Skippable, MembersSkippable;
    if Past(text, at + 1, 0x7D).None? {
      ObjectKind(text, at + 1, depth + 1, [], finite);
      SkipMembersJson(text, at + 1, k + 1, depth + 1, [], finite);
      assert v.value.members[0..] == v.value.members;
    } else {
      MembersSkippableNone(k + 1);
    }
    SkippableObject(v.value, k);
  }

  lemma SkippableObject(v: Value, k: nat)
    requires v.Object? && k <= MAX_SKIP
    ensures Skippable(v, k) <==> MembersSkippable(v.members, k + 1)
  {
  }

  lemma SkippableArray(v: Value, k: nat)
    requires v.Array? && k <= MAX_SKIP
    ensures Skippable(v, k) <==> AllSkippable(v.items, k + 1)
  {
  }

  lemma OpenAt(text: seq<byte>, at: nat, b: byte)
    requires at < |text| && SkipSpace(text, at) == at && text[at] == b
    ensures Past(text, at, b) == Some(at + 1)
  {
    hide SkipSpace;
  }

  lemma ContainerDepth(text: seq<byte>, at: nat, depth: nat, finite: seq<byte> -> bool)
    requires at < |text| && SkipSpace(text, at) == at && text[at] in {0x7B, 0x5B}
        && ValueAt(text, at, depth, finite).Ok?
    ensures depth < MAX_DEPTH
  {
    hide MembersFrom, ItemsFrom, SkipSpace;
  }

  lemma SkipOpens(text: seq<byte>, at: nat, k: nat)
    requires at < |text| && SkipSpace(text, at) == at && k <= MAX_SKIP
    ensures text[at] == 0x7B ==>
      Skip(text, at, k) == if Past(text, at + 1, 0x7D).Some? then Past(text, at + 1, 0x7D)
        else SkipMembers(text, at + 1, k + 1)
    ensures text[at] == 0x5B ==>
      Skip(text, at, k) == if Past(text, at + 1, 0x5D).Some? then Past(text, at + 1, 0x5D)
        else SkipItems(text, at + 1, k + 1)
  {
    hide SkipMembers, SkipItems, Past;
  }

  lemma {:induction false} SkipArrayJson(text: seq<byte>, at: nat, k: nat, depth: nat, finite: seq<byte> -> bool)
    requires at < |text| && SkipSpace(text, at) == at && text[at] == 0x5B && k <= MAX_SKIP
    requires ValueAt(text, at, depth, finite).Ok?
    ensures
      var v := ValueAt(text, at, depth, finite);
      Skip(text, at, k) == SkippedTo(v, Skippable(v.value, k))
    decreases |text| - at, 1
  {
    var v := ValueAt(text, at, depth, finite);
    ContainerDepth(text, at, depth, finite);
    OpenAt(text, at, 0x5B);
    Lists(text, at, depth, finite);
    SkipOpens(text, at, k);
    hide ValueAt, ItemsFrom, SkipItems, Skip, Past, Skippable, AllSkippable;
    if Past(text, at + 1, 0x5D).None? {
      ArrayKind(text, at + 1, depth + 1, [], finite);
      SkipItemsJson(text, at + 1, k + 1, depth + 1, [], finite);
      assert v.value.items[0..] == v.value.items;
    } else {
      MembersSkippableNone(k + 1);
    }
    SkippableArray(v.value, k);
  }

  lemma SkipMembersStep(text: seq<byte>, at: nat, k: nat)
    requires at <= |text|
    ensures
      var key := KeyAt(text, at);
      SkipMembers(text, at, k) ==
        if key.Fail? || Skip(text, key.at, k).None? then None
        else match After(text, Skip(text, key.at, k).value, 0x7D)
             case Comma(next) => SkipMembers(text, next, k)
             case Close(next) => Some(next)
             case Neither => None
  {
    hide KeyAt, Skip, SkipSpace;
  }

  lemma SkipItemsStep(text: seq<byte>, at: nat, k: nat)
    requires at <= |text|
    ensures
      SkipItems(text, at, k) ==
        if Skip(text, at, k).None? then None
        else match After(text, Skip(text, at, k).value, 0x5D)
             case Comma(next) => SkipItems(text, next, k)
             case Close(next) => Some(next)
             case Neither => None
  {
    hide Skip, SkipSpace;
  }

  lemma MembersSkippableStep(m: Member, rest: seq<Member>, k: nat)
    ensures MembersSkippable([m] + rest, k) <==> MemberSkippable(m, k) && MembersSkippable(rest, k)
  {
    var all := [m] + rest;
    assert all[0] == m && forall i :: 0 <= i < |rest| ==> rest[i] == all[i + 1];
    hide MemberSkippable;
  }

  lemma AllSkippableStep(v: Value, rest: seq<Value>, k: nat)
    ensures AllSkippable([v] + rest, k) <==> Skippable(v, k) && AllSkippable(rest, k)
  {
    var all := [v] + rest;
    assert all[0] == v && forall i :: 0 <= i < |rest| ==> rest[i] == all[i + 1];
    hide Skippable;
  }

  lemma {:induction false} SkipMembersJson(text: seq<byte>, at: nat, k: nat, depth: nat, members: seq<Member>,
                                           finite: seq<byte> -> bool)
    requires at <= |text| && MembersFrom(text, at, depth, members, finite).Ok?
    ensures
      var r := MembersFrom(text, at, depth, members, finite);
      SkipMembers(text, at, k) == SkippedTo(r, MembersSkippable(TailMembers(r, |members|), k))
    decreases |text| - at, 0
  {
    var key, m, r := KeyAt(text, at), MemberAt(text, at, depth, members, finite),
      MembersFrom(text, at, depth, members, finite);
    hide MemberAt, MembersFrom, Skip, SkipMembers, After, TailMembers, KeyAt, ValueAt, MembersSkippable, Skippable;
    MembersStep(text, at, depth, members, finite);
    MembersTail(text, at, depth, members, finite);
    MemberParts(text, at, depth, members, finite);
    SkipMembersStep(text, at, k);
    MembersSkippableStep(m.value, TailMembers(r, |members| + 1), k);
    if |m.value.key| <= MAX_KEY {
      AfterEnds(text, m.at, 0x7D);
      SkipJson(text, key.at, k, depth, finite);
      if After(text, m.at, 0x7D).Comma? {
        SkipMembersJson(text, After(text, m.at, 0x7D).at, k, depth, members + [m.value], finite);
      } else {
        assert MembersSkippable([], k) by { MembersSkippableNone(k); }
      }
    }
  }

  lemma MembersSkippableNone(k: nat)
    ensures MembersSkippable([], k) && AllSkippable([], k)
  {
  }

  lemma {:induction false} SkipItemsJson(text: seq<byte>, at: nat, k: nat, depth: nat, items: seq<Value>,
                                         finite: seq<byte> -> bool)
    requires at <= |text| && ItemsFrom(text, at, depth, items, finite).Ok?
    ensures
      var r := ItemsFrom(text, at, depth, items, finite);
      SkipItems(text, at, k) == SkippedTo(r, AllSkippable(TailItems(r, |items|), k))
    decreases |text| - at, 3
  {
    var item, r := ValueAt(text, at, depth, finite), ItemsFrom(text, at, depth, items, finite);
    hide ItemsFrom, Skip, SkipItems, After, TailItems, ValueAt, AllSkippable, Skippable;
    ItemsStep(text, at, depth, items, finite);
    ItemsTail(text, at, depth, items, finite);
    SkipItemsStep(text, at, k);
    AllSkippableStep(item.value, TailItems(r, |items| + 1), k);
    AfterEnds(text, item.at, 0x5D);
    SkipJson(text, at, k, depth, finite);
    if After(text, item.at, 0x5D).Comma? {
      SkipItemsJson(text, After(text, item.at, 0x5D).at, k, depth, items + [item.value], finite);
    } else {
      MembersSkippableNone(k);
    }
  }
}
