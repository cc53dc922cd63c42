/** Fields of a newer changelog that do hide the notes from an installed version: to any accepted changelog
    one can be added. */
module ChangelogHidden {
  import opened Common
  import opened Bits
  import opened Utf8
  import opened Json
  import opened JsonGrammar
  import JsonSound
  import JsonComplete
  import opened Versions
  import opened Changelog
  import ChangelogModes
  import opened ChangelogSkips
  import opened ChangelogJson
  import opened ChangelogKnown

  // ----- One field more -----

  function WithField(key: seq<Char>, value: Tree, ms: Members): Members {
    MoreMembers([], key, [], [], value, [], ms)
  }

  function FieldOf(key: seq<Char>, value: Tree): Member
    requires GoodChars(key) && Good(value)
  {
    Member(CharsBytes(key), Meaning(value))
  }

  lemma WithFieldMeans(key: seq<Char>, value: Tree, ms: Members)
    requires GoodChars(key) && Good(value) && GoodMembers(ms)
    ensures
      var t, u := FullObject(WithField(key, value, ms)), FullObject(ms);
      && Good(t) && Meaning(t) == Object([FieldOf(key, value)] + Pairs(ms))
      && |Text(t)| == |Text(u)| + |Quoted(key)| + |Text(value)| + 2
  {
    hide Text, Meaning, Quoted, CharsBytes;
    var more := WithField(key, value, ms);
    var t, u := FullObject(more), FullObject(ms);
    assert Text(t) == [0x7B] + MembersText(more) && Text(u) == [0x7B] + MembersText(ms)
      && Meaning(t) == Object(Pairs(more)) by {
      FullObjectIs(more);
      FullObjectIs(ms);
    }
    assert |MemberText(more)| == |Quoted(key)| + 1 + |Text(value)|;
    assert |MembersText(more)| == |MemberText(more)| + 1 + |MembersText(ms)|;
  }

  lemma FullObjectIs(ms: Members)
    requires GoodMembers(ms)
    ensures Text(FullObject(ms)) == [0x7B] + MembersText(ms) && Meaning(FullObject(ms)) == Object(Pairs(ms))
  {
  }

  // A field that cannot be passed over, in front of a changelog that is accepted, hides all its notes
  // from the lenient reader, although the rest of the document is as it was.
  lemma FieldHidesAll(document: seq<byte>, key: seq<Char>, value: Tree, finite: seq<byte> -> bool)
    returns (later: seq<byte>)
    requires ParseChangelog(document, Strict).Some?
    requires GoodChars(key) && Good(value) && Admitted(Meaning(value), MAX_DEPTH - 1, finite)
    requires CharsBytes(key) != RELEASES_KEY && !MemberSkippable(FieldOf(key, value), 0)
    requires |document| + |Quoted(key)| + |Text(value)| + 2 <= MAX_BYTES
    ensures |later| <= |document| + |Quoted(key)| + |Text(value)| + 2
    ensures Parse(document, finite).Some? && Parse(document, finite).value.Object?
    ensures
      var members := Parse(document, finite).value.members;
      var v := Object([FieldOf(key, value)] + members);
      && Parse(later, finite) == Some(v) && !Within(v)
      && Schema(Known(v), Strict) == ParseChangelog(document, Strict)
      && ParseChangelog(later, Lenient) == None
  {
    StrictIsJson(document, finite);
    var w := Parse(document, finite).value;
    var before, t, after := JsonSound.ParseSound(document, finite);
    StrictSchemaIsReleases(w);
    Accepted(document, w, finite);
    hide Parse, ParseChangelog, Schema, Within, Known, Meaning, Text, Quoted, CharsBytes, MemberSkippable, Admitted,
      Good, ReleasesOf;
    var ms := MembersOfTree(t);
    WithFieldMeans(key, value, ms);
    var u := FullObject(WithField(key, value, ms));
    var v := Object([FieldOf(key, value)] + w.members);
    AdmittedWith(FieldOf(key, value), w, finite);
    later := before + Text(u) + after;
    JsonComplete.ParseComplete(later, before, u, after, finite);
    FieldUnknown(FieldOf(key, value), w.members);
    LaterFieldsHideNothing(later, finite);
  }

  lemma MembersOfTree(t: Tree) returns (ms: Members)
    requires Good(t) && Meaning(t).Object? && |Meaning(t).members| == 1
    ensures GoodMembers(ms) && t == FullObject(ms) && Pairs(ms) == Meaning(t).members
  {
    ms := t.members;
  }

  lemma Accepted(document: seq<byte>, v: Value, finite: seq<byte> -> bool)
    requires ParseChangelog(document, Strict).Some? && Parse(document, finite) == Some(v) && |document| <= MAX_BYTES
    ensures Within(v) && Schema(Known(v), Strict) == ParseChangelog(document, Strict)
  {
    ChangelogModes.StrictImpliesLenient(document);
    LaterFieldsHideNothing(document, finite);
    hide Parse, ParseChangelog, Schema, Within, Known;
  }

  lemma AdmittedWith(m: Member, v: Value, finite: seq<byte> -> bool)
    requires v.Object? && |v.members| == 1 && v.members[0].key != m.key
    requires Admitted(v, MAX_DEPTH, finite) && Admitted(m.value, MAX_DEPTH - 1, finite)
    ensures Admitted(Object([m] + v.members), MAX_DEPTH, finite)
  {
    var all := [m] + v.members;
    assert all[..0] == [] && all[..1] == [m];
    assert DistinctKeys(all);
  }

  lemma FieldUnknown(m: Member, members: seq<Member>)
    requires m.key != RELEASES_KEY && !MemberSkippable(m, 0)
    ensures !Within(Object([m] + members)) && Known(Object([m] + members)) == Known(Object(members))
  {
    var all := [m] + members;
    assert all[0] == m && all[1..] == members;
    hide MemberSkippable;
    assert [] + KnownTopMembers(members) == KnownTopMembers(members);
  }

  // ----- Two kinds of such fields -----

  // Nothing but its name is too long.
  lemma LongNameHidesAll(document: seq<byte>, key: seq<Char>, finite: seq<byte> -> bool) returns (later: seq<byte>)
    requires ParseChangelog(document, Strict).Some?
    requires GoodChars(key) && |CharsBytes(key)| > MAX_KEY && |document| + |Quoted(key)| + 6 <= MAX_BYTES
    ensures |later| <= MAX_BYTES
    ensures
      var v := Parse(later, finite);
      v.Some? && Schema(Known(v.value), Strict) == ParseChangelog(document, Strict)
        && ParseChangelog(later, Lenient) == None
  {
    assert |RELEASES_KEY| <= MAX_KEY && Text(TNull) == NULL_WORD;
    later := FieldHidesAll(document, key, TNull, finite);
  }

  function Nested(depth: nat): Tree {
    if depth == 0 then TNull else FullArray(LastItem([], Nested(depth - 1), []))
  }

  lemma {:induction false} NestedIs(depth: nat, k: nat, room: nat, finite: seq<byte> -> bool)
    ensures Good(Nested(depth)) && |Text(Nested(depth))| == 4 + 2 * depth
    ensures Skippable(Meaning(Nested(depth)), k) <==> k + depth <= MAX_SKIP
    ensures depth <= room ==> Admitted(Meaning(Nested(depth)), room, finite)
    decreases depth
  {
    if depth > 0 {
      NestedIs(depth - 1, k + 1, if room > 0 then room - 1 else 0, finite);
      var items := LastItem([], Nested(depth - 1), []);
      assert GoodItems(items) && Values(items) == [Meaning(Nested(depth - 1))];
      assert |ItemsText(items)| == |Text(Nested(depth - 1))| + 1;
      var v := Meaning(Nested(depth));
      assert v == Array([Meaning(Nested(depth - 1))]) && v.items[0] == Meaning(Nested(depth - 1));
    }
  }

  // Nothing but its value is nested too deep: nine lists in one another.
  lemma DeepValueHidesAll(document: seq<byte>, finite: seq<byte> -> bool) returns (later: seq<byte>)
    requires ParseChangelog(document, Strict).Some? && |document| + 27 <= MAX_BYTES
    ensures |later| <= MAX_BYTES
    ensures
      var v := Parse(later, finite);
      v.Some? && Schema(Known(v.value), Strict) == ParseChangelog(document, Strict)
        && ParseChangelog(later, Lenient) == None
  {
    var key := Letters([LETTER]);
    LettersAre([LETTER]);
    NestedIs(MAX_SKIP + 1, 0, MAX_DEPTH - 1, finite);
    assert |RELEASES_KEY| > 1;
    hide Letters, Nested, Text, Meaning, Quoted, CharsBytes, Schema, Known, Parse, ParseChangelog, RELEASES_KEY;
    later := FieldHidesAll(document, key, Nested(MAX_SKIP + 1), finite);
  }

  // ----- A changelog that is accepted -----

  const LETTER: byte := 0x78
  const ONE: seq<byte> := [0x31, 0x2E, 0x30, 0x2E, 0x30]

  predicate Printable(bytes: seq<byte>) {
    forall i :: 0 <= i < |bytes| ==> 0x20 <= bytes[i] < 0x7F && bytes[i] != 0x22 && bytes[i] != 0x5C
  }

  function Letters(bytes: seq<byte>): seq<Char> {
    if bytes == [] then [] else [Plain(bytes[0])] + Letters(bytes[1..])
  }

  lemma {:induction false} LettersAre(bytes: seq<byte>)
    requires Printable(bytes)
    ensures GoodChars(Letters(bytes)) && CharsBytes(Letters(bytes)) == bytes && |Quoted(Letters(bytes))| == |bytes| + 2
  {
    if bytes != [] {
      LettersAre(bytes[1..]);
      var chars := Letters(bytes);
      assert chars[0] == Plain(bytes[0]) && chars[1..] == Letters(bytes[1..]);
      assert GoodChar(chars[0]) && Encode(bytes[0]) == [bytes[0]];
      assert forall i :: 1 <= i < |chars| ==> chars[i] == chars[1..][i - 1];
    }
  }

  function Only(key: seq<byte>, value: Tree): Members {
    LastMember([], Letters(key), [], [], value, [])
  }

  function OneItem(value: Tree): Tree {
    FullArray(LastItem([], value, []))
  }

  lemma OnlyIs(key: seq<byte>, value: Tree)
    requires Printable(key) && Good(value)
    ensures
      var t := FullObject(Only(key, value));
      && Good(t) && Meaning(t) == Object([Member(key, Meaning(value))]) && |Text(t)| == |key| + |Text(value)| + 5
      && GoodMembers(Only(key, value)) && Pairs(Only(key, value)) == [Member(key, Meaning(value))]
  {
    LettersAre(key);
    var ms := Only(key, value);
    hide Letters, CharsBytes, Quoted;
    FullObjectIs(ms);
    hide Text, Meaning;
    assert |MembersText(ms)| == |MemberText(ms)| + 1;
  }

  lemma OneItemIs(value: Tree)
    requires Good(value)
    ensures Good(OneItem(value)) && Meaning(OneItem(value)) == Array([Meaning(value)])
        && |Text(OneItem(value))| == |Text(value)| + 2
  {
  }

  // An object with a string, and a list of one string.
  function Pair(key: seq<byte>, text: seq<byte>, list: seq<byte>, item: seq<byte>): Tree {
    FullObject(WithField(Letters(key), TString(Letters(text)), Only(list, OneItem(TString(Letters(item))))))
  }

  // One release, with its version and one change.
  function Small(): Tree {
    FullObject(Only(RELEASES_KEY, OneItem(Pair(VERSION_KEY, ONE, CHANGES_KEY, [LETTER]))))
  }

  const SMALL_RELEASE := Release(Version(1, 0, 0), [], [], [], [[LETTER]])

  lemma StringIs(bytes: seq<byte>)
    requires Printable(bytes)
    ensures
      var t := TString(Letters(bytes));
      Good(t) && Meaning(t) == String(bytes) && |Text(t)| == |bytes| + 2
  {
    LettersAre(bytes);
    hide Letters, CharsBytes, Quoted;
  }

  function PairValue(key: seq<byte>, text: seq<byte>, list: seq<byte>, item: seq<byte>): Value {
    Object([Member(key, String(text)), Member(list, Array([String(item)]))])
  }

  lemma PairIs(key: seq<byte>, text: seq<byte>, list: seq<byte>, item: seq<byte>)
    requires Printable(key) && Printable(text) && Printable(list) && Printable(item)
    ensures
      var t := Pair(key, text, list, item);
      && Good(t) && Meaning(t) == PairValue(key, text, list, item)
      && |Text(t)| == |key| + |text| + |list| + |item| + 15
  {
    StringIs(item);
    StringIs(text);
    LettersAre(key);
    var x := TString(Letters(item));
    OneItemIs(x);
    OnlyIs(list, OneItem(x));
    WithFieldMeans(Letters(key), TString(Letters(text)), Only(list, OneItem(x)));
    hide Letters, Meaning, Text, Only, OneItem, Quoted, CharsBytes, Good, GoodMembers, Pairs, WithField;
  }

  lemma NestedPair(outer: seq<byte>, t: Tree)
    requires Printable(outer) && Good(t)
    ensures
      var all := FullObject(Only(outer, OneItem(t)));
      Good(all) && Meaning(all) == Object([Member(outer, Array([Meaning(t)]))])
        && |Text(all)| == |outer| + |Text(t)| + 7
  {
    OneItemIs(t);
    OnlyIs(outer, OneItem(t));
    hide Letters, Meaning, Text, Only, OneItem, Good;
  }

  const SMALL_VALUE := Object([Member(RELEASES_KEY, Array([PairValue(VERSION_KEY, ONE, CHANGES_KEY, [LETTER])]))])

  lemma SmallIs()
    ensures Good(Small()) && Meaning(Small()) == SMALL_VALUE && |Text(Small())| <= 100
  {
    hide Letters, Meaning, Text, Only, OneItem, Good, Pair, PairValue;
    PairIs(VERSION_KEY, ONE, CHANGES_KEY, [LETTER]);
    NestedPair(RELEASES_KEY, Pair(VERSION_KEY, ONE, CHANGES_KEY, [LETTER]));
  }

  lemma SmallFits(finite: seq<byte> -> bool)
    ensures Schema(SMALL_VALUE, Strict) == Some([SMALL_RELEASE]) && Admitted(SMALL_VALUE, MAX_DEPTH, finite)
  {
    var list := [String([LETTER])];
    var members := [Member(VERSION_KEY, String(ONE)), Member(CHANGES_KEY, Array(list))];
    var all := [Member(RELEASES_KEY, Array([Object(members)]))];
    assert members[..0] == [] && members[..1] == [members[0]] && all[..0] == [];
    assert VERSION_KEY[0] != CHANGES_KEY[0];
    assert DistinctKeys(members) && DistinctKeys(all);
    assert Admitted(Array(list), MAX_DEPTH - 3, finite);
    assert Admitted(Object(members), MAX_DEPTH - 2, finite);
    assert Admitted(Array([Object(members)]), MAX_DEPTH - 1, finite);
    SmallSchema();
    hide Schema, HasKey;
  }

  lemma SmallVersion()
    ensures VersionOf(ONE) == Some(Version(1, 0, 0))
  {
    assert Decimal(1) == [0x31] && Decimal(0) == [0x30];
    VersionExact(ONE, Version(1, 0, 0));
    hide VersionOf;
  }

  lemma SmallNotes()
    ensures NotesOf(Array([String([LETTER])])) == Some([[LETTER]])
  {
    var v := String([LETTER]);
    assert !IsSpace([LETTER][0]);
    assert NoteOf(v) == Some([LETTER]);
    hide NoteOf;
    assert [v] + [] == [v] && [] + [[LETTER]] == [[LETTER]];
    NotesInStep(v, [], []);
    NotesInStep(v, [], [[LETTER]]);
  }

  lemma SmallReleaseFits()
    ensures ReleaseFor(PairValue(VERSION_KEY, ONE, CHANGES_KEY, [LETTER]), Strict) == Some(SMALL_RELEASE)
  {
    SmallVersion();
    SmallNotes();
    ReleaseKeys();
    var v, c := Member(VERSION_KEY, String(ONE)), Member(CHANGES_KEY, Array([String([LETTER])]));
    hide VersionOf, NotesOf;
    var one := NO_RELEASE.(version := Some(Version(1, 0, 0)));
    var two := one.(changes := Some([[LETTER]]));
    assert ReleaseFieldOf(v, Strict, NO_RELEASE) == Some(one) && ReleaseFieldOf(c, Strict, one) == Some(two);
    assert ReleaseOf(two) == Some(SMALL_RELEASE);
    hide ReleaseFieldOf, ReleaseOf;
    assert [v] + [c] == [v, c] && [c] + [] == [c];
    ReleaseInStep(v, [c], Strict, NO_RELEASE);
    ReleaseInStep(c, [], Strict, one);
    ReleaseInStep(c, [], Strict, two);
    hide ReleaseIn;
  }

  lemma SmallSchema()
    ensures Schema(SMALL_VALUE, Strict) == Some([SMALL_RELEASE])
  {
    SmallReleaseFits();
    var r := PairValue(VERSION_KEY, ONE, CHANGES_KEY, [LETTER]);
    hide PairValue, ReleaseFor;
    assert [r] + [] == [r] && [] + [SMALL_RELEASE] == [SMALL_RELEASE];
    ReleasesInStep(r, [], Strict, []);
    ReleasesInStep(r, [], Strict, [SMALL_RELEASE]);
    hide ReleasesIn;
    StrictSchemaIsReleases(SMALL_VALUE);
    hide Schema;
  }

  // A changelog of one release with one change is accepted.
  lemma SmallAccepted(finite: seq<byte> -> bool)
    ensures Good(Small()) && |Text(Small())| <= 100 && ParseChangelog(Text(Small()), Strict) == Some([SMALL_RELEASE])
  {
    SmallIs();
    SmallFits(finite);
    var document := Text(Small());
    hide Small, Text, Meaning, Schema, Admitted, Good;
    assert document == [] + document + [];
    JsonComplete.ParseComplete(document, [], Small(), [], finite);
    StrictIsJson(document, finite);
  }

  // So there are documents an installed version reads nothing of, although what it knows of them is a
  // changelog it accepts: one with a name of 33 bytes, one with nine lists in one another.
  lemma NotesCanBeHidden(finite: seq<byte> -> bool) returns (named: seq<byte>, nested: seq<byte>)
    ensures HidesNotes(named, finite) && HidesNotes(nested, finite)
  {
    SmallAccepted(finite);
    var name := seq(MAX_KEY + 1, _ => LETTER);
    LettersAre(name);
    var document := Text(Small());
    hide Small, Text, Letters, Quoted, CharsBytes, Known, Schema, Parse, ParseChangelog, GoodChars;
    named := LongNameHidesAll(document, Letters(name), finite);
    nested := DeepValueHidesAll(document, finite);
  }

  ghost predicate HidesNotes(document: seq<byte>, finite: seq<byte> -> bool) {
    var v := Parse(document, finite);
    && |document| <= MAX_BYTES && v.Some? && Schema(Known(v.value), Strict).Some?
      && ParseChangelog(document, Lenient) == None
  }
}
