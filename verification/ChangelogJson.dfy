/** Changelog reading against the JSON reader. Strictly, a changelog is accepted exactly when it is a JSON
    document of at most 64 KiB whose value fits the schema. Leniently, a JSON document is read by the same
    schema, in which a field the schema does not know is ignored. The releases are the ones the value
    describes. */
module ChangelogJson {
  import opened Common
  import opened Bits
  import opened Json
  import opened Versions
  import opened Changelog
  import opened ChangelogSteps
  import opened ChangelogSkips
  import opened JsonGrammar
  import JsonSound
  import JsonComplete

  // ----- The schema on JSON values -----

  function TextOf(v: Value, limit: nat): Option<seq<byte>> {
    if v.String? && |v.text| <= limit then Some(v.text) else None
  }

  function NoteOf(v: Value): Option<seq<byte>> {
    var t := TextOf(v, MAX_TEXT);
    if t.None? || Blank(t.value) then None else t
  }

  function ImageOf(v: Value): Option<seq<byte>> {
    var t := TextOf(v, MAX_IMAGE);
    if t.None? || !ValidImage(t.value) then None else t
  }

  function VersionIn(v: Value): Option<Version> {
    var t := TextOf(v, MAX_VERSION);
    if t.None? then None else VersionOf(t.value)
  }

  function DateOf(v: Value): Option<seq<byte>> {
    var t := TextOf(v, MAX_DATE);
    if t.None? || !ValidDate(t.value) then None else t
  }

  // The notes of further items, after those already taken.
  function NotesIn(items: seq<Value>, notes: seq<seq<byte>>): Option<seq<seq<byte>>>
    decreases |items|
  {
    if items == [] then Some(notes)
    else
      var note := if |notes| >= MAX_CHANGES then None else NoteOf(items[0]);
      if note.None? then None else NotesIn(items[1..], notes + [note.value])
  }

  function NotesOf(v: Value): Option<seq<seq<byte>>> {
    if v.Array? then NotesIn(v.items, []) else None
  }

  // A member the schema does not know, in a changelog that may be newer than its reader.
  predicate Ignored(m: Member, mode: Mode) {
    mode == Lenient && MemberSkippable(m, 0)
  }

  function FeatureFieldOf(m: Member, mode: Mode, draft: FeatureDraft): Option<FeatureDraft> {
    if m.key == TITLE_KEY && draft.title.None? then
      var t := TextOf(m.value, MAX_TITLE);
      if t.None? then None else Some(draft.(title := t))
    else if m.key == TEXT_KEY && draft.text.None? then
      var t := TextOf(m.value, MAX_TEXT);
      if t.None? then None else Some(draft.(text := t))
    else if m.key == IMAGE_KEY && draft.image.None? then
      var t := ImageOf(m.value);
      if t.None? then None else Some(draft.(image := t))
    else if Ignored(m, mode) then Some(draft)
    else None
  }

  function FeatureIn(members: seq<Member>, mode: Mode, draft: FeatureDraft): Option<FeatureDraft>
    decreases |members|
  {
    if members == [] then Some(draft)
    else
      var field := FeatureFieldOf(members[0], mode, draft);
      if field.None? then None else FeatureIn(members[1..], mode, field.value)
  }

  function FeatureFor(v: Value, mode: Mode): Option<Feature> {
    var draft := if v.Object? then FeatureIn(v.members, mode, NO_FEATURE) else None;
    if draft.None? then None else FeatureOf(draft.value)
  }

  function FeaturesIn(items: seq<Value>, mode: Mode, features: seq<Feature>): Option<seq<Feature>>
    decreases |items|
  {
    if items == [] then Some(features)
    else
      var feature := if |features| >= MAX_FEATURES then None else FeatureFor(items[0], mode);
      if feature.None? then None else FeaturesIn(items[1..], mode, features + [feature.value])
  }

  function FeaturesOf(v: Value, mode: Mode): Option<seq<Feature>> {
    if v.Array? then FeaturesIn(v.items, mode, []) else None
  }

  function ReleaseFieldOf(m: Member, mode: Mode, draft: ReleaseDraft): Option<ReleaseDraft> {
    if m.key == VERSION_KEY && draft.version.None? then
      var t := VersionIn(m.value);
      if t.None? then None else Some(draft.(version := t))
    else if m.key == DATE_KEY && draft.date.None? then
      var t := DateOf(m.value);
      if t.None? then None else Some(draft.(date := t))
    else if m.key == FEATURES_KEY && draft.features.None? then
      var t := FeaturesOf(m.value, mode);
      if t.None? then None else Some(draft.(features := t))
    else if m.key == FIXES_KEY && draft.fixes.None? then
      var t := NotesOf(m.value);
      if t.None? then None else Some(draft.(fixes := t))
    else if m.key == CHANGES_KEY && draft.changes.None? then
      var t := NotesOf(m.value);
      if t.None? then None else Some(draft.(changes := t))
    else if Ignored(m, mode) then Some(draft)
    else None
  }

  function ReleaseIn(members: seq<Member>, mode: Mode, draft: ReleaseDraft): Option<ReleaseDraft>
    decreases |members|
  {
    if members == [] then Some(draft)
    else
      var field := ReleaseFieldOf(members[0], mode, draft);
      if field.None? then None else ReleaseIn(members[1..], mode, field.value)
  }

  function ReleaseFor(v: Value, mode: Mode): Option<Release> {
    var draft := if v.Object? then ReleaseIn(v.members, mode, NO_RELEASE) else None;
    if draft.None? then None else ReleaseOf(draft.value)
  }

  function ReleasesIn(items: seq<Value>, mode: Mode, releases: seq<Release>): Option<seq<Release>>
    decreases |items|
  {
    if items == [] then Some(releases)
    else
      var release := if |releases| >= MAX_RELEASES then None else ReleaseFor(items[0], mode);
      if release.None? || !Follows(releases, release.value) then None
        else ReleasesIn(items[1..], mode, releases + [release.value])
  }

  function ReleasesOf(v: Value, mode: Mode): Option<seq<Release>> {
    if v.Array? then ReleasesIn(v.items, mode, []) else None
  }

  function TopFieldOf(m: Member, mode: Mode, releases: Option<seq<Release>>): Option<Option<seq<Release>>> {
    if m.key != RELEASES_KEY then if Ignored(m, mode) then Some(releases) else None
    else if releases.Some? || ReleasesOf(m.value, mode).None? then None
    else Some(ReleasesOf(m.value, mode))
  }

  function TopIn(members: seq<Member>, mode: Mode, releases: Option<seq<Release>>): Option<Option<seq<Release>>>
    decreases |members|
  {
    if members == [] then Some(releases)
    else
      var field := TopFieldOf(members[0], mode, releases);
      if field.None? then None else TopIn(members[1..], mode, field.value)
  }

  // There is at least one release.
  function Schema(v: Value, mode: Mode): Option<seq<Release>> {
    var top := if v.Object? then TopIn(v.members, mode, None) else None;
    if top.None? || All(top.value) == [] then None else Some(All(top.value))
  }

  // Strictly, the document has one member.
  lemma StrictSchemaIsReleases(v: Value)
    ensures Schema(v, Strict) ==
      if v.Object? && |v.members| == 1 && v.members[0].key == RELEASES_KEY
         && ReleasesOf(v.members[0].value, Strict).Some? && ReleasesOf(v.members[0].value, Strict).value != []
      then ReleasesOf(v.members[0].value, Strict) else None
  {
    hide ReleasesOf;
    if v.Object? {
      var members := v.members;
      if |members| >= 1 && TopFieldOf(members[0], Strict, None).Some? {
        assert members == [members[0]] + members[1..];
        TopInStep(members[0], members[1..], Strict, None);
        if |members| >= 2 {
          assert members[1..] == [members[1]] + members[2..];
          TopInStep(members[1], members[2..], Strict, TopFieldOf(members[0], Strict, None).value);
        }
      }
    }
  }

  // ----- Reading by schema is reading JSON and applying the schema -----

  // Where the two readings are compared: anywhere strictly, where there is a JSON value leniently.
  predicate Compared<T>(v: Parsed<T>, mode: Mode) {
    mode == Strict || v.Ok?
  }

  // The value ends there, too.
  predicate ComparedWithin<T>(text: seq<byte>, v: Parsed<T>, mode: Mode) {
    mode == Strict || (v.Ok? && Stops(text, v.at))
  }

  // What may be compared of a list of members may be compared of its first member and of the rest.
  lemma MembersCompared(text: seq<byte>, at: nat, mode: Mode, depth: nat, members: seq<Member>,
                        finite: seq<byte> -> bool)
    requires at <= |text| && Compared(MembersFrom(text, at, depth, members, finite), mode)
    ensures
      var m := MemberAt(text, at, depth, members, finite);
      && ComparedWithin(text, m, mode)
      && (m.Ok? && After(text, m.at, 0x7D).Comma? ==>
            Compared(MembersFrom(text, After(text, m.at, 0x7D).at, depth, members + [m.value], finite), mode))
  {
    var m := MemberAt(text, at, depth, members, finite);
    hide MemberAt, MembersFrom, After;
    MembersStep(text, at, depth, members, finite);
    if mode == Lenient {
      AfterEnds(text, m.at, 0x7D);
    }
  }

  lemma UnknownJson(text: seq<byte>, at: nat, mode: Mode, depth: nat, key: seq<byte>, finite: seq<byte> -> bool)
    requires at <= |text| && |key| <= MAX_KEY && ComparedWithin(text, ValueAt(text, at, depth, finite), mode)
    ensures
      var v := ValueAt(text, at, depth, finite);
      UnknownEnd(text, at, mode) == if v.Ok? && Ignored(Member(key, v.value), mode) then Some(v.at) else None
  {
    if mode == Lenient {
      SkipJson(text, at, 0, depth, finite);
    }
    hide ValueAt, Skip, Skippable;
  }

  // The schema's answer at the place the JSON reader stopped.
  function Through<T>(v: Parsed<Value>, o: Option<T>): Parsed<T> {
    if v.Ok? && o.Some? then Ok(o.value, v.at) else Fail
  }

  lemma TextJson(text: seq<byte>, at: nat, depth: nat, limit: nat, finite: seq<byte> -> bool)
    requires at <= |text| && depth < MAX_DEPTH
    ensures
      var v := ValueAt(text, at, depth, finite);
      TextAt(text, at, limit) == if v.Ok? then Through(v, TextOf(v.value, limit)) else Fail
  {
    ValueKinds(text, at, depth, finite);
    hide ValueAt, StringAt;
  }

  lemma NoteJson(text: seq<byte>, at: nat, depth: nat, finite: seq<byte> -> bool)
    requires at <= |text| && depth < MAX_DEPTH
    ensures
      var v := ValueAt(text, at, depth, finite);
      NoteAt(text, at) == if v.Ok? then Through(v, NoteOf(v.value)) else Fail
  {
    TextJson(text, at, depth, MAX_TEXT, finite);
    hide ValueAt, TextAt, TextOf, Blank;
  }

  lemma NotesStep(text: seq<byte>, at: nat, notes: seq<seq<byte>>)
    requires at <= |text|
    ensures
      var note := NoteAt(text, at);
      NotesFrom(text, at, notes) ==
        if |notes| >= MAX_CHANGES || note.Fail? then Fail
        else match After(text, note.at, 0x5D)
             case Comma(next) => NotesFrom(text, next, notes + [note.value])
             case Close(next) => Ok(notes + [note.value], next)
             case Neither => Fail
  {
    hide NoteAt, SkipSpace;
  }

  lemma NotesInStep(v: Value, rest: seq<Value>, notes: seq<seq<byte>>)
    ensures NotesIn([v] + rest, notes) ==
      if |notes| >= MAX_CHANGES || NoteOf(v).None? then None else NotesIn(rest, notes + [NoteOf(v).value])
    ensures NotesIn([], notes) == Some(notes)
  {
    assert ([v] + rest)[1..] == rest;
  }

  function NotesThrough(r: Parsed<Value>, k: nat, notes: seq<seq<byte>>): Parsed<seq<seq<byte>>> {
    Through(r, NotesIn(TailItems(r, k), notes))
  }

  lemma {:induction false} NotesFromJson(text: seq<byte>, at: nat, depth: nat, items: seq<Value>, notes: seq<seq<byte>>,
                                         finite: seq<byte> -> bool)
    requires at <= |text| && depth < MAX_DEPTH
    ensures NotesFrom(text, at, notes) == NotesThrough(ItemsFrom(text, at, depth, items, finite), |items|, notes)
    decreases |text| - at
  {
    var item, r := ValueAt(text, at, depth, finite), ItemsFrom(text, at, depth, items, finite);
    hide ValueAt, ItemsFrom, NoteAt, NoteOf, NotesFrom, NotesIn, After, TailItems;
    NotesStep(text, at, notes);
    ItemsStep(text, at, depth, items, finite);
    ItemsTail(text, at, depth, items, finite);
    NoteJson(text, at, depth, finite);
    if item.Ok? {
      NotesInStep(item.value, TailItems(r, |items| + 1), notes);
      if NoteOf(item.value).Some? && After(text, item.at, 0x5D).Comma? {
        NotesFromJson(text, After(text, item.at, 0x5D).at, depth, items + [item.value],
          notes + [NoteOf(item.value).value], finite);
      }
    }
  }

  lemma NotesJson(text: seq<byte>, at: nat, depth: nat, finite: seq<byte> -> bool)
    requires at <= |text| && depth + 1 < MAX_DEPTH
    ensures
      var v := ValueAt(text, at, depth, finite);
      NotesAt(text, at) == if v.Ok? then Through(v, NotesOf(v.value)) else Fail
  {
    hide ValueAt, NotesFrom, ItemsFrom, SkipSpace;
    Lists(text, at, depth, finite);
    var list := Past(text, at, 0x5B);
    if list.Some? {
      NotesFromJson(text, list.value, depth + 1, [], [], finite);
      ArrayKind(text, list.value, depth + 1, [], finite);
    }
  }

  // ----- Features -----

  lemma ImageJson(text: seq<byte>, at: nat, depth: nat, finite: seq<byte> -> bool)
    requires at <= |text| && depth < MAX_DEPTH
    ensures
      var v := ValueAt(text, at, depth, finite);
      ImageAt(text, at) == if v.Ok? then Through(v, ImageOf(v.value)) else Fail
  {
    TextJson(text, at, depth, MAX_IMAGE, finite);
    hide ValueAt, TextAt, TextOf, ValidImage;
  }

  lemma FeatureFieldJson(text: seq<byte>, at: nat, mode: Mode, depth: nat, key: seq<byte>, draft: FeatureDraft,
                         finite: seq<byte> -> bool)
    requires at <= |text| && depth < MAX_DEPTH && |key| <= MAX_KEY
    requires ComparedWithin(text, ValueAt(text, at, depth, finite), mode)
    ensures
      var v := ValueAt(text, at, depth, finite);
      FeatureField(text, at, mode, key, draft)
        == if v.Ok? then Through(v, FeatureFieldOf(Member(key, v.value), mode, draft)) else Fail
  {
    TextJson(text, at, depth, MAX_TITLE, finite);
    TextJson(text, at, depth, MAX_TEXT, finite);
    ImageJson(text, at, depth, finite);
    UnknownJson(text, at, mode, depth, key, finite);
    hide ValueAt, TextAt, TextOf, ImageAt, ImageOf, UnknownEnd, Ignored;
  }

  // A key read before is no longer open in the draft.
  ghost predicate FeatureKnows(members: seq<Member>, draft: FeatureDraft) {
    && (HasKey(members, TITLE_KEY) ==> draft.title.Some?) && (HasKey(members, TEXT_KEY) ==> draft.text.Some?)
    && (HasKey(members, IMAGE_KEY) ==> draft.image.Some?)
  }

  lemma HasKeyMore(members: seq<Member>, m: Member, key: seq<byte>)
    ensures HasKey(members + [m], key) <==> (HasKey(members, key) || m.key == key)
  {
    var more := members + [m];
    assert more[|members|] == m && forall i :: 0 <= i < |members| ==> more[i] == members[i];
  }

  lemma FeatureKeys()
    ensures TITLE_KEY != TEXT_KEY && TITLE_KEY != IMAGE_KEY && TEXT_KEY != IMAGE_KEY
    ensures |TITLE_KEY| <= MAX_KEY && |TEXT_KEY| <= MAX_KEY && |IMAGE_KEY| <= MAX_KEY
  {
    assert TITLE_KEY[0] != IMAGE_KEY[0];
  }

  lemma FeatureKnowsMore(members: seq<Member>, mode: Mode, draft: FeatureDraft, m: Member)
    requires FeatureKnows(members, draft) && FeatureFieldOf(m, mode, draft).Some?
    ensures FeatureKnows(members + [m], FeatureFieldOf(m, mode, draft).value)
        && (mode == Strict ==> !HasKey(members, m.key)) && |m.key| <= MAX_KEY
  {
    FeatureKeys();
    HasKeyMore(members, m, TITLE_KEY);
    HasKeyMore(members, m, TEXT_KEY);
    HasKeyMore(members, m, IMAGE_KEY);
    hide HasKey, TextOf, ImageOf;
  }

  // One member by the schema is one member of the JSON reader, taken by the schema.
  lemma FeatureMemberJson(text: seq<byte>, at: nat, mode: Mode, depth: nat, members: seq<Member>, draft: FeatureDraft,
                          finite: seq<byte> -> bool)
    requires at <= |text| && depth < MAX_DEPTH && FeatureKnows(members, draft)
    requires ComparedWithin(text, MemberAt(text, at, depth, members, finite), mode)
    ensures
      var m := MemberAt(text, at, depth, members, finite);
      FeatureMember(text, at, mode, draft) == if m.Ok? && FeatureFieldOf(m.value, mode, draft).Some?
        then Ok(FeatureFieldOf(m.value, mode, draft).value, m.at) else Fail
    ensures
      var m := MemberAt(text, at, depth, members, finite);
      m.Ok? && FeatureFieldOf(m.value, mode, draft).Some? ==>
        FeatureKnows(members + [m.value], FeatureFieldOf(m.value, mode, draft).value)
  {
    var key, m := KeyAt(text, at), MemberAt(text, at, depth, members, finite);
    MemberParts(text, at, depth, members, finite);
    if m.Ok? && FeatureFieldOf(m.value, mode, draft).Some? {
      FeatureKnowsMore(members, mode, draft, m.value);
    }
    if key.Ok? {
      FeatureFieldJson(text, key.at, mode, depth, key.value, draft, finite);
      var v := ValueAt(text, key.at, depth, finite);
      if v.Ok? && FeatureFieldOf(Member(key.value, v.value), mode, draft).Some? {
        FeatureKnowsMore(members, mode, draft, Member(key.value, v.value));
      }
    }
    hide ValueAt, KeyAt, MemberAt, FeatureField, FeatureFieldOf, HasKey, FeatureKnows;
  }

  function FeatureMember(text: seq<byte>, at: nat, mode: Mode, draft: FeatureDraft): Parsed<FeatureDraft>
    requires at <= |text|
  {
    var key := KeyAt(text, at);
    if key.Fail? then Fail else FeatureField(text, key.at, mode, key.value, draft)
  }

  lemma FeatureMembersStep(text: seq<byte>, at: nat, mode: Mode, draft: FeatureDraft)
    requires at <= |text|
    ensures
      var field := FeatureMember(text, at, mode, draft);
      && (field.Ok? ==> field.at <= |text|)
      && FeatureMembers(text, at, mode, draft) ==
           if field.Fail? then Fail
           else match After(text, field.at, 0x7D)
                case Comma(next) => FeatureMembers(text, next, mode, field.value)
                case Close(next) => Ok(field.value, next)
                case Neither => Fail
  {
    hide KeyAt, FeatureField, SkipSpace;
  }

  lemma FeatureInStep(m: Member, rest: seq<Member>, mode: Mode, draft: FeatureDraft)
    ensures FeatureIn([m] + rest, mode, draft) ==
      if FeatureFieldOf(m, mode, draft).None? then None else FeatureIn(rest, mode, FeatureFieldOf(m, mode, draft).value)
    ensures FeatureIn([], mode, draft) == Some(draft)
  {
    assert ([m] + rest)[1..] == rest;
  }

  function FeatureThrough(r: Parsed<Value>, k: nat, mode: Mode, draft: FeatureDraft): Parsed<FeatureDraft> {
    Through(r, FeatureIn(TailMembers(r, k), mode, draft))
  }

  lemma {:induction false} FeatureMembersJson(text: seq<byte>, at: nat, mode: Mode, depth: nat, members: seq<Member>,
                                              draft: FeatureDraft, finite: seq<byte> -> bool)
    requires at <= |text| && depth < MAX_DEPTH && FeatureKnows(members, draft)
    requires Compared(MembersFrom(text, at, depth, members, finite), mode)
    ensures FeatureMembers(text, at, mode, draft)
        == FeatureThrough(MembersFrom(text, at, depth, members, finite), |members|, mode, draft)
    decreases |text| - at
  {
    var m, r := MemberAt(text, at, depth, members, finite), MembersFrom(text, at, depth, members, finite);
    hide MemberAt, MembersFrom, FeatureMember, FeatureFieldOf, FeatureMembers, FeatureIn, FeatureKnows, After,
      TailMembers, Compared, ComparedWithin;
    FeatureMembersStep(text, at, mode, draft);
    MembersStep(text, at, depth, members, finite);
    MembersTail(text, at, depth, members, finite);
    MembersCompared(text, at, mode, depth, members, finite);
    FeatureMemberJson(text, at, mode, depth, members, draft, finite);
    if m.Ok? {
      FeatureInStep(m.value, TailMembers(r, |members| + 1), mode, draft);
      if FeatureFieldOf(m.value, mode, draft).Some? && After(text, m.at, 0x7D).Comma? {
        FeatureMembersJson(text, After(text, m.at, 0x7D).at, mode, depth, members + [m.value],
          FeatureFieldOf(m.value, mode, draft).value, finite);
      }
    }
  }

  lemma FeatureJson(text: seq<byte>, at: nat, mode: Mode, depth: nat, finite: seq<byte> -> bool)
    requires at <= |text| && depth + 1 < MAX_DEPTH
    requires Compared(ValueAt(text, at, depth, finite), mode)
    ensures
      var v := ValueAt(text, at, depth, finite);
      FeatureAt(text, at, mode) == if v.Ok? then Through(v, FeatureFor(v.value, mode)) else Fail
  {
    hide ValueAt, FeatureMembers, MembersFrom, SkipSpace, FeatureIn, FeatureOf;
    NothingRead(mode);
    Objects(text, at, depth, finite);
    var brace := Past(text, at, 0x7B);
    if brace.Some? && Past(text, brace.value, 0x7D).None? {
      FeatureMembersJson(text, brace.value, mode, depth + 1, [], NO_FEATURE, finite);
      ObjectKind(text, brace.value, depth + 1, [], finite);
    }
  }

  lemma FeaturesStep(text: seq<byte>, at: nat, mode: Mode, features: seq<Feature>)
    requires at <= |text|
    ensures
      var f := FeatureAt(text, at, mode);
      FeaturesFrom(text, at, mode, features) ==
        if |features| >= MAX_FEATURES || f.Fail? then Fail
        else match After(text, f.at, 0x5D)
             case Comma(next) => FeaturesFrom(text, next, mode, features + [f.value])
             case Close(next) => Ok(features + [f.value], next)
             case Neither => Fail
  {
    hide FeatureAt, SkipSpace;
    if |features| < MAX_FEATURES && FeatureAt(text, at, mode).Ok? {
      assert Past(text, FeatureAt(text, at, mode).at, 0x2C).Some?
        == After(text, FeatureAt(text, at, mode).at, 0x5D).Comma?;
    }
  }

  lemma FeaturesInStep(v: Value, rest: seq<Value>, mode: Mode, features: seq<Feature>)
    ensures FeaturesIn([v] + rest, mode, features) ==
      if |features| >= MAX_FEATURES || FeatureFor(v, mode).None? then None
        else FeaturesIn(rest, mode, features + [FeatureFor(v, mode).value])
    ensures FeaturesIn([], mode, features) == Some(features)
  {
    assert ([v] + rest)[1..] == rest;
    hide FeatureFor;
  }

  function FeaturesThrough(r: Parsed<Value>, k: nat, mode: Mode, features: seq<Feature>): Parsed<seq<Feature>> {
    Through(r, FeaturesIn(TailItems(r, k), mode, features))
  }

  lemma FeaturesThroughStep(text: seq<byte>, at: nat, mode: Mode, depth: nat, items: seq<Value>, features: seq<Feature>,
                            finite: seq<byte> -> bool)
    requires at <= |text| && depth + 1 < MAX_DEPTH
    requires Compared(ItemsFrom(text, at, depth, items, finite), mode)
    ensures
      var item, f := ValueAt(text, at, depth, finite), FeatureAt(text, at, mode);
      FeaturesThrough(ItemsFrom(text, at, depth, items, finite), |items|, mode, features) ==
        if |features| >= MAX_FEATURES || f.Fail? then Fail
        else match After(text, f.at, 0x5D)
             case Comma(next) =>
               if item.Fail? then Fail
               else FeaturesThrough(ItemsFrom(text, next, depth, items + [item.value], finite), |items| + 1, mode,
                 features + [f.value])
             case Close(next) => Ok(features + [f.value], next)
             case Neither => Fail
    ensures
      var item, f := ValueAt(text, at, depth, finite), FeatureAt(text, at, mode);
      f.Ok? ==> item.Ok? && item.at == f.at
  {
    var item, r := ValueAt(text, at, depth, finite), ItemsFrom(text, at, depth, items, finite);
    hide ValueAt, ItemsFrom, FeatureAt, FeatureFor, FeaturesIn, After, TailItems;
    ItemsStep(text, at, depth, items, finite);
    ItemsTail(text, at, depth, items, finite);
    FeatureJson(text, at, mode, depth, finite);
    if r.Ok? {
      var rest := TailItems(r, |items| + 1);
      FeaturesInStep(item.value, rest, mode, features);
      if FeatureFor(item.value, mode).Some? {
        FeaturesInStep(item.value, rest, mode, features + [FeatureFor(item.value, mode).value]);
      }
    }
  }

  lemma CommaCompared(text: seq<byte>, at: nat, mode: Mode, depth: nat, items: seq<Value>, finite: seq<byte> -> bool)
    requires at <= |text| && Compared(ItemsFrom(text, at, depth, items, finite), mode)
    ensures
      var item := ValueAt(text, at, depth, finite);
      item.Ok? && After(text, item.at, 0x5D).Comma? ==>
        Compared(ItemsFrom(text, After(text, item.at, 0x5D).at, depth, items + [item.value], finite), mode)
  {
    hide ValueAt, ItemsFrom, After;
    ItemsStep(text, at, depth, items, finite);
  }

  lemma {:induction false} FeaturesFromJson(text: seq<byte>, at: nat, mode: Mode, depth: nat, items: seq<Value>,
                                            features: seq<Feature>, finite: seq<byte> -> bool)
    requires at <= |text| && depth + 1 < MAX_DEPTH
    requires Compared(ItemsFrom(text, at, depth, items, finite), mode)
    ensures FeaturesFrom(text, at, mode, features)
        == FeaturesThrough(ItemsFrom(text, at, depth, items, finite), |items|, mode, features)
    decreases |text| - at
  {
    CommaCompared(text, at, mode, depth, items, finite);
    hide *;
    FeaturesThroughStep(text, at, mode, depth, items, features, finite);
    var f := FeatureAt(text, at, mode);
    if f.Ok? && After(text, f.at, 0x5D).Comma? {
      var next, more := After(text, f.at, 0x5D).at, items + [ValueAt(text, at, depth, finite).value];
      assert |more| == |items| + 1;
      FeaturesFromJson(text, next, mode, depth, more, features + [f.value], finite);
    }
    FeaturesStep(text, at, mode, features);
  }

  lemma FeaturesJson(text: seq<byte>, at: nat, mode: Mode, depth: nat, finite: seq<byte> -> bool)
    requires at <= |text| && depth + 2 < MAX_DEPTH
    requires Compared(ValueAt(text, at, depth, finite), mode)
    ensures
      var v := ValueAt(text, at, depth, finite);
      FeaturesAt(text, at, mode) == if v.Ok? then Through(v, FeaturesOf(v.value, mode)) else Fail
  {
    hide ValueAt, FeaturesFrom, ItemsFrom, SkipSpace;
    Lists(text, at, depth, finite);
    var list := Past(text, at, 0x5B);
    if list.Some? && Past(text, list.value, 0x5D).None? {
      FeaturesFromJson(text, list.value, mode, depth + 1, [], [], finite);
      ArrayKind(text, list.value, depth + 1, [], finite);
    }
  }

  // ----- Releases -----

  lemma VersionJson(text: seq<byte>, at: nat, depth: nat, finite: seq<byte> -> bool)
    requires at <= |text| && depth < MAX_DEPTH
    ensures
      var v := ValueAt(text, at, depth, finite);
      && VersionAt(text, at) == (if v.Ok? then Through(v, VersionIn(v.value)) else Fail)
      && DateAt(text, at) == (if v.Ok? then Through(v, DateOf(v.value)) else Fail)
  {
    TextJson(text, at, depth, MAX_VERSION, finite);
    TextJson(text, at, depth, MAX_DATE, finite);
    hide ValueAt, TextAt, TextOf, VersionOf, ValidDate;
  }

  lemma ReleaseFieldJson(text: seq<byte>, at: nat, mode: Mode, depth: nat, key: seq<byte>, draft: ReleaseDraft,
                         finite: seq<byte> -> bool)
    requires at <= |text| && depth + 2 < MAX_DEPTH && |key| <= MAX_KEY
    requires ComparedWithin(text, ValueAt(text, at, depth, finite), mode)
    ensures
      var v := ValueAt(text, at, depth, finite);
      ReleaseField(text, at, mode, key, draft)
        == if v.Ok? then Through(v, ReleaseFieldOf(Member(key, v.value), mode, draft)) else Fail
  {
    if key == VERSION_KEY || key == DATE_KEY {
      VersionJson(text, at, depth, finite);
    } else if key == FEATURES_KEY {
      FeaturesJson(text, at, mode, depth, finite);
    } else {
      NotesJson(text, at, depth, finite);
    }
    UnknownJson(text, at, mode, depth, key, finite);
    hide ValueAt, VersionAt, VersionIn, DateAt, DateOf, NotesAt, NotesOf, FeaturesAt, FeaturesOf, UnknownEnd, Ignored;
  }

  ghost predicate ReleaseKnows(members: seq<Member>, draft: ReleaseDraft) {
    && (HasKey(members, VERSION_KEY) ==> draft.version.Some?) && (HasKey(members, DATE_KEY) ==> draft.date.Some?)
    && (HasKey(members, FEATURES_KEY) ==> draft.features.Some?) && (HasKey(members, FIXES_KEY) ==> draft.fixes.Some?)
    && (HasKey(members, CHANGES_KEY) ==> draft.changes.Some?)
  }

  lemma ReleaseKeys()
    ensures VERSION_KEY != DATE_KEY && VERSION_KEY != FEATURES_KEY && VERSION_KEY != FIXES_KEY
        && VERSION_KEY != CHANGES_KEY
    ensures DATE_KEY != FEATURES_KEY && DATE_KEY != FIXES_KEY && DATE_KEY != CHANGES_KEY
    ensures FEATURES_KEY != FIXES_KEY && FEATURES_KEY != CHANGES_KEY && FIXES_KEY != CHANGES_KEY
    ensures |VERSION_KEY| <= MAX_KEY && |DATE_KEY| <= MAX_KEY && |FEATURES_KEY| <= MAX_KEY && |FIXES_KEY| <= MAX_KEY
    ensures |CHANGES_KEY| <= MAX_KEY
  {
    assert VERSION_KEY[0] != CHANGES_KEY[0];
  }

  lemma ReleaseKnowsMore(members: seq<Member>, mode: Mode, draft: ReleaseDraft, m: Member)
    requires ReleaseKnows(members, draft) && ReleaseFieldOf(m, mode, draft).Some?
    ensures ReleaseKnows(members + [m], ReleaseFieldOf(m, mode, draft).value)
        && (mode == Strict ==> !HasKey(members, m.key)) && |m.key| <= MAX_KEY
  {
    ReleaseKeys();
    HasKeyMore(members, m, VERSION_KEY);
    HasKeyMore(members, m, DATE_KEY);
    HasKeyMore(members, m, FEATURES_KEY);
    HasKeyMore(members, m, FIXES_KEY);
    HasKeyMore(members, m, CHANGES_KEY);
    hide HasKey, VersionIn, DateOf, NotesOf, FeaturesOf;
  }

  function ReleaseMember(text: seq<byte>, at: nat, mode: Mode, draft: ReleaseDraft): Parsed<ReleaseDraft>
    requires at <= |text|
  {
    var key := KeyAt(text, at);
    if key.Fail? then Fail else ReleaseField(text, key.at, mode, key.value, draft)
  }

  lemma ReleaseMemberJson(text: seq<byte>, at: nat, mode: Mode, depth: nat, members: seq<Member>, draft: ReleaseDraft,
                          finite: seq<byte> -> bool)
    requires at <= |text| && depth + 2 < MAX_DEPTH && ReleaseKnows(members, draft)
    requires ComparedWithin(text, MemberAt(text, at, depth, members, finite), mode)
    ensures
      var m := MemberAt(text, at, depth, members, finite);
      ReleaseMember(text, at, mode, draft) == if m.Ok? && ReleaseFieldOf(m.value, mode, draft).Some?
        then Ok(ReleaseFieldOf(m.value, mode, draft).value, m.at) else Fail
    ensures
      var m := MemberAt(text, at, depth, members, finite);
      m.Ok? && ReleaseFieldOf(m.value, mode, draft).Some? ==>
        ReleaseKnows(members + [m.value], ReleaseFieldOf(m.value, mode, draft).value)
  {
    var key, m := KeyAt(text, at), MemberAt(text, at, depth, members, finite);
    MemberParts(text, at, depth, members, finite);
    if m.Ok? && ReleaseFieldOf(m.value, mode, draft).Some? {
      ReleaseKnowsMore(members, mode, draft, m.value);
    }
    if key.Ok? {
      ReleaseFieldJson(text, key.at, mode, depth, key.value, draft, finite);
      var v := ValueAt(text, key.at, depth, finite);
      if v.Ok? && ReleaseFieldOf(Member(key.value, v.value), mode, draft).Some? {
        ReleaseKnowsMore(members, mode, draft, Member(key.value, v.value));
      }
    }
    hide ValueAt, KeyAt, MemberAt, ReleaseField, ReleaseFieldOf, HasKey, ReleaseKnows;
  }

  lemma ReleaseMembersStep(text: seq<byte>, at: nat, mode: Mode, draft: ReleaseDraft)
    requires at <= |text|
    ensures
      var field := ReleaseMember(text, at, mode, draft);
      && (field.Ok? ==> field.at <= |text|)
      && ReleaseMembers(text, at, mode, draft) ==
           if field.Fail? then Fail
           else match After(text, field.at, 0x7D)
                case Comma(next) => ReleaseMembers(text, next, mode, field.value)
                case Close(next) => Ok(field.value, next)
                case Neither => Fail
  {
    hide KeyAt, ReleaseField, SkipSpace;
  }

  lemma ReleaseInStep(m: Member, rest: seq<Member>, mode: Mode, draft: ReleaseDraft)
    ensures ReleaseIn([m] + rest, mode, draft) ==
      if ReleaseFieldOf(m, mode, draft).None? then None else ReleaseIn(rest, mode, ReleaseFieldOf(m, mode, draft).value)
    ensures ReleaseIn([], mode, draft) == Some(draft)
  {
    assert ([m] + rest)[1..] == rest;
    hide ReleaseFieldOf;
  }

  function ReleaseThrough(r: Parsed<Value>, k: nat, mode: Mode, draft: ReleaseDraft): Parsed<ReleaseDraft> {
    Through(r, ReleaseIn(TailMembers(r, k), mode, draft))
  }

  lemma {:induction false} ReleaseMembersJson(text: seq<byte>, at: nat, mode: Mode, depth: nat, members: seq<Member>,
                                              draft: ReleaseDraft, finite: seq<byte> -> bool)
    requires at <= |text| && depth + 2 < MAX_DEPTH && ReleaseKnows(members, draft)
    requires Compared(MembersFrom(text, at, depth, members, finite), mode)
    ensures ReleaseMembers(text, at, mode, draft)
        == ReleaseThrough(MembersFrom(text, at, depth, members, finite), |members|, mode, draft)
    decreases |text| - at
  {
    var m, r := MemberAt(text, at, depth, members, finite), MembersFrom(text, at, depth, members, finite);
    hide MemberAt, MembersFrom, ReleaseMember, ReleaseFieldOf, ReleaseMembers, ReleaseIn, ReleaseKnows, After,
      TailMembers, Compared, ComparedWithin;
    ReleaseMembersStep(text, at, mode, draft);
    MembersStep(text, at, depth, members, finite);
    MembersTail(text, at, depth, members, finite);
    MembersCompared(text, at, mode, depth, members, finite);
    ReleaseMemberJson(text, at, mode, depth, members, draft, finite);
    if m.Ok? {
      ReleaseInStep(m.value, TailMembers(r, |members| + 1), mode, draft);
      if ReleaseFieldOf(m.value, mode, draft).Some? && After(text, m.at, 0x7D).Comma? {
        ReleaseMembersJson(text, After(text, m.at, 0x7D).at, mode, depth, members + [m.value],
          ReleaseFieldOf(m.value, mode, draft).value, finite);
      }
    }
  }

  lemma NothingRead(mode: Mode)
    ensures !HasKey([], TITLE_KEY) && FeatureKnows([], NO_FEATURE) && ReleaseKnows([], NO_RELEASE)
    ensures FeatureIn([], mode, NO_FEATURE) == Some(NO_FEATURE) && FeatureOf(NO_FEATURE).None?
    ensures ReleaseIn([], mode, NO_RELEASE) == Some(NO_RELEASE) && ReleaseOf(NO_RELEASE).None?
  {
  }

  lemma ReleaseJson(text: seq<byte>, at: nat, mode: Mode, depth: nat, finite: seq<byte> -> bool)
    requires at <= |text| && depth + 3 < MAX_DEPTH
    requires Compared(ValueAt(text, at, depth, finite), mode)
    ensures
      var v := ValueAt(text, at, depth, finite);
      ReleaseAt(text, at, mode) == if v.Ok? then Through(v, ReleaseFor(v.value, mode)) else Fail
  {
    hide ValueAt, ReleaseMembers, MembersFrom, SkipSpace, ReleaseIn, ReleaseOf;
    NothingRead(mode);
    Objects(text, at, depth, finite);
    var brace := Past(text, at, 0x7B);
    if brace.Some? && Past(text, brace.value, 0x7D).None? {
      ReleaseMembersJson(text, brace.value, mode, depth + 1, [], NO_RELEASE, finite);
      ObjectKind(text, brace.value, depth + 1, [], finite);
    }
  }

  lemma ReleasesStep(text: seq<byte>, at: nat, mode: Mode, releases: seq<Release>)
    requires at <= |text|
    ensures
      var f := ReleaseAt(text, at, mode);
      ReleasesFrom(text, at, mode, releases) ==
        if |releases| >= MAX_RELEASES || f.Fail? || !Follows(releases, f.value) then Fail
        else match After(text, f.at, 0x5D)
             case Comma(next) => ReleasesFrom(text, next, mode, releases + [f.value])
             case Close(next) => Ok(releases + [f.value], next)
             case Neither => Fail
  {
    hide ReleaseAt, SkipSpace, Follows;
    if |releases| < MAX_RELEASES && ReleaseAt(text, at, mode).Ok? {
      assert Past(text, ReleaseAt(text, at, mode).at, 0x2C).Some?
        == After(text, ReleaseAt(text, at, mode).at, 0x5D).Comma?;
    }
  }

  lemma ReleasesInStep(v: Value, rest: seq<Value>, mode: Mode, releases: seq<Release>)
    ensures ReleasesIn([v] + rest, mode, releases) ==
      if |releases| >= MAX_RELEASES || ReleaseFor(v, mode).None?
        || !Follows(releases, ReleaseFor(v, mode).value) then None
      else ReleasesIn(rest, mode, releases + [ReleaseFor(v, mode).value])
    ensures ReleasesIn([], mode, releases) == Some(releases)
  {
    assert ([v] + rest)[1..] == rest;
    hide ReleaseFor, Follows;
  }

  function ReleasesThrough(r: Parsed<Value>, k: nat, mode: Mode, releases: seq<Release>): Parsed<seq<Release>> {
    Through(r, ReleasesIn(TailItems(r, k), mode, releases))
  }

  lemma {:induction false} ReleasesFromJson(text: seq<byte>, at: nat, mode: Mode, depth: nat, items: seq<Value>,
                                            releases: seq<Release>, finite: seq<byte> -> bool)
    requires at <= |text| && depth + 3 < MAX_DEPTH
    requires Compared(ItemsFrom(text, at, depth, items, finite), mode)
    ensures ReleasesFrom(text, at, mode, releases)
        == ReleasesThrough(ItemsFrom(text, at, depth, items, finite), |items|, mode, releases)
    decreases |text| - at
  {
    var item, r := ValueAt(text, at, depth, finite), ItemsFrom(text, at, depth, items, finite);
    hide ValueAt, ItemsFrom, ReleaseAt, ReleaseFor, ReleasesFrom, ReleasesIn, After, TailItems, Follows;
    ReleasesStep(text, at, mode, releases);
    ItemsStep(text, at, depth, items, finite);
    ItemsTail(text, at, depth, items, finite);
    ReleaseJson(text, at, mode, depth, finite);
    if item.Ok? {
      ReleasesInStep(item.value, TailItems(r, |items| + 1), mode, releases);
      if ReleaseFor(item.value, mode).Some? && After(text, item.at, 0x5D).Comma? {
        ReleasesFromJson(text, After(text, item.at, 0x5D).at, mode, depth, items + [item.value],
          releases + [ReleaseFor(item.value, mode).value], finite);
      }
    }
  }

  lemma ReleasesJson(text: seq<byte>, at: nat, mode: Mode, depth: nat, finite: seq<byte> -> bool)
    requires at <= |text| && depth + 4 < MAX_DEPTH
    requires Compared(ValueAt(text, at, depth, finite), mode)
    ensures
      var v := ValueAt(text, at, depth, finite);
      ReleasesAt(text, at, mode) == if v.Ok? then Through(v, ReleasesOf(v.value, mode)) else Fail
  {
    hide ValueAt, ReleasesFrom, ItemsFrom, SkipSpace;
    Lists(text, at, depth, finite);
    var list := Past(text, at, 0x5B);
    if list.Some? && Past(text, list.value, 0x5D).None? {
      ReleasesFromJson(text, list.value, mode, depth + 1, [], [], finite);
      ArrayKind(text, list.value, depth + 1, [], finite);
    }
  }

  // ----- The document -----

  function TopMember(text: seq<byte>, at: nat, mode: Mode, releases: Option<seq<Release>>): Parsed<Option<seq<Release>>>
    requires at <= |text|
  {
    var key := KeyAt(text, at);
    if key.Fail? then Fail else TopField(text, key.at, mode, key.value, releases)
  }

  lemma TopMemberJson(text: seq<byte>, at: nat, mode: Mode, depth: nat, members: seq<Member>,
                      releases: Option<seq<Release>>, finite: seq<byte> -> bool)
    requires at <= |text| && depth + 4 < MAX_DEPTH && (HasKey(members, RELEASES_KEY) ==> releases.Some?)
    requires ComparedWithin(text, MemberAt(text, at, depth, members, finite), mode)
    ensures
      var m := MemberAt(text, at, depth, members, finite);
      && TopMember(text, at, mode, releases)
        == (if m.Ok? && TopFieldOf(m.value, mode, releases).Some?
          then Ok(TopFieldOf(m.value, mode, releases).value, m.at) else Fail)
      && (m.Ok? && TopFieldOf(m.value, mode, releases).Some? && HasKey(members + [m.value], RELEASES_KEY) ==>
            TopFieldOf(m.value, mode, releases).value.Some?)
  {
    var key, m := KeyAt(text, at), MemberAt(text, at, depth, members, finite);
    MemberParts(text, at, depth, members, finite);
    if key.Ok? {
      TopFieldJson(text, key.at, mode, depth, key.value, releases, finite);
    }
    if m.Ok? {
      HasKeyMore(members, m.value, RELEASES_KEY);
    }
    hide ValueAt, KeyAt, MemberAt, ReleasesAt, ReleasesOf, HasKey, TopField, Skippable;
  }

  lemma TopFieldJson(text: seq<byte>, at: nat, mode: Mode, depth: nat, key: seq<byte>, releases: Option<seq<Release>>,
                     finite: seq<byte> -> bool)
    requires at <= |text| && depth + 4 < MAX_DEPTH && |key| <= MAX_KEY
    requires ComparedWithin(text, ValueAt(text, at, depth, finite), mode)
    ensures
      var v := ValueAt(text, at, depth, finite);
      TopField(text, at, mode, key, releases)
        == if v.Ok? then Through(v, TopFieldOf(Member(key, v.value), mode, releases)) else Fail
  {
    ReleasesJson(text, at, mode, depth, finite);
    UnknownJson(text, at, mode, depth, key, finite);
    hide ValueAt, ReleasesAt, ReleasesOf, UnknownEnd, Ignored;
  }

  lemma TopMembersStep(text: seq<byte>, at: nat, mode: Mode, releases: Option<seq<Release>>)
    requires at <= |text|
    ensures
      var field := TopMember(text, at, mode, releases);
      && (field.Ok? ==> field.at <= |text|)
      && TopMembers(text, at, mode, releases) ==
           if field.Fail? then Fail
           else match After(text, field.at, 0x7D)
                case Comma(next) => TopMembers(text, next, mode, field.value)
                case Close(next) => Ok(field.value, next)
                case Neither => Fail
  {
    hide KeyAt, TopField, SkipSpace;
  }

  lemma TopInStep(m: Member, rest: seq<Member>, mode: Mode, releases: Option<seq<Release>>)
    ensures TopIn([m] + rest, mode, releases) == if TopFieldOf(m, mode, releases).None? then None
        else TopIn(rest, mode, TopFieldOf(m, mode, releases).value)
    ensures TopIn([], mode, releases) == Some(releases)
  {
    assert ([m] + rest)[1..] == rest;
    hide TopFieldOf;
  }

  function TopThrough(r: Parsed<Value>, k: nat, mode: Mode,
                      releases: Option<seq<Release>>): Parsed<Option<seq<Release>>> {
    Through(r, TopIn(TailMembers(r, k), mode, releases))
  }

  lemma {:induction false} TopMembersJson(text: seq<byte>, at: nat, mode: Mode, depth: nat, members: seq<Member>,
                                          releases: Option<seq<Release>>, finite: seq<byte> -> bool)
    requires at <= |text| && depth + 4 < MAX_DEPTH && (HasKey(members, RELEASES_KEY) ==> releases.Some?)
    requires Compared(MembersFrom(text, at, depth, members, finite), mode)
    ensures TopMembers(text, at, mode, releases)
        == TopThrough(MembersFrom(text, at, depth, members, finite), |members|, mode, releases)
    decreases |text| - at
  {
    var m, r := MemberAt(text, at, depth, members, finite), MembersFrom(text, at, depth, members, finite);
    hide MemberAt, MembersFrom, TopMember, TopFieldOf, TopMembers, TopIn, After, TailMembers, HasKey, Compared,
      ComparedWithin;
    TopMembersStep(text, at, mode, releases);
    MembersStep(text, at, depth, members, finite);
    MembersTail(text, at, depth, members, finite);
    MembersCompared(text, at, mode, depth, members, finite);
    TopMemberJson(text, at, mode, depth, members, releases, finite);
    if m.Ok? {
      TopInStep(m.value, TailMembers(r, |members| + 1), mode, releases);
      if TopFieldOf(m.value, mode, releases).Some? && After(text, m.at, 0x7D).Comma? {
        TopMembersJson(text, After(text, m.at, 0x7D).at, mode, depth, members + [m.value],
          TopFieldOf(m.value, mode, releases).value, finite);
      }
    }
  }

  lemma TopJson(text: seq<byte>, at: nat, mode: Mode, finite: seq<byte> -> bool)
    requires at <= |text| && Compared(ValueAt(text, at, 0, finite), mode)
    ensures
      var v := ValueAt(text, at, 0, finite);
      TopAt(text, at, mode) == if v.Ok? then Through(v, Schema(v.value, mode)) else Fail
  {
    hide ValueAt, TopMembers, MembersFrom, SkipSpace, TopIn;
    Objects(text, at, 0, finite);
    var brace := Past(text, at, 0x7B);
    assert TopIn([], mode, None) == Some(None) by { TopInStep(Member([], Null), [], mode, None); }
    if brace.Some? && Past(text, brace.value, 0x7D).None? {
      assert !HasKey([], RELEASES_KEY);
      TopMembersJson(text, brace.value, mode, 1, [], None, finite);
      ObjectKind(text, brace.value, 1, [], finite);
    }
  }

  // A value, and nothing but blanks after it.
  predicate Whole(text: seq<byte>, start: nat, v: Value, finite: seq<byte> -> bool)
    requires start <= |text|
  {
    var r := ValueAt(text, start, 0, finite);
    r.Ok? && r.value == v && SkipSpace(text, r.at) == |text|
  }

  ghost predicate Spells(text: seq<byte>, start: nat, before: seq<byte>, t: Tree, after: seq<byte>)
    requires start <= |text|
  {
    Space(before) && Good(t) && Space(after) && text[start..] == before + Text(t) + after
  }

  lemma WholeSpells(text: seq<byte>, start: nat, v: Value, finite: seq<byte> -> bool)
    returns (before: seq<byte>, t: Tree, after: seq<byte>)
    requires start <= |text| && Whole(text, start, v, finite)
    ensures Spells(text, start, before, t, after) && Meaning(t) == v && Admitted(v, MAX_DEPTH, finite)
  {
    var r := ValueAt(text, start, 0, finite);
    hide ValueAt, SkipSpace, Text, Admitted, Meaning, Good, Space;
    before, t := JsonSound.ValueRead(text, start, 0, finite);
    JsonSound.SpaceSkipped(text, r.at);
    after := text[r.at..];
    assert text[r.at..|text|] == after;
    assert text[start..] == text[start..r.at] + text[r.at..];
  }

  lemma SpellsWhole(text: seq<byte>, start: nat, before: seq<byte>, t: Tree, after: seq<byte>,
                    finite: seq<byte> -> bool)
    requires start <= |text| && Spells(text, start, before, t, after) && Admitted(Meaning(t), MAX_DEPTH, finite)
    ensures Whole(text, start, Meaning(t), finite)
  {
    hide ValueAt, Text, Admitted, Meaning, Good;
    var end := start + |before| + |Text(t)|;
    assert text[start..end] == text[start..][..|before| + |Text(t)|] == before + Text(t);
    assert Word(text, start, before + Text(t));
    assert text[end..] == text[start..][|before| + |Text(t)|..] == after;
    JsonComplete.SkipsSpace(text, end, after);
    if after != [] {
      assert text[end] == after[0];
    }
    JsonComplete.ReadsValue(text, start, before, t, 0, finite);
  }

  // Where in a text a document stands does not matter.
  lemma WholeAnywhere(text: seq<byte>, start: nat, v: Value, finite: seq<byte> -> bool)
    requires start <= |text|
    ensures Whole(text, start, v, finite) <==> Whole(text[start..], 0, v, finite)
  {
    hide Whole;
    assert text[start..][0..] == text[start..];
    if Whole(text, start, v, finite) {
      var before, t, after := WholeSpells(text, start, v, finite);
      SpellsWhole(text[start..], 0, before, t, after, finite);
    }
    if Whole(text[start..], 0, v, finite) {
      var before, t, after := WholeSpells(text[start..], 0, v, finite);
      SpellsWhole(text, start, before, t, after, finite);
    }
  }

  lemma ReadsWhole(document: seq<byte>, start: nat, mode: Mode, finite: seq<byte> -> bool, releases: seq<Release>)
    requires |document| <= MAX_BYTES && start == if Word(document, 0, BYTE_ORDER_MARK) then 3 else 0
    requires Compared(ValueAt(document, start, 0, finite), mode)
    ensures
      var r := ValueAt(document, start, 0, finite);
      ParseChangelog(document, mode) == Some(releases) <==>
        r.Ok? && SkipSpace(document, r.at) == |document| && Schema(r.value, mode) == Some(releases)
  {
    TopJson(document, start, mode, finite);
    hide TopAt, Schema, ValueAt;
  }

  lemma ParseIsWhole(document: seq<byte>, start: nat, finite: seq<byte> -> bool, v: Value)
    requires start == if Word(document, 0, BYTE_ORDER_MARK) then 3 else 0
    ensures Parse(document, finite) == Some(v) <==> Whole(document[start..], 0, v, finite)
  {
    assert document[0..] == document;
    hide ValueAt;
  }

  lemma ReadsParsed(document: seq<byte>, mode: Mode, finite: seq<byte> -> bool)
    requires |document| <= MAX_BYTES && (mode == Strict || Parse(document, finite).Some?)
    ensures
      var v := Parse(document, finite);
      ParseChangelog(document, mode) == if v.None? then None else Schema(v.value, mode)
  {
    var start := if Word(document, 0, BYTE_ORDER_MARK) then 3 else 0;
    var r, parsed, v := ValueAt(document, start, 0, finite), ParseChangelog(document, mode), Parse(document, finite);
    hide Schema, Parse, ParseChangelog, ValueAt;
    if v.Some? {
      ParseIsWhole(document, start, finite, v.value);
      WholeAnywhere(document, start, v.value, finite);
      if Schema(v.value, mode).Some? {
        ReadsWhole(document, start, mode, finite, Schema(v.value, mode).value);
      }
    }
    if parsed.Some? {
      ReadsWhole(document, start, mode, finite, parsed.value);
      WholeAnywhere(document, start, r.value, finite);
      ParseIsWhole(document, start, finite, r.value);
    }
  }

  // The strict check accepts a text exactly when it is a JSON document of at most 64 KiB, read by the
  // JSON reader as a value that fits the schema, and returns the releases that value describes.
  lemma StrictIsJson(document: seq<byte>, finite: seq<byte> -> bool)
    ensures
      var v := Parse(document, finite);
      ParseChangelog(document, Strict) == if |document| > MAX_BYTES || v.None? then None else Schema(v.value, Strict)
  {
    if |document| <= MAX_BYTES {
      ReadsParsed(document, Strict, finite);
    }
    hide Schema, Parse;
  }

  // What readers of an older version make of a JSON document.
  lemma LenientIsJson(document: seq<byte>, finite: seq<byte> -> bool)
    requires Parse(document, finite).Some?
    ensures
      var v := Parse(document, finite).value;
      ParseChangelog(document, Lenient) == if |document| > MAX_BYTES then None else Schema(v, Lenient)
  {
    if |document| <= MAX_BYTES {
      ReadsParsed(document, Lenient, finite);
    }
    hide Schema, Parse;
  }
}
