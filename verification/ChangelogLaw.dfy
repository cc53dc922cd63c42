/** What a changelog must be and what it says, member by member, with every key and limit written out; and
    that the readers accept exactly that. */
module ChangelogLaw {
  import opened Common
  import opened Bits
  import opened Json
  import opened Versions
  import opened Changelog
  import ChangelogModes
  import opened ChangelogSkips
  import opened ChangelogJson
  import JsonSound

  // ----- What a document says -----

  // The value of the first member with this key.
  function Under(members: seq<Member>, key: string): Option<Value>
    decreases |members|
  {
    if members == [] then None
    else if members[0].key == Bytes(key) then Some(members[0].value)
    else Under(members[1..], key)
  }

  // The string there, which is not empty, or the empty one where there is nothing.
  ghost predicate TextTells(o: Option<Value>, text: seq<byte>) {
    if o.None? then text == [] else o.value == String(text) && text != []
  }

  ghost predicate NotesTell(o: Option<Value>, notes: seq<seq<byte>>) {
    if o.None? then notes == []
    else
      && o.value.Array? && |o.value.items| == |notes|
      && forall i :: 0 <= i < |notes| ==> o.value.items[i] == String(notes[i])
  }

  ghost predicate FeatureTells(v: Value, f: Feature) {
    && v.Object? && Under(v.members, "title") == Some(String(f.title))
      && Under(v.members, "text") == Some(String(f.text))
    && TextTells(Under(v.members, "image"), f.image)
  }

  ghost predicate FeaturesTell(o: Option<Value>, features: seq<Feature>) {
    if o.None? then features == []
    else
      && o.value.Array? && |o.value.items| == |features|
      && forall i :: 0 <= i < |features| ==> FeatureTells(o.value.items[i], features[i])
  }

  ghost predicate ReleaseTells(v: Value, r: Release) {
    && v.Object? && Under(v.members, "version") == Some(String(VersionText(r.version)))
    && TextTells(Under(v.members, "date"), r.date)
    && FeaturesTell(Under(v.members, "features"), r.features)
    && NotesTell(Under(v.members, "fixes"), r.fixes)
    && NotesTell(Under(v.members, "changes"), r.changes)
  }

  ghost predicate DocumentTells(v: Value, releases: seq<Release>) {
    && v.Object?
    && var o := Under(v.members, "releases");
       && o.Some? && o.value.Array? && |o.value.items| == |releases|
       && forall i :: 0 <= i < |releases| ==> ReleaseTells(o.value.items[i], releases[i])
  }

  // ----- What the source names by its keys -----

  lemma KeysAre()
    ensures VERSION_KEY == Bytes("version") && DATE_KEY == Bytes("date") && FEATURES_KEY == Bytes("features")
    ensures FIXES_KEY == Bytes("fixes") && CHANGES_KEY == Bytes("changes") && TITLE_KEY == Bytes("title")
    ensures TEXT_KEY == Bytes("text") && IMAGE_KEY == Bytes("image") && RELEASES_KEY == Bytes("releases")
  {
    BytesAre("version", VERSION_KEY);
    BytesAre("date", DATE_KEY);
    BytesAre("features", FEATURES_KEY);
    BytesAre("fixes", FIXES_KEY);
    BytesAre("changes", CHANGES_KEY);
    BytesAre("title", TITLE_KEY);
    BytesAre("text", TEXT_KEY);
    BytesAre("image", IMAGE_KEY);
    BytesAre("releases", RELEASES_KEY);
  }

  // ----- From a draft's field to what it was read from -----

  // A field keeps what it has; else it is what is read of the value found, where one is.
  ghost predicate Took<T>(draft: Option<T>, found: Option<Value>, read: Option<T>, result: Option<T>) {
    if draft.Some? then result == draft
    else if found.None? then result.None?
    else read.Some? && result == read
  }

  function ReadAs<T>(found: Option<Value>, read: Value -> Option<T>): Option<T> {
    if found.None? then None else read(found.value)
  }

  ghost predicate FeatureTook(members: seq<Member>, draft: FeatureDraft, d: FeatureDraft) {
    var t, x, i := Under(members, "title"), Under(members, "text"), Under(members, "image");
    && Took(draft.title, t, ReadAs(t, v => TextOf(v, MAX_TITLE)), d.title)
    && Took(draft.text, x, ReadAs(x, v => TextOf(v, MAX_TEXT)), d.text)
    && Took(draft.image, i, ReadAs(i, v => ImageOf(v)), d.image)
  }

  lemma {:induction false} FeatureInTook(members: seq<Member>, mode: Mode, draft: FeatureDraft)
    requires FeatureIn(members, mode, draft).Some?
    ensures FeatureTook(members, draft, FeatureIn(members, mode, draft).value)
    decreases |members|
  {
    KeysAre();
    FeatureKeys();
    hide TITLE_KEY, TEXT_KEY, IMAGE_KEY, Bytes, TextOf, ImageOf, Ignored;
    if members != [] {
      FeatureInTook(members[1..], mode, FeatureFieldOf(members[0], mode, draft).value);
    }
  }

  ghost predicate ReleaseTook(members: seq<Member>, mode: Mode, draft: ReleaseDraft, d: ReleaseDraft) {
    var v, t, f, x, c := Under(members, "version"), Under(members, "date"), Under(members, "features"),
                         Under(members, "fixes"), Under(members, "changes");
    && Took(draft.version, v, ReadAs(v, w => VersionIn(w)), d.version)
    && Took(draft.date, t, ReadAs(t, w => DateOf(w)), d.date)
    && Took(draft.features, f, ReadAs(f, w => FeaturesOf(w, mode)), d.features)
    && Took(draft.fixes, x, ReadAs(x, w => NotesOf(w)), d.fixes)
    && Took(draft.changes, c, ReadAs(c, w => NotesOf(w)), d.changes)
  }

  lemma {:induction false} ReleaseInTook(members: seq<Member>, mode: Mode, draft: ReleaseDraft)
    requires ReleaseIn(members, mode, draft).Some?
    ensures ReleaseTook(members, mode, draft, ReleaseIn(members, mode, draft).value)
    decreases |members|
  {
    KeysAre();
    ReleaseKeys();
    hide VERSION_KEY, DATE_KEY, FEATURES_KEY, FIXES_KEY, CHANGES_KEY, Bytes, VersionIn, DateOf, FeaturesOf, NotesOf,
      Ignored;
    if members != [] {
      ReleaseInTook(members[1..], mode, ReleaseFieldOf(members[0], mode, draft).value);
    }
  }

  // ----- Lists -----

  lemma {:induction false} NotesInAre(items: seq<Value>, notes: seq<seq<byte>>)
    requires NotesIn(items, notes).Some?
    ensures
      var all := NotesIn(items, notes).value;
      && |all| == |notes| + |items| && all[..|notes|] == notes
      && forall i :: 0 <= i < |items| ==> items[i] == String(all[|notes| + i])
    decreases |items|
  {
    hide Blank;
    if items != [] {
      var note := NoteOf(items[0]).value;
      NotesInAre(items[1..], notes + [note]);
      var all := NotesIn(items, notes).value;
      assert all[..|notes|] == all[..|notes| + 1][..|notes|];
      assert all[|notes|] == all[..|notes| + 1][|notes|] == note;
      assert forall i :: 1 <= i < |items| ==> items[i] == items[1..][i - 1];
    } else {
      assert notes[..|notes|] == notes;
    }
  }

  lemma NotesOfTell(v: Value)
    requires NotesOf(v).Some?
    ensures NotesTell(Some(v), NotesOf(v).value)
  {
    NotesInAre(v.items, []);
    hide NotesIn;
  }

  lemma FeatureForTells(v: Value, mode: Mode)
    requires FeatureFor(v, mode).Some?
    ensures FeatureTells(v, FeatureFor(v, mode).value)
  {
    FeatureInTook(v.members, mode, NO_FEATURE);
    NothingBlank();
    NoImage();
    hide FeatureIn, Blank, ValidImage, Bytes;
  }

  lemma NoImage()
    ensures !ValidImage([])
  {
  }

  lemma NothingBlank()
    ensures Blank([])
  {
  }

  lemma {:induction false} FeaturesInAre(items: seq<Value>, mode: Mode, features: seq<Feature>)
    requires FeaturesIn(items, mode, features).Some?
    ensures
      var all := FeaturesIn(items, mode, features).value;
      && |all| == |features| + |items| && all[..|features|] == features
      && forall i :: 0 <= i < |items| ==> FeatureTells(items[i], all[|features| + i])
    decreases |items|
  {
    hide FeatureFor, FeatureTells;
    if items != [] {
      var feature := FeatureFor(items[0], mode).value;
      FeatureForTells(items[0], mode);
      FeaturesInAre(items[1..], mode, features + [feature]);
      var all := FeaturesIn(items, mode, features).value;
      assert all[..|features|] == all[..|features| + 1][..|features|];
      assert all[|features|] == all[..|features| + 1][|features|] == feature;
      assert forall i :: 1 <= i < |items| ==> items[i] == items[1..][i - 1];
    } else {
      assert features[..|features|] == features;
    }
  }

  lemma FeaturesOfTell(v: Value, mode: Mode)
    requires FeaturesOf(v, mode).Some?
    ensures FeaturesTell(Some(v), FeaturesOf(v, mode).value)
  {
    hide FeaturesIn, FeatureTells, FeatureFor, Under, Bytes;
    FeaturesInAre(v.items, mode, []);
    var all := FeaturesIn(v.items, mode, []).value;
    assert forall i :: 0 <= i < |v.items| ==> all[0 + i] == all[i];
  }

  // ----- The fields of a release -----

  lemma TookVersion(o: Option<Value>, r: Option<Version>)
    requires Took(None, o, ReadAs(o, w => VersionIn(w)), r) && r.Some?
    ensures o == Some(String(VersionText(r.value)))
  {
    hide VersionOf, VersionText;
    VersionExact(o.value.text, r.value);
  }

  lemma TookDate(o: Option<Value>, r: Option<seq<byte>>)
    requires Took(None, o, ReadAs(o, w => DateOf(w)), r)
    ensures TextTells(o, All(r))
  {
  }

  lemma TookFeatures(o: Option<Value>, mode: Mode, r: Option<seq<Feature>>)
    requires Took(None, o, ReadAs(o, w => FeaturesOf(w, mode)), r)
    ensures FeaturesTell(o, All(r))
  {
    hide FeaturesTell, FeaturesOf;
    if o.Some? {
      FeaturesOfTell(o.value, mode);
    } else {
      assert FeaturesTell(o, []) by { NothingTells(); }
    }
  }

  lemma NothingTells()
    ensures FeaturesTell(None, []) && NotesTell(None, [])
  {
  }

  lemma TookNotes(o: Option<Value>, r: Option<seq<seq<byte>>>)
    requires Took(None, o, ReadAs(o, w => NotesOf(w)), r)
    ensures NotesTell(o, All(r))
  {
    hide NotesTell, NotesOf;
    if o.Some? {
      NotesOfTell(o.value);
    } else {
      assert NotesTell(o, []) by { NothingTells(); }
    }
  }

  lemma ReleaseForTells(v: Value, mode: Mode)
    requires ReleaseFor(v, mode).Some?
    ensures ReleaseTells(v, ReleaseFor(v, mode).value)
  {
    ReleaseInTook(v.members, mode, NO_RELEASE);
    var d := ReleaseIn(v.members, mode, NO_RELEASE).value;
    hide ReleaseIn, Bytes, Under, Took, FeaturesTell, NotesTell, TextTells, VersionText, All, HasContent, ReadAs;
    TookVersion(Under(v.members, "version"), d.version);
    TookDate(Under(v.members, "date"), d.date);
    TookFeatures(Under(v.members, "features"), mode, d.features);
    TookNotes(Under(v.members, "fixes"), d.fixes);
    TookNotes(Under(v.members, "changes"), d.changes);
  }

  lemma {:induction false} ReleasesInAre(items: seq<Value>, mode: Mode, releases: seq<Release>)
    requires ReleasesIn(items, mode, releases).Some?
    ensures
      var all := ReleasesIn(items, mode, releases).value;
      && |all| == |releases| + |items| && all[..|releases|] == releases
      && forall i :: 0 <= i < |items| ==> ReleaseTells(items[i], all[|releases| + i])
    decreases |items|
  {
    hide ReleaseFor, ReleaseTells, Follows;
    if items != [] {
      var release := ReleaseFor(items[0], mode).value;
      ReleaseForTells(items[0], mode);
      ReleasesInAre(items[1..], mode, releases + [release]);
      var all := ReleasesIn(items, mode, releases).value;
      assert all[..|releases|] == all[..|releases| + 1][..|releases|];
      assert all[|releases|] == all[..|releases| + 1][|releases|] == release;
      assert forall i :: 1 <= i < |items| ==> items[i] == items[1..][i - 1];
    } else {
      assert releases[..|releases|] == releases;
    }
  }

  lemma {:induction false} TopInAre(members: seq<Member>, mode: Mode, releases: Option<seq<Release>>)
    requires TopIn(members, mode, releases).Some?
    ensures
      var found := Under(members, "releases");
      Took(releases, found, ReadAs(found, w => ReleasesOf(w, mode)), TopIn(members, mode, releases).value)
    decreases |members|
  {
    KeysAre();
    hide RELEASES_KEY, Bytes, ReleasesOf, Ignored;
    if members != [] {
      TopInAre(members[1..], mode, TopFieldOf(members[0], mode, releases).value);
    }
  }

  lemma SchemaTells(v: Value, mode: Mode)
    requires Schema(v, mode).Some?
    ensures DocumentTells(v, Schema(v, mode).value)
  {
    TopInAre(v.members, mode, None);
    hide TopIn, ReleasesIn, ReleaseTells, Under, Bytes, ReleaseFor;
    var found, releases := Under(v.members, "releases"), Schema(v, mode).value;
    assert found.Some? && ReleasesOf(found.value, mode) == Some(releases);
    ReleasesOfTell(found.value, mode);
  }

  lemma ReleasesOfTell(v: Value, mode: Mode)
    requires ReleasesOf(v, mode).Some?
    ensures
      var releases := ReleasesOf(v, mode).value;
      && v.Array? && |v.items| == |releases|
      && forall i :: 0 <= i < |releases| ==> ReleaseTells(v.items[i], releases[i])
  {
    hide ReleasesIn, ReleaseTells, ReleaseFor, Under, Bytes;
    ReleasesInAre(v.items, mode, []);
    var all := ReleasesIn(v.items, mode, []).value;
    assert forall i :: 0 <= i < |v.items| ==> all[0 + i] == all[i];
  }

  // Every accepted JSON document, in either mode: the releases are, item by item and member by member,
  // what it says under their keys.
  lemma AcceptedTells(document: seq<byte>, mode: Mode, finite: seq<byte> -> bool)
    requires ParseChangelog(document, mode).Some? && (mode == Strict || Parse(document, finite).Some?)
    ensures Parse(document, finite).Some?
    ensures DocumentTells(Parse(document, finite).value, ParseChangelog(document, mode).value)
  {
    if mode == Strict {
      StrictIsJson(document, finite);
    } else {
      LenientIsJson(document, finite);
    }
    hide Parse, ParseChangelog, Schema, DocumentTells;
    SchemaTells(Parse(document, finite).value, mode);
  }
}
