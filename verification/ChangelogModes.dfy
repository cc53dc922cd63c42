/** What strict and lenient reading of a changelog have in common, and what every accepted list is like. */
module ChangelogModes {
  import opened Common
  import opened Bits
  import opened Json
  import opened Versions
  import opened Changelog

  // ----- Strict acceptance is lenient acceptance -----

  lemma FeatureFieldModes(text: seq<byte>, at: nat, key: seq<byte>, draft: FeatureDraft)
    requires at <= |text| && FeatureField(text, at, Strict, key, draft).Ok?
    ensures FeatureField(text, at, Lenient, key, draft) == FeatureField(text, at, Strict, key, draft)
  {
    hide TextAt, ImageAt;
  }

  lemma {:induction false} FeatureMembersModes(text: seq<byte>, at: nat, draft: FeatureDraft)
    requires at <= |text| && FeatureMembers(text, at, Strict, draft).Ok?
    ensures FeatureMembers(text, at, Lenient, draft) == FeatureMembers(text, at, Strict, draft)
    decreases |text| - at
  {
    var key := KeyAt(text, at);
    FeatureFieldModes(text, key.at, key.value, draft);
    hide KeyAt, FeatureField;
    var field := FeatureField(text, key.at, Strict, key.value, draft);
    if Past(text, field.at, 0x2C).Some? {
      FeatureMembersModes(text, Past(text, field.at, 0x2C).value, field.value);
    }
  }

  lemma FeatureModes(text: seq<byte>, at: nat)
    requires at <= |text| && FeatureAt(text, at, Strict).Ok?
    ensures FeatureAt(text, at, Lenient) == FeatureAt(text, at, Strict)
  {
    FeatureMembersModes(text, Past(text, at, 0x7B).value, NO_FEATURE);
    hide FeatureMembers;
  }

  lemma {:induction false} FeaturesModes(text: seq<byte>, at: nat, features: seq<Feature>)
    requires at <= |text| && FeaturesFrom(text, at, Strict, features).Ok?
    ensures FeaturesFrom(text, at, Lenient, features) == FeaturesFrom(text, at, Strict, features)
    decreases |text| - at
  {
    FeatureModes(text, at);
    hide FeatureAt;
    var feature := FeatureAt(text, at, Strict);
    if Past(text, feature.at, 0x2C).Some? {
      FeaturesModes(text, Past(text, feature.at, 0x2C).value, features + [feature.value]);
    }
  }

  lemma ReleaseFieldModes(text: seq<byte>, at: nat, key: seq<byte>, draft: ReleaseDraft)
    requires at <= |text| && ReleaseField(text, at, Strict, key, draft).Ok?
    ensures ReleaseField(text, at, Lenient, key, draft) == ReleaseField(text, at, Strict, key, draft)
  {
    hide TextAt, VersionAt, DateAt, NotesAt, FeaturesFrom;
    if key == FEATURES_KEY && draft.features.None? && Past(text, at, 0x5B).Some? {
      var first := Past(text, at, 0x5B).value;
      if Past(text, first, 0x5D).None? && FeaturesFrom(text, first, Strict, []).Ok? {
        FeaturesModes(text, first, []);
      }
    }
  }

  lemma {:induction false} ReleaseMembersModes(text: seq<byte>, at: nat, draft: ReleaseDraft)
    requires at <= |text| && ReleaseMembers(text, at, Strict, draft).Ok?
    ensures ReleaseMembers(text, at, Lenient, draft) == ReleaseMembers(text, at, Strict, draft)
    decreases |text| - at
  {
    var key := KeyAt(text, at);
    ReleaseFieldModes(text, key.at, key.value, draft);
    hide KeyAt, ReleaseField;
    var field := ReleaseField(text, key.at, Strict, key.value, draft);
    if Past(text, field.at, 0x2C).Some? {
      ReleaseMembersModes(text, Past(text, field.at, 0x2C).value, field.value);
    }
  }

  lemma ReleaseModes(text: seq<byte>, at: nat)
    requires at <= |text| && ReleaseAt(text, at, Strict).Ok?
    ensures ReleaseAt(text, at, Lenient) == ReleaseAt(text, at, Strict)
  {
    ReleaseMembersModes(text, Past(text, at, 0x7B).value, NO_RELEASE);
    hide ReleaseMembers;
  }

  lemma {:induction false} ReleasesModes(text: seq<byte>, at: nat, releases: seq<Release>)
    requires at <= |text| && ReleasesFrom(text, at, Strict, releases).Ok?
    ensures ReleasesFrom(text, at, Lenient, releases) == ReleasesFrom(text, at, Strict, releases)
    decreases |text| - at
  {
    ReleaseModes(text, at);
    hide ReleaseAt, Follows;
    var release := ReleaseAt(text, at, Strict);
    if Past(text, release.at, 0x2C).Some? {
      ReleasesModes(text, Past(text, release.at, 0x2C).value, releases + [release.value]);
    }
  }

  lemma TopFieldModes(text: seq<byte>, at: nat, key: seq<byte>, releases: Option<seq<Release>>)
    requires at <= |text| && TopField(text, at, Strict, key, releases).Ok?
    ensures TopField(text, at, Lenient, key, releases) == TopField(text, at, Strict, key, releases)
  {
    hide ReleasesFrom;
    var first := Past(text, at, 0x5B).value;
    if Past(text, first, 0x5D).None? {
      ReleasesModes(text, first, []);
    }
  }

  lemma {:induction false} TopMembersModes(text: seq<byte>, at: nat, releases: Option<seq<Release>>)
    requires at <= |text| && TopMembers(text, at, Strict, releases).Ok?
    ensures TopMembers(text, at, Lenient, releases) == TopMembers(text, at, Strict, releases)
    decreases |text| - at
  {
    var key := KeyAt(text, at);
    TopFieldModes(text, key.at, key.value, releases);
    hide KeyAt, TopField;
    var field := TopField(text, key.at, Strict, key.value, releases);
    if Past(text, field.at, 0x2C).Some? {
      TopMembersModes(text, Past(text, field.at, 0x2C).value, field.value);
    }
  }

  // Whatever the repository's strict check accepts, an installed version reads the same way.
  lemma StrictImpliesLenient(document: seq<byte>)
    requires ParseChangelog(document, Strict).Some?
    ensures ParseChangelog(document, Lenient) == ParseChangelog(document, Strict)
  {
    var start := if Word(document, 0, BYTE_ORDER_MARK) then 3 else 0;
    TopMembersModes(document, Past(document, start, 0x7B).value, None);
    hide TopMembers, Past;
  }

  // ----- Every accepted list -----

  ghost predicate Bounded(draft: ReleaseDraft) {
    && (draft.version.Some? ==> Fits(draft.version.value)) && (draft.date.Some? ==> ValidDate(draft.date.value))
    && |All(draft.features)| <= MAX_FEATURES && |All(draft.fixes)| <= MAX_CHANGES && |All(draft.changes)| <= MAX_CHANGES
    && AllFeatures(All(draft.features)) && AllNotes(All(draft.fixes)) && AllNotes(All(draft.changes))
  }

  ghost predicate AllFeatures(features: seq<Feature>) {
    forall f :: f in features ==> ValidFeature(f)
  }

  ghost predicate AllNotes(notes: seq<seq<byte>>) {
    forall n :: n in notes ==> ValidNote(n)
  }

  predicate FeatureBounded(draft: FeatureDraft) {
    |All(draft.title)| <= MAX_TITLE && |All(draft.text)| <= MAX_TEXT
      && (draft.image.Some? ==> ValidImage(draft.image.value))
  }

  lemma FeatureFieldKeeps(text: seq<byte>, at: nat, mode: Mode, key: seq<byte>, draft: FeatureDraft)
    requires at <= |text| && FeatureBounded(draft)
    ensures
      var r := FeatureField(text, at, mode, key, draft);
      r.Ok? ==> FeatureBounded(r.value)
  {
    hide ValidImage, TextAt;
  }

  lemma {:induction false} FeatureMembersKeep(text: seq<byte>, at: nat, mode: Mode, draft: FeatureDraft)
    requires at <= |text| && FeatureBounded(draft) && FeatureMembers(text, at, mode, draft).Ok?
    ensures FeatureBounded(FeatureMembers(text, at, mode, draft).value)
    decreases |text| - at
  {
    var key := KeyAt(text, at);
    FeatureFieldKeeps(text, key.at, mode, key.value, draft);
    hide KeyAt, FeatureField, FeatureBounded;
    var field := FeatureField(text, key.at, mode, key.value, draft);
    if Past(text, field.at, 0x2C).Some? {
      FeatureMembersKeep(text, Past(text, field.at, 0x2C).value, mode, field.value);
    }
  }

  lemma FeatureIsValid(text: seq<byte>, at: nat, mode: Mode)
    requires at <= |text| && FeatureAt(text, at, mode).Ok?
    ensures ValidFeature(FeatureAt(text, at, mode).value)
  {
    FeatureMembersKeep(text, Past(text, at, 0x7B).value, mode, NO_FEATURE);
    hide FeatureMembers, ValidImage;
  }

  lemma {:induction false} FeaturesKeep(text: seq<byte>, at: nat, mode: Mode, features: seq<Feature>)
    requires at <= |text| && AllFeatures(features) && FeaturesFrom(text, at, mode, features).Ok?
    ensures
      var r := FeaturesFrom(text, at, mode, features).value;
      AllFeatures(r) && |r| <= MAX_FEATURES
    decreases |text| - at
  {
    FeatureIsValid(text, at, mode);
    hide FeatureAt, ValidFeature;
    var feature := FeatureAt(text, at, mode);
    if Past(text, feature.at, 0x2C).Some? {
      FeaturesKeep(text, Past(text, feature.at, 0x2C).value, mode, features + [feature.value]);
    }
  }

  lemma {:induction false} NotesKeep(text: seq<byte>, at: nat, notes: seq<seq<byte>>)
    requires at <= |text| && AllNotes(notes) && NotesFrom(text, at, notes).Ok?
    ensures
      var r := NotesFrom(text, at, notes).value;
      AllNotes(r) && |r| <= MAX_CHANGES
    decreases |text| - at
  {
    var note := NoteAt(text, at);
    assert ValidNote(note.value);
    hide NoteAt, ValidNote;
    if Past(text, note.at, 0x2C).Some? {
      NotesKeep(text, Past(text, note.at, 0x2C).value, notes + [note.value]);
    }
  }

  lemma NotesAreValid(text: seq<byte>, at: nat)
    requires at <= |text| && NotesAt(text, at).Ok?
    ensures AllNotes(NotesAt(text, at).value) && |NotesAt(text, at).value| <= MAX_CHANGES
  {
    var first := Past(text, at, 0x5B).value;
    if Past(text, first, 0x5D).None? {
      NotesKeep(text, first, []);
    }
  }

  lemma FeaturesAreValid(text: seq<byte>, at: nat, mode: Mode)
    requires at <= |text| && FeaturesAt(text, at, mode).Ok?
    ensures AllFeatures(FeaturesAt(text, at, mode).value) && |FeaturesAt(text, at, mode).value| <= MAX_FEATURES
  {
    var first := Past(text, at, 0x5B).value;
    if Past(text, first, 0x5D).None? {
      FeaturesKeep(text, first, mode, []);
    }
  }

  lemma ReleaseFieldKeeps(text: seq<byte>, at: nat, mode: Mode, key: seq<byte>, draft: ReleaseDraft)
    requires at <= |text| && Bounded(draft) && ReleaseField(text, at, mode, key, draft).Ok?
    ensures Bounded(ReleaseField(text, at, mode, key, draft).value)
  {
    hide AllNotes, AllFeatures, ValidDate, Fits, TextAt, NotesAt, FeaturesAt;
    if key == FEATURES_KEY && FeaturesAt(text, at, mode).Ok? {
      FeaturesAreValid(text, at, mode);
    } else if (key == FIXES_KEY || key == CHANGES_KEY) && NotesAt(text, at).Ok? {
      NotesAreValid(text, at);
    }
  }

  lemma {:induction false} ReleaseMembersKeep(text: seq<byte>, at: nat, mode: Mode, draft: ReleaseDraft)
    requires at <= |text| && Bounded(draft) && ReleaseMembers(text, at, mode, draft).Ok?
    ensures Bounded(ReleaseMembers(text, at, mode, draft).value)
    decreases |text| - at
  {
    var key := KeyAt(text, at);
    ReleaseFieldKeeps(text, key.at, mode, key.value, draft);
    hide KeyAt, ReleaseField, Bounded;
    var field := ReleaseField(text, key.at, mode, key.value, draft);
    if Past(text, field.at, 0x2C).Some? {
      ReleaseMembersKeep(text, Past(text, field.at, 0x2C).value, mode, field.value);
    }
  }

  lemma ReleaseIsValid(text: seq<byte>, at: nat, mode: Mode)
    requires at <= |text| && ReleaseAt(text, at, mode).Ok?
    ensures ValidRelease(ReleaseAt(text, at, mode).value)
  {
    ReleaseMembersKeep(text, Past(text, at, 0x7B).value, mode, NO_RELEASE);
    hide ReleaseMembers, ValidDate, ValidFeature, ValidNote;
  }

  // Within all limits, and every release older than the one before it.
  ghost predicate Listed(releases: seq<Release>) {
    && |releases| <= MAX_RELEASES && Descending(releases)
    && forall r :: r in releases ==> ValidRelease(r)
  }

  lemma ListedMore(releases: seq<Release>, r: Release)
    requires Listed(releases) && |releases| < MAX_RELEASES && ValidRelease(r) && Follows(releases, r)
    ensures Listed(releases + [r])
  {
    forall i | 0 <= i < |releases| ensures Less(r.version, releases[i].version) {
      var last := releases[|releases| - 1].version;
      LessIsStrict(r.version, last, releases[i].version);
    }
    hide ValidRelease;
  }

  lemma {:induction false} ReleasesKeep(text: seq<byte>, at: nat, mode: Mode, releases: seq<Release>)
    requires at <= |text| && Listed(releases) && ReleasesFrom(text, at, mode, releases).Ok?
    ensures Listed(ReleasesFrom(text, at, mode, releases).value)
    decreases |text| - at
  {
    ReleaseIsValid(text, at, mode);
    hide ReleaseAt, ValidRelease, Listed;
    var release := ReleaseAt(text, at, mode);
    ListedMore(releases, release.value);
    if Past(text, release.at, 0x2C).Some? {
      ReleasesKeep(text, Past(text, release.at, 0x2C).value, mode, releases + [release.value]);
    }
  }

  lemma TopFieldKeeps(text: seq<byte>, at: nat, mode: Mode, key: seq<byte>, releases: Option<seq<Release>>)
    requires at <= |text| && Listed(All(releases)) && TopField(text, at, mode, key, releases).Ok?
    ensures Listed(All(TopField(text, at, mode, key, releases).value))
  {
    if key == RELEASES_KEY {
      var first := Past(text, at, 0x5B).value;
      if Past(text, first, 0x5D).None? {
        ReleasesKeep(text, first, mode, []);
      }
    }
  }

  lemma {:induction false} TopMembersKeep(text: seq<byte>, at: nat, mode: Mode, releases: Option<seq<Release>>)
    requires at <= |text| && Listed(All(releases)) && TopMembers(text, at, mode, releases).Ok?
    ensures Listed(All(TopMembers(text, at, mode, releases).value))
    decreases |text| - at
  {
    var key := KeyAt(text, at);
    TopFieldKeeps(text, key.at, mode, key.value, releases);
    hide KeyAt, TopField, Listed;
    var field := TopField(text, key.at, mode, key.value, releases);
    if Past(text, field.at, 0x2C).Some? {
      TopMembersKeep(text, Past(text, field.at, 0x2C).value, mode, field.value);
    }
  }

  // Every accepted changelog, in either mode: some releases, within all limits, newest first without
  // repetition, each with a version and something to say.
  lemma AcceptedIsListed(document: seq<byte>, mode: Mode)
    requires ParseChangelog(document, mode).Some?
    ensures ParseChangelog(document, mode).value != [] && Listed(ParseChangelog(document, mode).value)
  {
    var start := if Word(document, 0, BYTE_ORDER_MARK) then 3 else 0;
    TopMembersKeep(document, Past(document, start, 0x7B).value, mode, None);
    hide TopMembers, Past, Listed;
  }

  // ----- Lists of no notes -----

  // Nothing but blanks, and then the byte b.
  ghost predicate BlanksTo(text: seq<byte>, from: nat, at: nat, b: byte) {
    from <= at && Is(text, at, b) && forall i :: from <= i < at ==> IsSpace(text[i])
  }

  // An opening bracket and a closing one, and around them nothing but blanks.
  ghost predicate BareBrackets(text: seq<byte>, start: nat, open: nat, close: nat) {
    BlanksTo(text, start, open, 0x5B) && BlanksTo(text, open + 1, close, 0x5D)
  }

  lemma {:induction false} SkipSpaceIs(text: seq<byte>, from: nat, at: nat)
    requires from <= at <= |text| && (forall i :: from <= i < at ==> IsSpace(text[i]))
        && (at < |text| ==> !IsSpace(text[at]))
    ensures SkipSpace(text, from) == at
    decreases at - from
  {
    if from < at {
      SkipSpaceIs(text, from + 1, at);
    }
  }

  lemma {:induction false} SkippedAreSpaces(text: seq<byte>, from: nat)
    requires from <= |text|
    ensures forall i :: from <= i < SkipSpace(text, from) ==> IsSpace(text[i])
    decreases |text| - from
  {
    if from < |text| && IsSpace(text[from]) {
      SkippedAreSpaces(text, from + 1);
    }
  }

  lemma PastIs(text: seq<byte>, from: nat, at: nat, b: byte)
    requires from <= |text| && !IsSpace(b)
    ensures BlanksTo(text, from, at, b) <==> Past(text, from, b) == Some(at + 1)
  {
    SkippedAreSpaces(text, from);
    if BlanksTo(text, from, at, b) {
      SkipSpaceIs(text, from, at);
    }
    hide SkipSpace;
  }

  lemma {:induction false} NotesFromMore(text: seq<byte>, at: nat, notes: seq<seq<byte>>)
    requires at <= |text| && NotesFrom(text, at, notes).Ok?
    ensures |NotesFrom(text, at, notes).value| > |notes|
    decreases |text| - at
  {
    hide NoteAt, Past;
    var note := NoteAt(text, at);
    if Past(text, note.at, 0x2C).Some? {
      NotesFromMore(text, Past(text, note.at, 0x2C).value, notes + [note.value]);
    }
  }

  // A list of notes is accepted without any note exactly when its brackets have only blanks between them.
  lemma NoNotesExactly(text: seq<byte>, start: nat)
    requires start <= |text|
    ensures
      NotesAt(text, start).Ok? && NotesAt(text, start).value == [] <==>
        exists open: nat, close: nat :: BareBrackets(text, start, open, close)
  {
    hide Past, BlanksTo, NotesFrom;
    var list := Past(text, start, 0x5B);
    if list.Some? {
      PastIs(text, start, list.value - 1, 0x5B);
      var end := Past(text, list.value, 0x5D);
      if end.Some? {
        PastIs(text, list.value, end.value - 1, 0x5D);
        assert BareBrackets(text, start, list.value - 1, end.value - 1);
      } else if NotesFrom(text, list.value, []).Ok? {
        NotesFromMore(text, list.value, []);
      }
    }
    forall open: nat, close: nat | BareBrackets(text, start, open, close)
      ensures Past(text, start, 0x5B) == Some(open + 1) && open + 1 <= |text|
          && Past(text, open + 1, 0x5D) == Some(close + 1)
    {
      PastIs(text, start, open, 0x5B);
      PastIs(text, open + 1, close, 0x5D);
    }
  }
}
