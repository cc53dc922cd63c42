/** What a newer changelog is to an older reader: the document without the fields that reader does not know. */
module ChangelogKnown {
  import opened Common
  import opened Bits
  import opened Json
  import opened Changelog
  import opened ChangelogSkips
  import opened ChangelogJson
  import JsonSound

  predicate FeatureKey(key: seq<byte>) {
    key == TITLE_KEY || key == TEXT_KEY || key == IMAGE_KEY
  }

  predicate ReleaseKey(key: seq<byte>) {
    key == VERSION_KEY || key == DATE_KEY || key == FEATURES_KEY || key == FIXES_KEY || key == CHANGES_KEY
  }

  // ----- The document as it is known -----

  function KnownFeatureMembers(members: seq<Member>): seq<Member> {
    if members == [] then []
    else (if FeatureKey(members[0].key) then [members[0]] else []) + KnownFeatureMembers(members[1..])
  }

  function KnownFeature(v: Value): Value {
    if v.Object? then Object(KnownFeatureMembers(v.members)) else v
  }

  function KnownFeatureItems(items: seq<Value>): seq<Value> {
    if items == [] then [] else [KnownFeature(items[0])] + KnownFeatureItems(items[1..])
  }

  function KnownFeatures(v: Value): Value {
    if v.Array? then Array(KnownFeatureItems(v.items)) else v
  }

  function KnownReleaseMember(m: Member): Member {
    if m.key == FEATURES_KEY then Member(m.key, KnownFeatures(m.value)) else m
  }

  function KnownReleaseMembers(members: seq<Member>): seq<Member> {
    if members == [] then []
    else
      (if ReleaseKey(members[0].key) then [KnownReleaseMember(members[0])] else [])
      + KnownReleaseMembers(members[1..])
  }

  function KnownRelease(v: Value): Value {
    if v.Object? then Object(KnownReleaseMembers(v.members)) else v
  }

  function KnownReleaseItems(items: seq<Value>): seq<Value> {
    if items == [] then [] else [KnownRelease(items[0])] + KnownReleaseItems(items[1..])
  }

  function KnownReleases(v: Value): Value {
    if v.Array? then Array(KnownReleaseItems(v.items)) else v
  }

  function KnownTopMembers(members: seq<Member>): seq<Member> {
    if members == [] then []
    else
      (if members[0].key == RELEASES_KEY then [Member(members[0].key, KnownReleases(members[0].value))] else [])
      + KnownTopMembers(members[1..])
  }

  function Known(v: Value): Value {
    if v.Object? then Object(KnownTopMembers(v.members)) else v
  }

  // ----- Every unknown field is one that can be passed over -----

  predicate FeatureMembersWithin(members: seq<Member>) {
    members != [] ==>
      (FeatureKey(members[0].key) || MemberSkippable(members[0], 0)) && FeatureMembersWithin(members[1..])
  }

  predicate FeatureWithin(v: Value) {
    v.Object? ==> FeatureMembersWithin(v.members)
  }

  predicate FeatureItemsWithin(items: seq<Value>) {
    items != [] ==> FeatureWithin(items[0]) && FeatureItemsWithin(items[1..])
  }

  predicate FeaturesWithin(v: Value) {
    v.Array? ==> FeatureItemsWithin(v.items)
  }

  predicate ReleaseMemberWithin(m: Member) {
    && (!ReleaseKey(m.key) ==> MemberSkippable(m, 0))
    && (m.key == FEATURES_KEY ==> FeaturesWithin(m.value))
  }

  predicate ReleaseMembersWithin(members: seq<Member>) {
    members != [] ==> ReleaseMemberWithin(members[0]) && ReleaseMembersWithin(members[1..])
  }

  predicate ReleaseWithin(v: Value) {
    v.Object? ==> ReleaseMembersWithin(v.members)
  }

  predicate ReleaseItemsWithin(items: seq<Value>) {
    items != [] ==> ReleaseWithin(items[0]) && ReleaseItemsWithin(items[1..])
  }

  predicate ReleasesWithin(v: Value) {
    v.Array? ==> ReleaseItemsWithin(v.items)
  }

  predicate TopMembersWithin(members: seq<Member>) {
    members != [] ==>
      && (if members[0].key == RELEASES_KEY then ReleasesWithin(members[0].value) else MemberSkippable(members[0], 0))
      && TopMembersWithin(members[1..])
  }

  predicate Within(v: Value) {
    v.Object? ==> TopMembersWithin(v.members)
  }

  function When<T>(within: bool, o: Option<T>): Option<T> {
    if within then o else None
  }

  // ----- Features -----

  // What the draft has is not among the members still to come.
  predicate FeatureOpen(members: seq<Member>, draft: FeatureDraft) {
    && (HasKey(members, TITLE_KEY) ==> draft.title.None?) && (HasKey(members, TEXT_KEY) ==> draft.text.None?)
    && (HasKey(members, IMAGE_KEY) ==> draft.image.None?)
  }

  lemma RestKeys(members: seq<Member>)
    requires members != [] && DistinctKeys(members)
    ensures DistinctKeys(members[1..]) && HasKey(members, members[0].key) && !HasKey(members[1..], members[0].key)
    ensures forall key :: HasKey(members[1..], key) ==> HasKey(members, key)
  {
    var rest := members[1..];
    forall i | 0 <= i < |rest|
      ensures !HasKey(rest[..i], rest[i].key) && rest[i].key != members[0].key
    {
      assert rest[i] == members[i + 1];
      forall j | 0 <= j < i
        ensures rest[..i][j].key != rest[i].key
      {
        assert rest[..i][j] == members[..i + 1][j + 1];
      }
      assert members[..i + 1][0] == members[0];
    }
    forall key | HasKey(rest, key)
      ensures HasKey(members, key)
    {
      var i :| 0 <= i < |rest| && rest[i].key == key;
      assert members[i + 1].key == key;
    }
  }

  lemma FeatureOpenMore(members: seq<Member>, draft: FeatureDraft)
    requires members != [] && DistinctKeys(members) && FeatureOpen(members, draft)
    ensures FeatureKey(members[0].key) ==>
        FeatureFieldOf(members[0], Lenient, draft) == FeatureFieldOf(members[0], Strict, draft)
    ensures !FeatureKey(members[0].key) ==>
        FeatureFieldOf(members[0], Lenient, draft) == When(MemberSkippable(members[0], 0), Some(draft))
    ensures
      var field := FeatureFieldOf(members[0], Lenient, draft);
      field.Some? ==> FeatureOpen(members[1..], field.value)
  {
    FeatureKeys();
    RestKeys(members);
    hide HasKey, DistinctKeys, TextOf, ImageOf, MemberSkippable;
  }

  lemma {:induction false} FeatureMembersKnown(members: seq<Member>, draft: FeatureDraft)
    requires DistinctKeys(members) && FeatureOpen(members, draft)
    ensures FeatureIn(members, Lenient, draft)
         == When(FeatureMembersWithin(members), FeatureIn(KnownFeatureMembers(members), Strict, draft))
    decreases |members|
  {
    if members != [] {
      var m, rest := members[0], members[1..];
      RestKeys(members);
      FeatureOpenMore(members, draft);
      hide FeatureFieldOf, FeatureOpen, DistinctKeys, HasKey, MemberSkippable;
      FeatureInStep(m, KnownFeatureMembers(rest), Strict, draft);
      var field := FeatureFieldOf(m, Lenient, draft);
      if field.Some? {
        FeatureMembersKnown(rest, field.value);
      }
      if !FeatureKey(m.key) {
        assert [] + KnownFeatureMembers(rest) == KnownFeatureMembers(rest);
      }
    }
  }

  lemma FeatureKnown(v: Value, depth: nat, finite: seq<byte> -> bool)
    requires Admitted(v, depth, finite)
    ensures FeatureFor(v, Lenient) == When(FeatureWithin(v), FeatureFor(KnownFeature(v), Strict))
  {
    hide FeatureIn, FeatureOf, FeatureMembersWithin, KnownFeatureMembers;
    if v.Object? {
      FeatureMembersKnown(v.members, NO_FEATURE);
    }
  }

  lemma {:induction false} FeatureItemsKnown(items: seq<Value>, features: seq<Feature>, depth: nat,
                                             finite: seq<byte> -> bool)
    requires forall i :: 0 <= i < |items| ==> Admitted(items[i], depth, finite)
    ensures FeaturesIn(items, Lenient, features)
        == When(FeatureItemsWithin(items), FeaturesIn(KnownFeatureItems(items), Strict, features))
    decreases |items|
  {
    if items != [] {
      var v, rest := items[0], items[1..];
      FeatureKnown(v, depth, finite);
      hide FeatureFor, KnownFeature, FeatureWithin, Admitted;
      FeaturesInStep(KnownFeature(v), KnownFeatureItems(rest), Strict, features);
      if FeatureFor(v, Lenient).Some? && |features| < MAX_FEATURES {
        FeatureItemsKnown(rest, features + [FeatureFor(v, Lenient).value], depth, finite);
      }
    }
  }

  lemma FeaturesKnown(v: Value, depth: nat, finite: seq<byte> -> bool)
    requires Admitted(v, depth, finite)
    ensures FeaturesOf(v, Lenient) == When(FeaturesWithin(v), FeaturesOf(KnownFeatures(v), Strict))
  {
    hide FeaturesIn, FeatureItemsWithin, KnownFeatureItems;
    if v.Array? {
      FeatureItemsKnown(v.items, [], depth - 1, finite);
    }
  }

  // ----- Releases -----

  predicate ReleaseOpen(members: seq<Member>, draft: ReleaseDraft) {
    && (HasKey(members, VERSION_KEY) ==> draft.version.None?) && (HasKey(members, DATE_KEY) ==> draft.date.None?)
    && (HasKey(members, FEATURES_KEY) ==> draft.features.None?) && (HasKey(members, FIXES_KEY) ==> draft.fixes.None?)
    && (HasKey(members, CHANGES_KEY) ==> draft.changes.None?)
  }

  lemma ReleaseFieldKnown(members: seq<Member>, draft: ReleaseDraft, depth: nat, finite: seq<byte> -> bool)
    requires members != [] && ReleaseOpen(members, draft) && HasKey(members, members[0].key)
    requires Admitted(members[0].value, depth, finite)
    ensures
      var m := members[0];
      ReleaseFieldOf(m, Lenient, draft)
        == When(ReleaseMemberWithin(m), if ReleaseKey(m.key) then ReleaseFieldOf(KnownReleaseMember(m), Strict, draft)
          else Some(draft))
  {
    ReleaseKeys();
    FeaturesKnown(members[0].value, depth, finite);
    hide HasKey, VersionIn, DateOf, NotesOf, FeaturesOf, FeaturesWithin, KnownFeatures, MemberSkippable;
  }

  lemma ReleaseOpenMore(members: seq<Member>, draft: ReleaseDraft)
    requires members != [] && DistinctKeys(members) && ReleaseOpen(members, draft)
    ensures
      var field := ReleaseFieldOf(members[0], Lenient, draft);
      field.Some? ==> ReleaseOpen(members[1..], field.value)
  {
    ReleaseKeys();
    RestKeys(members);
    hide HasKey, DistinctKeys, VersionIn, DateOf, NotesOf, FeaturesOf, Ignored;
  }

  lemma {:induction false} ReleaseMembersKnown(members: seq<Member>, draft: ReleaseDraft, depth: nat,
                                               finite: seq<byte> -> bool)
    requires DistinctKeys(members) && ReleaseOpen(members, draft)
    requires forall i :: 0 <= i < |members| ==> Admitted(members[i].value, depth, finite)
    ensures ReleaseIn(members, Lenient, draft)
         == When(ReleaseMembersWithin(members), ReleaseIn(KnownReleaseMembers(members), Strict, draft))
    decreases |members|
  {
    if members != [] {
      var m, rest := members[0], members[1..];
      RestKeys(members);
      ReleaseOpenMore(members, draft);
      ReleaseFieldKnown(members, draft, depth, finite);
      hide ReleaseFieldOf, ReleaseOpen, DistinctKeys, HasKey, ReleaseMemberWithin, KnownReleaseMember, Admitted;
      ReleaseInStep(KnownReleaseMember(m), KnownReleaseMembers(rest), Strict, draft);
      var field := ReleaseFieldOf(m, Lenient, draft);
      if field.Some? {
        ReleaseMembersKnown(rest, field.value, depth, finite);
      }
      if !ReleaseKey(m.key) {
        assert [] + KnownReleaseMembers(rest) == KnownReleaseMembers(rest);
      }
    }
  }

  lemma ReleaseKnown(v: Value, depth: nat, finite: seq<byte> -> bool)
    requires Admitted(v, depth, finite)
    ensures ReleaseFor(v, Lenient) == When(ReleaseWithin(v), ReleaseFor(KnownRelease(v), Strict))
  {
    hide ReleaseIn, ReleaseOf, ReleaseMembersWithin, KnownReleaseMembers;
    if v.Object? {
      ReleaseMembersKnown(v.members, NO_RELEASE, depth - 1, finite);
    }
  }

  lemma {:induction false} ReleaseItemsKnown(items: seq<Value>, releases: seq<Release>, depth: nat,
                                             finite: seq<byte> -> bool)
    requires forall i :: 0 <= i < |items| ==> Admitted(items[i], depth, finite)
    ensures ReleasesIn(items, Lenient, releases)
        == When(ReleaseItemsWithin(items), ReleasesIn(KnownReleaseItems(items), Strict, releases))
    decreases |items|
  {
    if items != [] {
      var v, rest := items[0], items[1..];
      ReleaseKnown(v, depth, finite);
      hide ReleaseFor, KnownRelease, ReleaseWithin, Admitted, Follows;
      ReleasesInStep(KnownRelease(v), KnownReleaseItems(rest), Strict, releases);
      var release := ReleaseFor(v, Lenient);
      if release.Some? && |releases| < MAX_RELEASES && Follows(releases, release.value) {
        ReleaseItemsKnown(rest, releases + [release.value], depth, finite);
      }
    }
  }

  lemma ReleasesKnown(v: Value, depth: nat, finite: seq<byte> -> bool)
    requires Admitted(v, depth, finite)
    ensures ReleasesOf(v, Lenient) == When(ReleasesWithin(v), ReleasesOf(KnownReleases(v), Strict))
  {
    hide ReleasesIn, ReleaseItemsWithin, KnownReleaseItems;
    if v.Array? {
      ReleaseItemsKnown(v.items, [], depth - 1, finite);
    }
  }

  // ----- The document -----

  lemma {:induction false} TopMembersKnown(members: seq<Member>, releases: Option<seq<Release>>, depth: nat,
                                           finite: seq<byte> -> bool)
    requires DistinctKeys(members) && (HasKey(members, RELEASES_KEY) ==> releases.None?)
    requires forall i :: 0 <= i < |members| ==> Admitted(members[i].value, depth, finite)
    ensures TopIn(members, Lenient, releases)
        == When(TopMembersWithin(members), TopIn(KnownTopMembers(members), Strict, releases))
    decreases |members|
  {
    if members != [] {
      var m, rest := members[0], members[1..];
      RestKeys(members);
      ReleasesKnown(m.value, depth, finite);
      hide ReleasesOf, DistinctKeys, HasKey, ReleasesWithin, KnownReleases, Admitted, MemberSkippable;
      TopInStep(Member(m.key, KnownReleases(m.value)), KnownTopMembers(rest), Strict, releases);
      var field := TopFieldOf(m, Lenient, releases);
      if field.Some? {
        TopMembersKnown(rest, field.value, depth, finite);
      }
      if m.key != RELEASES_KEY {
        assert [] + KnownTopMembers(rest) == KnownTopMembers(rest);
      }
    }
  }

  // A later field cannot hide the notes: an older reader makes of a JSON document what it makes of the
  // document without the fields it does not know, unless one of these has a key of more than 32 bytes or
  // a value nested more than eight deep or with such a key, and then it reads nothing.
  lemma LaterFieldsHideNothing(document: seq<byte>, finite: seq<byte> -> bool)
    requires |document| <= MAX_BYTES && Parse(document, finite).Some?
    ensures
      var v := Parse(document, finite).value;
      ParseChangelog(document, Lenient) == When(Within(v), Schema(Known(v), Strict))
  {
    var v := Parse(document, finite).value;
    LenientIsJson(document, finite);
    var before, t, after := JsonSound.ParseSound(document, finite);
    hide Parse, ParseChangelog, TopIn, TopMembersWithin, KnownTopMembers;
    if v.Object? {
      TopMembersKnown(v.members, None, MAX_DEPTH - 1, finite);
    }
  }
}
