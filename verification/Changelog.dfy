/** The changelog reader as a function of the text and a position in it: a fixed schema, read strictly
    or leniently. */
module Changelog {
  import opened Common
  import opened Bits
  import opened Json
  import opened Versions

  const MAX_BYTES: nat := 65536
  const MAX_RELEASES: nat := 64
  const MAX_CHANGES: nat := 32
  const MAX_TEXT: nat := 400
  const MAX_FEATURES: nat := 8
  const MAX_TITLE: nat := 80
  const MAX_IMAGE: nat := 120
  const MAX_KEY: nat := 32
  const MAX_VERSION: nat := 32
  const MAX_DATE: nat := 10
  const MAX_SKIP: nat := 8

  // The field names, in ASCII.
  const VERSION_KEY: seq<byte> := [0x76, 0x65, 0x72, 0x73, 0x69, 0x6F, 0x6E]
  const DATE_KEY: seq<byte> := [0x64, 0x61, 0x74, 0x65]
  const FEATURES_KEY: seq<byte> := [0x66, 0x65, 0x61, 0x74, 0x75, 0x72, 0x65, 0x73]
  const FIXES_KEY: seq<byte> := [0x66, 0x69, 0x78, 0x65, 0x73]
  const CHANGES_KEY: seq<byte> := [0x63, 0x68, 0x61, 0x6E, 0x67, 0x65, 0x73]
  const TITLE_KEY: seq<byte> := [0x74, 0x69, 0x74, 0x6C, 0x65]
  const TEXT_KEY: seq<byte> := [0x74, 0x65, 0x78, 0x74]
  const IMAGE_KEY: seq<byte> := [0x69, 0x6D, 0x61, 0x67, 0x65]
  const RELEASES_KEY: seq<byte> := [0x72, 0x65, 0x6C, 0x65, 0x61, 0x73, 0x65, 0x73]

  datatype Mode = Strict | Lenient

  datatype Feature = Feature(title: seq<byte>, text: seq<byte>, image: seq<byte>)

  datatype Release = Release(
    version: Version, date: seq<byte>, features: seq<Feature>, fixes: seq<seq<byte>>, changes: seq<seq<byte>>)

  // ----- What texts must be -----

  predicate Blank(text: seq<byte>) {
    forall i :: 0 <= i < |text| ==> IsSpace(text[i])
  }

  predicate ValidNote(text: seq<byte>) {
    |text| <= MAX_TEXT && !Blank(text)
  }

  predicate ValidDate(d: seq<byte>) {
    && |d| == 10 && d[4] == 0x2D && d[7] == 0x2D
    && IsDigit(d[0]) && IsDigit(d[1]) && IsDigit(d[2]) && IsDigit(d[3])
    && IsDigit(d[5]) && IsDigit(d[6]) && IsDigit(d[8]) && IsDigit(d[9])
    && 1 <= 10 * DigitValue(d[5]) + DigitValue(d[6]) <= 12
    && 1 <= 10 * DigitValue(d[8]) + DigitValue(d[9]) <= 31
  }

  // "docs/whats-new/", ".png", ".jpg" and ".jpeg".
  const IMAGE_FOLDER: seq<byte> :=
    [0x64, 0x6F, 0x63, 0x73, 0x2F, 0x77, 0x68, 0x61, 0x74, 0x73, 0x2D, 0x6E, 0x65, 0x77, 0x2F]
  const PNG: seq<byte> := [0x2E, 0x70, 0x6E, 0x67]
  const JPG: seq<byte> := [0x2E, 0x6A, 0x70, 0x67]
  const JPEG: seq<byte> := [0x2E, 0x6A, 0x70, 0x65, 0x67]

  predicate PathByte(b: byte) {
    0x61 <= b <= 0x7A || 0x41 <= b <= 0x5A || IsDigit(b) || b == 0x2E || b == 0x2D || b == 0x5F || b == 0x2F
  }

  predicate Ends(path: seq<byte>, suffix: seq<byte>) {
    |path| > |suffix| && path[|path| - |suffix|..] == suffix
  }

  predicate Doubled(path: seq<byte>, b: byte) {
    exists i :: 1 <= i < |path| && path[i] == b && path[i - 1] == b
  }

  predicate ValidImage(path: seq<byte>) {
    && |IMAGE_FOLDER| < |path| <= MAX_IMAGE && path[..|IMAGE_FOLDER|] == IMAGE_FOLDER
    && !Doubled(path, 0x2E) && !Doubled(path, 0x2F)
    && (forall i :: 0 <= i < |path| ==> PathByte(path[i]))
    && (Ends(path, PNG) || Ends(path, JPG) || Ends(path, JPEG))
  }

  predicate ValidFeature(f: Feature) {
    && |f.title| <= MAX_TITLE && !Blank(f.title) && ValidNote(f.text) && (f.image == [] || ValidImage(f.image))
  }

  predicate HasContent(r: Release) {
    r.features != [] || r.fixes != [] || r.changes != []
  }

  ghost predicate ValidRelease(r: Release) {
    && Fits(r.version) && (r.date == [] || ValidDate(r.date)) && HasContent(r)
    && |r.features| <= MAX_FEATURES && |r.fixes| <= MAX_CHANGES && |r.changes| <= MAX_CHANGES
    && (forall f :: f in r.features ==> ValidFeature(f))
    && (forall n :: n in r.fixes ==> ValidNote(n)) && (forall n :: n in r.changes ==> ValidNote(n))
  }

  ghost predicate Descending(releases: seq<Release>) {
    forall i, j :: 0 <= i < j < |releases| ==> Less(releases[j].version, releases[i].version)
  }

  // ----- Tokens -----

  // A string of at most `limit` bytes, after blanks.
  function TextAt(text: seq<byte>, start: nat, limit: nat): (r: Parsed<seq<byte>>)
    requires start <= |text|
    ensures r.Ok? ==> start < r.at <= |text| && |r.value| <= limit
  {
    var s := StringAt(text, SkipSpace(text, start));
    if s.Ok? && |s.value| <= limit then s else Fail
  }

  // Past the byte b, after blanks.
  function Past(text: seq<byte>, start: nat, b: byte): (r: Option<nat>)
    requires start <= |text|
    ensures r.Some? ==> start < r.value <= |text|
  {
    var at := SkipSpace(text, start);
    if Is(text, at, b) then Some(at + 1) else None
  }

  // A member's key and the colon after it.
  function KeyAt(text: seq<byte>, start: nat): (r: Parsed<seq<byte>>)
    requires start <= |text|
    ensures r.Ok? ==> start < r.at <= |text|
  {
    var key := TextAt(text, start, MAX_KEY);
    if key.Fail? || Past(text, key.at, 0x3A).None? then Fail else Ok(key.value, Past(text, key.at, 0x3A).value)
  }

  predicate PlainByte(b: byte) {
    0x61 <= b <= 0x7A || IsDigit(b) || b == 0x2D || b == 0x2B || b == 0x2E || b == 0x45
  }

  function SkipPlain(text: seq<byte>, at: nat): (r: nat)
    requires at <= |text|
    ensures at <= r <= |text|
    decreases |text| - at
  {
    if at < |text| && PlainByte(text[at]) then SkipPlain(text, at + 1) else at
  }

  // Where any value ends: a field of a newer changelog.
  function Skip(text: seq<byte>, start: nat, depth: nat): (r: Option<nat>)
    requires start <= |text|
    ensures r.Some? ==> start < r.value <= |text|
    decreases |text| - start, 0
  {
    var at := SkipSpace(text, start);
    if depth > MAX_SKIP || at >= |text| then None
    else if text[at] == 0x22 then
      var s := TextAt(text, at, MAX_BYTES);
      if s.Fail? then None else Some(s.at)
    else if text[at] == 0x7B then
      if Past(text, at + 1, 0x7D).Some? then Past(text, at + 1, 0x7D) else SkipMembers(text, at + 1, depth + 1)
    else if text[at] == 0x5B then
      if Past(text, at + 1, 0x5D).Some? then Past(text, at + 1, 0x5D) else SkipItems(text, at + 1, depth + 1)
    else if SkipPlain(text, at) > at then Some(SkipPlain(text, at))
    else None
  }

  function SkipMembers(text: seq<byte>, at: nat, depth: nat): (r: Option<nat>)
    requires at <= |text|
    ensures r.Some? ==> at < r.value <= |text|
    decreases |text| - at, 1
  {
    var key := KeyAt(text, at);
    if key.Fail? then None
    else
      var end := Skip(text, key.at, depth);
      if end.None? then None
      else if Past(text, end.value, 0x2C).Some? then SkipMembers(text, Past(text, end.value, 0x2C).value, depth)
      else Past(text, end.value, 0x7D)
  }

  function SkipItems(text: seq<byte>, at: nat, depth: nat): (r: Option<nat>)
    requires at <= |text|
    ensures r.Some? ==> at < r.value <= |text|
    decreases |text| - at, 1
  {
    var end := Skip(text, at, depth);
    if end.None? then None
    else if Past(text, end.value, 0x2C).Some? then SkipItems(text, Past(text, end.value, 0x2C).value, depth)
    else Past(text, end.value, 0x5D)
  }

  // A field the schema does not know, or knows and has already.
  function UnknownEnd(text: seq<byte>, at: nat, mode: Mode): (r: Option<nat>)
    requires at <= |text|
    ensures r.Some? ==> at < r.value <= |text|
  {
    if mode == Lenient then Skip(text, at, 0) else None
  }

  // ----- Notes -----

  function NoteAt(text: seq<byte>, at: nat): (r: Parsed<seq<byte>>)
    requires at <= |text|
    ensures r.Ok? ==> at < r.at <= |text|
  {
    var note := TextAt(text, at, MAX_TEXT);
    if note.Fail? || Blank(note.value) then Fail else note
  }

  function NotesFrom(text: seq<byte>, at: nat, notes: seq<seq<byte>>): (r: Parsed<seq<seq<byte>>>)
    requires at <= |text|
    ensures r.Ok? ==> at < r.at <= |text|
    decreases |text| - at
  {
    var note := if |notes| >= MAX_CHANGES then Fail else NoteAt(text, at);
    if note.Fail? then Fail
    else
      var more := notes + [note.value];
      if Past(text, note.at, 0x2C).Some? then NotesFrom(text, Past(text, note.at, 0x2C).value, more)
      else if Past(text, note.at, 0x5D).Some? then Ok(more, Past(text, note.at, 0x5D).value)
      else Fail
  }

  function NotesAt(text: seq<byte>, start: nat): (r: Parsed<seq<seq<byte>>>)
    requires start <= |text|
    ensures r.Ok? ==> start < r.at <= |text|
  {
    var at := Past(text, start, 0x5B);
    if at.None? then Fail
    else if Past(text, at.value, 0x5D).Some? then Ok([], Past(text, at.value, 0x5D).value)
    else NotesFrom(text, at.value, [])
  }

  // ----- Features -----

  // What has been read of a feature; a field not read yet is None.
  datatype FeatureDraft = FeatureDraft(title: Option<seq<byte>>, text: Option<seq<byte>>, image: Option<seq<byte>>)

  const NO_FEATURE := FeatureDraft(None, None, None)

  function ImageAt(text: seq<byte>, at: nat): (r: Parsed<seq<byte>>)
    requires at <= |text|
    ensures r.Ok? ==> at < r.at <= |text|
  {
    var image := TextAt(text, at, MAX_IMAGE);
    if image.Fail? || !ValidImage(image.value) then Fail else image
  }

  function FeatureField(text: seq<byte>, at: nat, mode: Mode, key: seq<byte>,
                        draft: FeatureDraft): (r: Parsed<FeatureDraft>)
    requires at <= |text|
    ensures r.Ok? ==> at < r.at <= |text|
  {
    if key == TITLE_KEY && draft.title.None? then
      var s := TextAt(text, at, MAX_TITLE);
      if s.Fail? then Fail else Ok(draft.(title := Some(s.value)), s.at)
    else if key == TEXT_KEY && draft.text.None? then
      var s := TextAt(text, at, MAX_TEXT);
      if s.Fail? then Fail else Ok(draft.(text := Some(s.value)), s.at)
    else if key == IMAGE_KEY && draft.image.None? then
      var s := ImageAt(text, at);
      if s.Fail? then Fail else Ok(draft.(image := Some(s.value)), s.at)
    else if UnknownEnd(text, at, mode).Some? then Ok(draft, UnknownEnd(text, at, mode).value)
    else Fail
  }

  function FeatureMembers(text: seq<byte>, at: nat, mode: Mode, draft: FeatureDraft): (r: Parsed<FeatureDraft>)
    requires at <= |text|
    ensures r.Ok? ==> at < r.at <= |text|
    decreases |text| - at
  {
    var key := KeyAt(text, at);
    var field := if key.Fail? then Fail else FeatureField(text, key.at, mode, key.value, draft);
    if field.Fail? then Fail
    else if Past(text, field.at, 0x2C).Some?
      then FeatureMembers(text, Past(text, field.at, 0x2C).value, mode, field.value)
    else if Past(text, field.at, 0x7D).Some? then Ok(field.value, Past(text, field.at, 0x7D).value)
    else Fail
  }

  // A feature needs a title and a text.
  function FeatureOf(draft: FeatureDraft): Option<Feature> {
    var f := Feature(All(draft.title), All(draft.text), All(draft.image));
    if Blank(f.title) || Blank(f.text) then None else Some(f)
  }

  function FeatureAt(text: seq<byte>, start: nat, mode: Mode): (r: Parsed<Feature>)
    requires start <= |text|
    ensures r.Ok? ==> start < r.at <= |text|
  {
    var at := Past(text, start, 0x7B);
    // With no members there is no title.
    var draft := if at.None? || Past(text, at.value, 0x7D).Some? then Fail
      else FeatureMembers(text, at.value, mode, NO_FEATURE);
    if draft.Fail? || FeatureOf(draft.value).None? then Fail else Ok(FeatureOf(draft.value).value, draft.at)
  }

  function FeaturesFrom(text: seq<byte>, at: nat, mode: Mode, features: seq<Feature>): (r: Parsed<seq<Feature>>)
    requires at <= |text|
    ensures r.Ok? ==> at < r.at <= |text|
    decreases |text| - at
  {
    var feature := if |features| >= MAX_FEATURES then Fail else FeatureAt(text, at, mode);
    if feature.Fail? then Fail
    else
      var more := features + [feature.value];
      if Past(text, feature.at, 0x2C).Some? then FeaturesFrom(text, Past(text, feature.at, 0x2C).value, mode, more)
      else if Past(text, feature.at, 0x5D).Some? then Ok(more, Past(text, feature.at, 0x5D).value)
      else Fail
  }

  function FeaturesAt(text: seq<byte>, start: nat, mode: Mode): (r: Parsed<seq<Feature>>)
    requires start <= |text|
    ensures r.Ok? ==> start < r.at <= |text|
  {
    var at := Past(text, start, 0x5B);
    if at.None? then Fail
    else if Past(text, at.value, 0x5D).Some? then Ok([], Past(text, at.value, 0x5D).value)
    else FeaturesFrom(text, at.value, mode, [])
  }

  // ----- Releases -----

  datatype ReleaseDraft = ReleaseDraft(
    version: Option<Version>, date: Option<seq<byte>>,
    features: Option<seq<Feature>>, fixes: Option<seq<seq<byte>>>, changes: Option<seq<seq<byte>>>)

  const NO_RELEASE := ReleaseDraft(None, None, None, None, None)

  function VersionAt(text: seq<byte>, at: nat): (r: Parsed<Version>)
    requires at <= |text|
    ensures r.Ok? ==> at < r.at <= |text| && Fits(r.value)
  {
    var s := TextAt(text, at, MAX_VERSION);
    if s.Fail? || VersionOf(s.value).None? then Fail else Ok(VersionOf(s.value).value, s.at)
  }

  function DateAt(text: seq<byte>, at: nat): (r: Parsed<seq<byte>>)
    requires at <= |text|
    ensures r.Ok? ==> at < r.at <= |text|
  {
    var s := TextAt(text, at, MAX_DATE);
    if s.Fail? || !ValidDate(s.value) then Fail else s
  }

  function ReleaseField(text: seq<byte>, at: nat, mode: Mode, key: seq<byte>,
                        draft: ReleaseDraft): (r: Parsed<ReleaseDraft>)
    requires at <= |text|
    ensures r.Ok? ==> at < r.at <= |text|
  {
    if key == VERSION_KEY && draft.version.None? then
      var v := VersionAt(text, at);
      if v.Fail? then Fail else Ok(draft.(version := Some(v.value)), v.at)
    else if key == DATE_KEY && draft.date.None? then
      var d := DateAt(text, at);
      if d.Fail? then Fail else Ok(draft.(date := Some(d.value)), d.at)
    else if key == FEATURES_KEY && draft.features.None? then
      var f := FeaturesAt(text, at, mode);
      if f.Fail? then Fail else Ok(draft.(features := Some(f.value)), f.at)
    else if key == FIXES_KEY && draft.fixes.None? then
      var n := NotesAt(text, at);
      if n.Fail? then Fail else Ok(draft.(fixes := Some(n.value)), n.at)
    else if key == CHANGES_KEY && draft.changes.None? then
      var n := NotesAt(text, at);
      if n.Fail? then Fail else Ok(draft.(changes := Some(n.value)), n.at)
    else if UnknownEnd(text, at, mode).Some? then Ok(draft, UnknownEnd(text, at, mode).value)
    else Fail
  }

  function ReleaseMembers(text: seq<byte>, at: nat, mode: Mode, draft: ReleaseDraft): (r: Parsed<ReleaseDraft>)
    requires at <= |text|
    ensures r.Ok? ==> at < r.at <= |text|
    decreases |text| - at
  {
    var key := KeyAt(text, at);
    var field := if key.Fail? then Fail else ReleaseField(text, key.at, mode, key.value, draft);
    if field.Fail? then Fail
    else if Past(text, field.at, 0x2C).Some?
      then ReleaseMembers(text, Past(text, field.at, 0x2C).value, mode, field.value)
    else if Past(text, field.at, 0x7D).Some? then Ok(field.value, Past(text, field.at, 0x7D).value)
    else Fail
  }

  function All<T>(o: Option<seq<T>>): seq<T> {
    if o.None? then [] else o.value
  }

  // A release needs a version and something to say.
  function ReleaseOf(draft: ReleaseDraft): Option<Release> {
    if draft.version.None? then None
    else
      var r := Release(draft.version.value, All(draft.date), All(draft.features), All(draft.fixes), All(draft.changes));
      if HasContent(r) then Some(r) else None
  }

  // The next release must be older than the last.
  predicate Follows(releases: seq<Release>, r: Release) {
    releases == [] || Less(r.version, releases[|releases| - 1].version)
  }

  function ReleaseAt(text: seq<byte>, start: nat, mode: Mode): (r: Parsed<Release>)
    requires start <= |text|
    ensures r.Ok? ==> start < r.at <= |text|
  {
    var at := Past(text, start, 0x7B);
    // With no members there is no version.
    var draft := if at.None? || Past(text, at.value, 0x7D).Some? then Fail
      else ReleaseMembers(text, at.value, mode, NO_RELEASE);
    if draft.Fail? || ReleaseOf(draft.value).None? then Fail else Ok(ReleaseOf(draft.value).value, draft.at)
  }

  function ReleasesFrom(text: seq<byte>, at: nat, mode: Mode, releases: seq<Release>): (r: Parsed<seq<Release>>)
    requires at <= |text|
    ensures r.Ok? ==> at < r.at <= |text|
    decreases |text| - at
  {
    var release := if |releases| >= MAX_RELEASES then Fail else ReleaseAt(text, at, mode);
    if release.Fail? || !Follows(releases, release.value) then Fail
    else
      var more := releases + [release.value];
      if Past(text, release.at, 0x2C).Some? then ReleasesFrom(text, Past(text, release.at, 0x2C).value, mode, more)
      else if Past(text, release.at, 0x5D).Some? then Ok(more, Past(text, release.at, 0x5D).value)
      else Fail
  }

  function ReleasesAt(text: seq<byte>, start: nat, mode: Mode): (r: Parsed<seq<Release>>)
    requires start <= |text|
    ensures r.Ok? ==> start < r.at <= |text|
  {
    var at := Past(text, start, 0x5B);
    if at.None? then Fail
    else if Past(text, at.value, 0x5D).Some? then Ok([], Past(text, at.value, 0x5D).value)
    else ReleasesFrom(text, at.value, mode, [])
  }

  // ----- The document -----

  function TopField(text: seq<byte>, at: nat, mode: Mode, key: seq<byte>,
                    releases: Option<seq<Release>>): (r: Parsed<Option<seq<Release>>>)
    requires at <= |text|
    ensures r.Ok? ==> at < r.at <= |text|
  {
    if key != RELEASES_KEY then
      if UnknownEnd(text, at, mode).Some? then Ok(releases, UnknownEnd(text, at, mode).value) else Fail
    else if releases.Some? then Fail
    else
      var r := ReleasesAt(text, at, mode);
      if r.Fail? then Fail else Ok(Some(r.value), r.at)
  }

  function TopMembers(text: seq<byte>, at: nat, mode: Mode,
                      releases: Option<seq<Release>>): (r: Parsed<Option<seq<Release>>>)
    requires at <= |text|
    ensures r.Ok? ==> at < r.at <= |text|
    decreases |text| - at
  {
    var key := KeyAt(text, at);
    var field := if key.Fail? then Fail else TopField(text, key.at, mode, key.value, releases);
    if field.Fail? then Fail
    else if Past(text, field.at, 0x2C).Some? then TopMembers(text, Past(text, field.at, 0x2C).value, mode, field.value)
    else if Past(text, field.at, 0x7D).Some? then Ok(field.value, Past(text, field.at, 0x7D).value)
    else Fail
  }

  function TopAt(text: seq<byte>, start: nat, mode: Mode): (r: Parsed<seq<Release>>)
    requires start <= |text|
    ensures r.Ok? ==> start < r.at <= |text|
  {
    var at := Past(text, start, 0x7B);
    // With no members there are no releases.
    var top := if at.None? || Past(text, at.value, 0x7D).Some? then Fail else TopMembers(text, at.value, mode, None);
    if top.Fail? || All(top.value) == [] then Fail else Ok(All(top.value), top.at)
  }

  function ParseChangelog(document: seq<byte>, mode: Mode): Option<seq<Release>> {
    if |document| > MAX_BYTES then None
    else
      var start := if Word(document, 0, BYTE_ORDER_MARK) then 3 else 0;
      var top := TopAt(document, start, mode);
      if top.Ok? && SkipSpace(document, top.at) == |document| then Some(top.value) else None
  }
}
