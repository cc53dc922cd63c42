/** The strict check against the rules written out: a changelog is accepted exactly when it is a JSON document
    of at most 64 KiB that says nothing but an allowed list of releases. */
module ChangelogExact {
  import opened Common
  import opened Bits
  import opened Json
  import opened Versions
  import opened Changelog
  import ChangelogModes
  import opened ChangelogJson
  import opened ChangelogKnown
  import opened ChangelogLaw
  import JsonGrammar
  import JsonSound

  // ----- What is allowed -----

  ghost predicate Says(text: seq<byte>, limit: nat) {
    |text| <= limit && exists i :: 0 <= i < |text| && text[i] !in {0x20, 0x09, 0x0D, 0x0A}
  }

  // The last `width` decimal digits of a number.
  function Padded(n: nat, width: nat): seq<byte>
    decreases width
  {
    if width == 0 then [] else Padded(n / 10, width - 1) + [0x30 + n % 10]
  }

  // A year, a month and a day, with hyphens.
  function Spelled(year: nat, month: nat, day: nat): seq<byte> {
    Padded(year, 4) + [0x2D] + Padded(month, 2) + [0x2D] + Padded(day, 2)
  }

  ghost predicate DateAllowed(date: seq<byte>) {
    exists year: nat, month: nat, day: nat ::
      year <= 9999 && 1 <= month <= 12 && 1 <= day <= 31 && date == Spelled(year, month, day)
  }

  ghost predicate Holds(text: seq<byte>, part: seq<byte>) {
    exists before: seq<byte>, after: seq<byte> :: text == before + part + after
  }

  ghost predicate EndsWith(text: seq<byte>, end: seq<byte>) {
    exists before: seq<byte> :: before != [] && text == before + end
  }

  // A letter, a digit, or one of ".-_/".
  predicate NameByte(b: byte) {
    || 'a' as int <= b <= 'z' as int || 'A' as int <= b <= 'Z' as int || '0' as int <= b <= '9' as int
    || b in {0x2E, 0x2D, 0x5F, 0x2F}
  }

  // A picture below docs/whats-new/ with an admitted name.
  ghost predicate ImageAllowed(path: seq<byte>) {
    && |path| <= 120 && (exists name: seq<byte> :: name != [] && path == Bytes("docs/whats-new/") + name)
    && (forall i :: 0 <= i < |path| ==> NameByte(path[i]))
    && !Holds(path, Bytes("..")) && !Holds(path, Bytes("//"))
    && (EndsWith(path, Bytes(".png")) || EndsWith(path, Bytes(".jpg")) || EndsWith(path, Bytes(".jpeg")))
  }

  ghost predicate FeatureAllowed(f: Feature) {
    Says(f.title, 80) && Says(f.text, 400) && (f.image == [] || ImageAllowed(f.image))
  }

  ghost predicate NotesAllowed(notes: seq<seq<byte>>) {
    |notes| <= 32 && forall i :: 0 <= i < |notes| ==> Says(notes[i], 400)
  }

  ghost predicate ReleaseAllowed(r: Release) {
    && r.version.major <= 65535 && r.version.minor <= 65535 && r.version.patch <= 65535
    && (r.date == [] || DateAllowed(r.date))
    && |r.features| <= 8 && (forall i :: 0 <= i < |r.features| ==> FeatureAllowed(r.features[i]))
    && NotesAllowed(r.fixes) && NotesAllowed(r.changes)
    && |r.features| + |r.fixes| + |r.changes| > 0
  }

  ghost predicate Newer(v: Version, w: Version) {
    || v.major > w.major
    || (v.major == w.major && v.minor > w.minor)
    || (v.major == w.major && v.minor == w.minor && v.patch > w.patch)
  }

  ghost predicate ListAllowed(releases: seq<Release>) {
    && 1 <= |releases| <= 64
    && (forall i :: 0 <= i < |releases| ==> ReleaseAllowed(releases[i]))
    && (forall i, j :: 0 <= i < j < |releases| ==> Newer(releases[i].version, releases[j].version))
  }

  // ----- The source's tests are these -----

  lemma SaysIs(text: seq<byte>, limit: nat)
    ensures Says(text, limit) <==> |text| <= limit && !Blank(text)
  {
  }

  // One digit more.
  lemma PaddedMore(n: nat, digit: nat, width: nat)
    requires digit < 10
    ensures Padded(10 * n + digit, width + 1) == Padded(n, width) + [0x30 + digit]
  {
  }

  lemma {:induction false} PaddedDigits(n: nat, width: nat)
    ensures |Padded(n, width)| == width && forall i :: 0 <= i < width ==> 0x30 <= Padded(n, width)[i] <= 0x39
    decreases width
  {
    if width > 0 {
      PaddedDigits(n / 10, width - 1);
    }
  }

  lemma PaddedTwo(a: nat, b: nat)
    requires a < 10 && b < 10
    ensures Padded(10 * a + b, 2) == [0x30 + a, 0x30 + b]
  {
    PaddedMore(0, a, 0);
    PaddedMore(a, b, 1);
    assert Padded(0, 0) == [];
  }

  lemma PaddedFour(a: nat, b: nat, c: nat, d: nat)
    requires a < 10 && b < 10 && c < 10 && d < 10
    ensures Padded(10 * (10 * (10 * a + b) + c) + d, 4) == [0x30 + a, 0x30 + b, 0x30 + c, 0x30 + d]
  {
    PaddedTwo(a, b);
    PaddedMore(10 * a + b, c, 2);
    PaddedMore(10 * (10 * a + b) + c, d, 3);
    hide Padded;
  }

  lemma DateIs(date: seq<byte>)
    ensures DateAllowed(date) <==> ValidDate(date)
  {
    hide Padded;
    if ValidDate(date) {
      ValidIsSpelled(date);
    }
    forall year: nat, month: nat, day: nat |
        year <= 9999 && 1 <= month <= 12 && 1 <= day <= 31 && date == Spelled(year, month, day)
      ensures ValidDate(date)
    {
      SpelledIsValid(year, month, day);
    }
    hide Spelled, ValidDate;
  }

  lemma ValidIsSpelled(date: seq<byte>)
    requires ValidDate(date)
    ensures DateAllowed(date)
  {
    DigitsOf(date);
    hide DigitValue, TenDigits, DateAllowed;
    FromDigits(date, DigitValue(date[0]), DigitValue(date[1]), DigitValue(date[2]), DigitValue(date[3]),
      DigitValue(date[5]), DigitValue(date[6]), DigitValue(date[8]), DigitValue(date[9]));
  }

  lemma FromDigits(date: seq<byte>, a: nat, b: nat, c: nat, d: nat, m: nat, n: nat, x: nat, y: nat)
    requires a < 10 && b < 10 && c < 10 && d < 10 && m < 10 && n < 10 && x < 10 && y < 10
    requires date == TenDigits(a, b, c, d, m, n, x, y) && 1 <= 10 * m + n <= 12 && 1 <= 10 * x + y <= 31
    ensures DateAllowed(date)
  {
    hide TenDigits, Spelled;
    DigitsSpell(a, b, c, d, m, n, x, y);
    Allowed(date, 10 * (10 * (10 * a + b) + c) + d, 10 * m + n, 10 * x + y);
    hide DateAllowed;
  }

  function TenDigits(a: nat, b: nat, c: nat, d: nat, m: nat, n: nat, x: nat, y: nat): seq<byte>
    requires a < 10 && b < 10 && c < 10 && d < 10 && m < 10 && n < 10 && x < 10 && y < 10
  {
    [0x30 + a, 0x30 + b, 0x30 + c, 0x30 + d, 0x2D, 0x30 + m, 0x30 + n, 0x2D, 0x30 + x, 0x30 + y]
  }

  lemma DigitsOf(date: seq<byte>)
    requires ValidDate(date)
    ensures
      date == TenDigits(DigitValue(date[0]), DigitValue(date[1]), DigitValue(date[2]), DigitValue(date[3]),
                        DigitValue(date[5]), DigitValue(date[6]), DigitValue(date[8]), DigitValue(date[9]))
  {
    TenBytes(date);
  }

  lemma TenBytes(s: seq<byte>)
    requires |s| == 10
    ensures s == [s[0], s[1], s[2], s[3], s[4], s[5], s[6], s[7], s[8], s[9]]
  {
  }

  lemma DigitsSpell(a: nat, b: nat, c: nat, d: nat, m: nat, n: nat, x: nat, y: nat)
    requires a < 10 && b < 10 && c < 10 && d < 10 && m < 10 && n < 10 && x < 10 && y < 10
    ensures Spelled(10 * (10 * (10 * a + b) + c) + d, 10 * m + n, 10 * x + y) == TenDigits(a, b, c, d, m, n, x, y)
  {
    PaddedFour(a, b, c, d);
    PaddedTwo(m, n);
    PaddedTwo(x, y);
    hide Padded;
  }

  lemma Allowed(date: seq<byte>, year: nat, month: nat, day: nat)
    requires year <= 9999 && 1 <= month <= 12 && 1 <= day <= 31 && date == Spelled(year, month, day)
    ensures DateAllowed(date)
  {
    hide Spelled;
  }

  lemma PaddedValue(n: nat)
    requires n < 100
    ensures
      var p := Padded(n, 2);
      && |p| == 2 && IsDigit(p[0]) && IsDigit(p[1]) && 10 * DigitValue(p[0]) + DigitValue(p[1]) == n
  {
    PaddedTwo(n / 10, n % 10);
    hide Padded;
  }

  lemma SpelledIsValid(year: nat, month: nat, day: nat)
    requires 1 <= month <= 12 && 1 <= day <= 31
    ensures ValidDate(Spelled(year, month, day))
  {
    PaddedDigits(year, 4);
    PaddedValue(month);
    PaddedValue(day);
    hide Padded, DigitValue;
    var y, m, d := Padded(year, 4), Padded(month, 2), Padded(day, 2);
    Laid(y, m, d);
  }

  lemma Laid(y: seq<byte>, m: seq<byte>, d: seq<byte>)
    requires |y| == 4 && |m| == 2 && |d| == 2
    ensures
      var date := y + [0x2D] + m + [0x2D] + d;
      && |date| == 10 && date[0] == y[0] && date[1] == y[1] && date[2] == y[2] && date[3] == y[3] && date[4] == 0x2D
      && date[5] == m[0] && date[6] == m[1] && date[7] == 0x2D && date[8] == d[0] && date[9] == d[1]
  {
  }

  lemma NewerIs(v: Version, w: Version)
    ensures Newer(v, w) <==> Less(w, v)
  {
  }

  lemma TextsAre()
    ensures Bytes("docs/whats-new/") == IMAGE_FOLDER && Bytes(".png") == PNG && Bytes(".jpg") == JPG
        && Bytes(".jpeg") == JPEG
    ensures Bytes("..") == [0x2E, 0x2E] && Bytes("//") == [0x2F, 0x2F]
  {
    BytesAre("docs/whats-new/", IMAGE_FOLDER);
    BytesAre(".png", PNG);
    BytesAre(".jpg", JPG);
    BytesAre(".jpeg", JPEG);
    BytesAre("..", [0x2E, 0x2E]);
    BytesAre("//", [0x2F, 0x2F]);
  }

  lemma HoldsPair(path: seq<byte>, b: byte)
    ensures Holds(path, [b, b]) <==> Doubled(path, b)
  {
    if before: seq<byte>, after: seq<byte> :| path == before + [b, b] + after {
      assert path[|before|] == b && path[|before| + 1] == b;
    }
    if Doubled(path, b) {
      var i :| 1 <= i < |path| && path[i] == b && path[i - 1] == b;
      assert path == path[..i - 1] + [b, b] + path[i + 1..];
    }
  }

  lemma EndsIs(path: seq<byte>, suffix: seq<byte>)
    ensures EndsWith(path, suffix) <==> Ends(path, suffix)
  {
    if Ends(path, suffix) {
      assert path == path[..|path| - |suffix|] + path[|path| - |suffix|..];
    }
    if before: seq<byte> :| before != [] && path == before + suffix {
      assert path[|path| - |suffix|..] == suffix;
    }
  }

  lemma StartsIs(path: seq<byte>, folder: seq<byte>)
    ensures (exists name: seq<byte> :: name != [] && path == folder + name)
        <==> |path| > |folder| && path[..|folder|] == folder
  {
    if |path| > |folder| && path[..|folder|] == folder {
      assert path == folder + path[|folder|..];
    }
  }

  lemma ImageIs(path: seq<byte>)
    ensures ImageAllowed(path) <==> ValidImage(path)
  {
    TextsAre();
    HoldsPair(path, 0x2E);
    HoldsPair(path, 0x2F);
    EndsIs(path, PNG);
    EndsIs(path, JPG);
    EndsIs(path, JPEG);
    StartsIs(path, IMAGE_FOLDER);
    NameBytes(path);
    hide Bytes, Holds, EndsWith, Ends, Doubled, IMAGE_FOLDER, PNG, JPG, JPEG, NameByte, PathByte;
  }

  lemma NameBytes(path: seq<byte>)
    ensures (forall i :: 0 <= i < |path| ==> NameByte(path[i])) <==> (forall i :: 0 <= i < |path| ==> PathByte(path[i]))
  {
    assert forall i :: 0 <= i < |path| ==> (NameByte(path[i]) <==> PathByte(path[i]));
    hide NameByte, PathByte;
  }

  lemma FeatureIs(f: Feature)
    ensures FeatureAllowed(f) <==> ValidFeature(f)
  {
    SaysIs(f.title, 80);
    SaysIs(f.text, 400);
    ImageIs(f.image);
    hide Says, Blank, ImageAllowed, ValidImage;
  }

  lemma NotesAre(notes: seq<seq<byte>>)
    ensures NotesAllowed(notes) <==> |notes| <= 32 && forall n :: n in notes ==> ValidNote(n)
  {
    forall i | 0 <= i < |notes|
      ensures Says(notes[i], 400) <==> ValidNote(notes[i])
    {
      SaysIs(notes[i], 400);
    }
    hide Says, Blank;
  }

  lemma ReleaseIs(r: Release)
    ensures ReleaseAllowed(r) <==> ValidRelease(r)
  {
    DateIs(r.date);
    NotesAre(r.fixes);
    NotesAre(r.changes);
    forall i | 0 <= i < |r.features|
      ensures FeatureAllowed(r.features[i]) <==> ValidFeature(r.features[i])
    {
      FeatureIs(r.features[i]);
    }
    hide DateAllowed, ValidDate, NotesAllowed, FeatureAllowed, ValidFeature, ValidNote;
  }

  lemma ListIs(releases: seq<Release>)
    ensures ListAllowed(releases) <==> releases != [] && ChangelogModes.Listed(releases)
  {
    forall i | 0 <= i < |releases|
      ensures ReleaseAllowed(releases[i]) <==> ValidRelease(releases[i])
    {
      ReleaseIs(releases[i]);
    }
    forall i, j | 0 <= i < j < |releases|
      ensures Newer(releases[i].version, releases[j].version) <==> Less(releases[j].version, releases[i].version)
    {
      NewerIs(releases[i].version, releases[j].version);
    }
    hide ReleaseAllowed, ValidRelease, Newer, Less;
  }

  // ----- Strictly, nothing else is said -----

  ghost predicate OnlyKeys(members: seq<Member>, keys: set<seq<byte>>) {
    forall i :: 0 <= i < |members| ==> members[i].key in keys
  }

  ghost predicate FeatureBare(v: Value) {
    v.Object? && OnlyKeys(v.members, {Bytes("title"), Bytes("text"), Bytes("image")})
  }

  ghost predicate ReleaseBare(v: Value) {
    && v.Object?
    && OnlyKeys(v.members, {Bytes("version"), Bytes("date"), Bytes("features"), Bytes("fixes"), Bytes("changes")})
    && var o := Under(v.members, "features");
       o.Some? && o.value.Array? ==> forall i :: 0 <= i < |o.value.items| ==> FeatureBare(o.value.items[i])
  }

  ghost predicate DocumentBare(v: Value) {
    && v.Object? && OnlyKeys(v.members, {Bytes("releases")})
    && var o := Under(v.members, "releases");
       o.Some? && o.value.Array? ==> forall i :: 0 <= i < |o.value.items| ==> ReleaseBare(o.value.items[i])
  }

  // ----- What is accepted is bare -----

  lemma {:induction false} FeatureInBare(members: seq<Member>, draft: FeatureDraft)
    requires FeatureIn(members, Strict, draft).Some?
    ensures OnlyKeys(members, {Bytes("title"), Bytes("text"), Bytes("image")})
    decreases |members|
  {
    KeysAre();
    hide Bytes, TITLE_KEY, TEXT_KEY, IMAGE_KEY, TextOf, ImageOf;
    if members != [] {
      FeatureInBare(members[1..], FeatureFieldOf(members[0], Strict, draft).value);
      assert forall i :: 1 <= i < |members| ==> members[i] == members[1..][i - 1];
    }
  }

  lemma {:induction false} FeaturesInBare(items: seq<Value>, features: seq<Feature>)
    requires FeaturesIn(items, Strict, features).Some?
    ensures forall i :: 0 <= i < |items| ==> FeatureBare(items[i])
    decreases |items|
  {
    hide FeatureOf, FeatureIn, Bytes;
    if items != [] {
      FeatureInBare(items[0].members, NO_FEATURE);
      FeaturesInBare(items[1..], features + [FeatureFor(items[0], Strict).value]);
      assert forall i :: 1 <= i < |items| ==> items[i] == items[1..][i - 1];
    }
  }

  lemma {:induction false} ReleaseInBare(members: seq<Member>, draft: ReleaseDraft)
    requires ReleaseIn(members, Strict, draft).Some?
    ensures OnlyKeys(members, {Bytes("version"), Bytes("date"), Bytes("features"), Bytes("fixes"), Bytes("changes")})
    decreases |members|
  {
    KeysAre();
    hide Bytes, VERSION_KEY, DATE_KEY, FEATURES_KEY, FIXES_KEY, CHANGES_KEY, VersionIn, DateOf, FeaturesOf, NotesOf;
    if members != [] {
      ReleaseInBare(members[1..], ReleaseFieldOf(members[0], Strict, draft).value);
      assert forall i :: 1 <= i < |members| ==> members[i] == members[1..][i - 1];
    }
  }

  lemma ReleaseForBare(v: Value)
    requires ReleaseFor(v, Strict).Some?
    ensures ReleaseBare(v)
  {
    ReleaseInBare(v.members, NO_RELEASE);
    ReleaseInTook(v.members, Strict, NO_RELEASE);
    hide Bytes, ReleaseIn, ReleaseOf, FeaturesIn, FeatureBare;
    var o := Under(v.members, "features");
    if o.Some? && o.value.Array? {
      FeaturesInBare(o.value.items, []);
    }
  }

  lemma {:induction false} ReleasesInBare(items: seq<Value>, releases: seq<Release>)
    requires ReleasesIn(items, Strict, releases).Some?
    ensures forall i :: 0 <= i < |items| ==> ReleaseBare(items[i])
    decreases |items|
  {
    hide ReleaseFor, ReleaseBare, Follows;
    if items != [] {
      ReleaseForBare(items[0]);
      ReleasesInBare(items[1..], releases + [ReleaseFor(items[0], Strict).value]);
      assert forall i :: 1 <= i < |items| ==> items[i] == items[1..][i - 1];
    }
  }

  lemma SchemaBare(v: Value)
    requires Schema(v, Strict).Some?
    ensures DocumentBare(v)
  {
    StrictSchemaIsReleases(v);
    KeysAre();
    hide Bytes, RELEASES_KEY, Schema, ReleasesIn, ReleaseBare;
    ReleasesInBare(v.members[0].value.items, []);
  }

  // ----- What is bare and allowed is accepted -----

  lemma {:induction false} UnderHas(members: seq<Member>, key: string)
    ensures Under(members, key).Some? <==> HasKey(members, Bytes(key))
    decreases |members|
  {
    hide Bytes;
    if members != [] {
      UnderHas(members[1..], key);
      assert members == [members[0]] + members[1..];
      assert forall i :: 1 <= i < |members| ==> members[i] == members[1..][i - 1];
      assert members[0].key == Bytes(key) ==> HasKey(members, Bytes(key));
      if HasKey(members[1..], Bytes(key)) {
        var i :| 0 <= i < |members[1..]| && members[1..][i].key == Bytes(key);
        assert members[i + 1].key == Bytes(key);
      }
    }
  }

  // A field further on is the first under its key.
  lemma UnderRest(members: seq<Member>, key: string)
    requires members != [] && DistinctKeys(members)
    ensures DistinctKeys(members[1..])
    ensures Under(members[1..], key).Some? ==>
        Under(members, key) == Under(members[1..], key) && members[0].key != Bytes(key)
    ensures members[0].key == Bytes(key) ==> Under(members, key) == Some(members[0].value)
  {
    UnderHas(members[1..], key);
    RestKeys(members);
    hide Bytes, DistinctKeys, HasKey;
  }

  ghost predicate FeatureReads(members: seq<Member>) {
    var t, x, i := Under(members, "title"), Under(members, "text"), Under(members, "image");
    && (t.Some? ==> TextOf(t.value, MAX_TITLE).Some?) && (x.Some? ==> TextOf(x.value, MAX_TEXT).Some?)
    && (i.Some? ==> ImageOf(i.value).Some?)
  }

  lemma FeatureReadsRest(members: seq<Member>)
    requires members != [] && DistinctKeys(members) && FeatureReads(members)
    ensures FeatureReads(members[1..]) && DistinctKeys(members[1..])
  {
    UnderRest(members, "title");
    UnderRest(members, "text");
    UnderRest(members, "image");
    hide Bytes, DistinctKeys, TextOf, ImageOf, Under;
  }

  lemma FeatureFieldGoes(members: seq<Member>, draft: FeatureDraft)
    requires members != [] && FeatureReads(members) && FeatureOpen(members, draft)
    requires members[0].key in {Bytes("title"), Bytes("text"), Bytes("image")}
    ensures FeatureFieldOf(members[0], Strict, draft).Some?
  {
    KeysAre();
    FeatureKeys();
    UnderHas(members, "title");
    UnderHas(members, "text");
    UnderHas(members, "image");
    hide Bytes, HasKey, TextOf, ImageOf, TITLE_KEY, TEXT_KEY, IMAGE_KEY;
  }

  lemma {:induction false} FeatureInGoes(members: seq<Member>, draft: FeatureDraft)
    requires DistinctKeys(members) && FeatureReads(members) && FeatureOpen(members, draft)
    requires OnlyKeys(members, {Bytes("title"), Bytes("text"), Bytes("image")})
    ensures FeatureIn(members, Strict, draft).Some?
    decreases |members|
  {
    hide Bytes, DistinctKeys, HasKey, FeatureReads, FeatureOpen, FeatureFieldOf, Under;
    if members != [] {
      FeatureFieldGoes(members, draft);
      FeatureOpenMore(members, draft);
      FeatureReadsRest(members);
      FeatureFieldModes(members[0], draft);
      assert forall i :: 0 <= i < |members[1..]| ==> members[1..][i] == members[i + 1];
      FeatureInGoes(members[1..], FeatureFieldOf(members[0], Strict, draft).value);
    }
  }

  // What is taken strictly is taken leniently, too.
  lemma FeatureFieldModes(m: Member, draft: FeatureDraft)
    requires FeatureFieldOf(m, Strict, draft).Some?
    ensures FeatureFieldOf(m, Lenient, draft) == FeatureFieldOf(m, Strict, draft)
  {
    hide TextOf, ImageOf;
  }

  lemma NothingOpen()
    ensures forall members :: FeatureOpen(members, NO_FEATURE) && ReleaseOpen(members, NO_RELEASE)
  {
  }

  lemma FeatureForBack(v: Value, f: Feature)
    requires FeatureTells(v, f) && FeatureBare(v) && ValidFeature(f) && DistinctKeys(v.members)
    ensures FeatureFor(v, Strict) == Some(f)
  {
    NothingOpen();
    FeatureTold(v, f);
    hide Bytes, DistinctKeys, FeatureReads, FeatureOpen, FeatureIn, Under, ValidImage, Blank;
    FeatureInGoes(v.members, NO_FEATURE);
    FeatureInTook(v.members, Strict, NO_FEATURE);
    FeatureDraftIs(v, f, FeatureIn(v.members, Strict, NO_FEATURE).value);
  }

  lemma FeatureTold(v: Value, f: Feature)
    requires FeatureTells(v, f) && ValidFeature(f)
    ensures FeatureReads(v.members)
  {
    ImageIsShort(f.image);
    hide Bytes, Under, Blank, ValidImage;
  }

  lemma ImageIsShort(path: seq<byte>)
    ensures ValidImage(path) ==> 0 < |path| <= MAX_IMAGE
  {
  }

  lemma FeatureDraftIs(v: Value, f: Feature, d: FeatureDraft)
    requires FeatureTells(v, f) && ValidFeature(f) && FeatureTook(v.members, NO_FEATURE, d)
    ensures FeatureOf(d) == Some(f)
  {
    NothingBlank();
    NoImage();
    hide Bytes, Under, Blank, ValidImage;
  }

  lemma {:induction false} NotesInBack(items: seq<Value>, notes: seq<seq<byte>>, more: seq<seq<byte>>)
    requires |items| == |more| && |notes| + |more| <= MAX_CHANGES
    requires forall i :: 0 <= i < |more| ==> items[i] == String(more[i]) && ValidNote(more[i])
    ensures NotesIn(items, notes) == Some(notes + more)
    decreases |items|
  {
    hide Blank;
    if items == [] {
      assert notes + more == notes;
    } else {
      NotesInBack(items[1..], notes + [more[0]], more[1..]);
      assert notes + [more[0]] + more[1..] == notes + more;
    }
  }

  lemma NotesOfBack(v: Value, notes: seq<seq<byte>>)
    requires NotesTell(Some(v), notes) && |notes| <= MAX_CHANGES && forall n :: n in notes ==> ValidNote(n)
    ensures NotesOf(v) == Some(notes)
  {
    hide NotesIn, ValidNote;
    NotesInBack(v.items, [], notes);
    assert [] + notes == notes;
  }

  lemma {:induction false} FeaturesInBack(items: seq<Value>, features: seq<Feature>, more: seq<Feature>)
    requires |items| == |more| && |features| + |more| <= MAX_FEATURES
    requires forall i :: 0 <= i < |more| ==> FeatureFor(items[i], Strict) == Some(more[i])
    ensures FeaturesIn(items, Strict, features) == Some(features + more)
    decreases |items|
  {
    hide FeatureFor;
    if items == [] {
      assert features + more == features;
    } else {
      FeaturesInBack(items[1..], features + [more[0]], more[1..]);
      assert features + [more[0]] + more[1..] == features + more;
    }
  }

  // ----- Objects have distinct keys, and so do those within -----

  ghost predicate Distinct(v: Value) {
    && (v.Object? ==> DistinctKeys(v.members) && forall i :: 0 <= i < |v.members| ==> Distinct(v.members[i].value))
    && (v.Array? ==> forall i :: 0 <= i < |v.items| ==> Distinct(v.items[i]))
  }

  lemma {:induction false} AdmittedIsDistinct(v: Value, depth: nat, finite: seq<byte> -> bool)
    requires Admitted(v, depth, finite)
    ensures Distinct(v)
    decreases v
  {
    match v
    case Array(items) =>
      forall i | 0 <= i < |items| ensures Distinct(items[i]) {
        AdmittedIsDistinct(items[i], depth - 1, finite);
      }
    case Object(members) =>
      forall i | 0 <= i < |members| ensures Distinct(members[i].value) {
        AdmittedIsDistinct(members[i].value, depth - 1, finite);
      }
    case _ =>
  }

  lemma {:induction false} UnderDistinct(members: seq<Member>, key: string)
    requires Under(members, key).Some? && forall i :: 0 <= i < |members| ==> Distinct(members[i].value)
    ensures Distinct(Under(members, key).value)
    decreases |members|
  {
    hide Bytes, Distinct;
    if members[0].key != Bytes(key) {
      assert forall i :: 0 <= i < |members[1..]| ==> members[1..][i] == members[i + 1];
      UnderDistinct(members[1..], key);
    }
  }

  lemma FeaturesOfBack(v: Value, features: seq<Feature>)
    requires FeaturesTell(Some(v), features) && |features| <= MAX_FEATURES && Distinct(v)
    requires forall i :: 0 <= i < |features| ==> FeatureBare(v.items[i]) && ValidFeature(features[i])
    ensures FeaturesOf(v, Strict) == Some(features)
  {
    hide FeaturesIn, FeatureTells, FeatureBare, ValidFeature, FeatureFor, DistinctKeys;
    forall i | 0 <= i < |features|
      ensures FeatureFor(v.items[i], Strict) == Some(features[i])
    {
      assert FeatureTells(v.items[i], features[i]);
      assert v.items[i].Object? by { IsObject(v.items[i], features[i]); }
      FeatureForBack(v.items[i], features[i]);
    }
    FeaturesInBack(v.items, [], features);
    assert [] + features == features;
  }

  lemma IsObject(v: Value, f: Feature)
    requires FeatureTells(v, f)
    ensures v.Object?
  {
  }

  // ----- Releases -----

  ghost predicate ReleaseReads(members: seq<Member>) {
    var v, t, f, x, c := Under(members, "version"), Under(members, "date"), Under(members, "features"),
                         Under(members, "fixes"), Under(members, "changes");
    && (v.Some? ==> VersionIn(v.value).Some?) && (t.Some? ==> DateOf(t.value).Some?)
    && (f.Some? ==> FeaturesOf(f.value, Strict).Some?)
    && (x.Some? ==> NotesOf(x.value).Some?) && (c.Some? ==> NotesOf(c.value).Some?)
  }

  lemma ReleaseReadsRest(members: seq<Member>)
    requires members != [] && DistinctKeys(members) && ReleaseReads(members)
    ensures ReleaseReads(members[1..]) && DistinctKeys(members[1..])
  {
    UnderRest(members, "version");
    UnderRest(members, "date");
    UnderRest(members, "features");
    UnderRest(members, "fixes");
    UnderRest(members, "changes");
    hide Bytes, DistinctKeys, VersionIn, DateOf, FeaturesOf, NotesOf, Under;
  }

  lemma ReleaseFieldGoes(members: seq<Member>, draft: ReleaseDraft)
    requires members != [] && DistinctKeys(members) && ReleaseReads(members) && ReleaseOpen(members, draft)
    requires members[0].key in {Bytes("version"), Bytes("date"), Bytes("features"), Bytes("fixes"), Bytes("changes")}
    ensures ReleaseFieldOf(members[0], Strict, draft).Some?
  {
    KeysAre();
    ReleaseKeys();
    RestKeys(members);
    UnderRest(members, "version");
    UnderRest(members, "date");
    UnderRest(members, "features");
    UnderRest(members, "fixes");
    UnderRest(members, "changes");
    hide Bytes, HasKey, DistinctKeys, VersionIn, DateOf, FeaturesOf, NotesOf, Under;
    hide VERSION_KEY, DATE_KEY, FEATURES_KEY, FIXES_KEY, CHANGES_KEY;
  }

  lemma ReleaseOpenRest(members: seq<Member>, draft: ReleaseDraft)
    requires members != [] && DistinctKeys(members) && ReleaseOpen(members, draft)
    requires ReleaseFieldOf(members[0], Strict, draft).Some?
    ensures ReleaseOpen(members[1..], ReleaseFieldOf(members[0], Strict, draft).value)
  {
    ReleaseKeys();
    RestKeys(members);
    hide HasKey, DistinctKeys, VersionIn, DateOf, NotesOf, FeaturesOf;
  }

  lemma {:induction false} ReleaseInGoes(members: seq<Member>, draft: ReleaseDraft)
    requires DistinctKeys(members) && ReleaseReads(members) && ReleaseOpen(members, draft)
    requires OnlyKeys(members, {Bytes("version"), Bytes("date"), Bytes("features"), Bytes("fixes"), Bytes("changes")})
    ensures ReleaseIn(members, Strict, draft).Some?
    decreases |members|
  {
    hide Bytes, DistinctKeys, HasKey, ReleaseReads, ReleaseOpen, ReleaseFieldOf, Under;
    if members != [] {
      ReleaseFieldGoes(members, draft);
      ReleaseOpenRest(members, draft);
      ReleaseReadsRest(members);
      assert forall i :: 0 <= i < |members[1..]| ==> members[1..][i] == members[i + 1];
      ReleaseInGoes(members[1..], ReleaseFieldOf(members[0], Strict, draft).value);
    }
  }

  // What is told of one field is read from it.
  lemma VersionToldReads(o: Option<Value>, v: Version)
    requires o == Some(String(VersionText(v))) && Fits(v)
    ensures VersionIn(o.value) == Some(v)
  {
    VersionIsShort(v);
    VersionExact(VersionText(v), v);
    hide VersionOf, VersionText;
  }

  lemma {:induction false} DecimalIsShort(n: nat, digits: nat)
    requires n < Ten(digits) && digits > 0
    ensures |Decimal(n)| <= digits
    decreases digits
  {
    if n >= 10 {
      DecimalIsShort(n / 10, digits - 1);
    }
  }

  function Ten(k: nat): nat {
    if k == 0 then 1 else 10 * Ten(k - 1)
  }

  lemma VersionIsShort(v: Version)
    requires Fits(v)
    ensures |VersionText(v)| <= MAX_VERSION
  {
    assert Ten(2) == 100 && Ten(4) == 10000 && Ten(5) == 100000;
    DecimalIsShort(v.major, 5);
    DecimalIsShort(v.minor, 5);
    DecimalIsShort(v.patch, 5);
    hide Decimal;
  }

  lemma DateToldReads(o: Option<Value>, date: seq<byte>)
    requires TextTells(o, date) && (date == [] || ValidDate(date))
    ensures o.Some? ==> DateOf(o.value) == Some(date)
  {
  }

  lemma FeaturesToldRead(o: Option<Value>, features: seq<Feature>)
    requires FeaturesTell(o, features) && |features| <= MAX_FEATURES && forall f :: f in features ==> ValidFeature(f)
    requires o.Some? ==> Distinct(o.value) && forall i :: 0 <= i < |features| ==> FeatureBare(o.value.items[i])
    ensures o.Some? ==> FeaturesOf(o.value, Strict) == Some(features)
    ensures o.None? ==> features == []
  {
    hide FeatureTells, FeatureBare, ValidFeature, FeaturesOf, Distinct;
    if o.Some? {
      FeaturesOfBack(o.value, features);
    }
  }

  lemma NotesToldRead(o: Option<Value>, notes: seq<seq<byte>>)
    requires NotesTell(o, notes) && |notes| <= MAX_CHANGES && forall n :: n in notes ==> ValidNote(n)
    ensures o.Some? ==> NotesOf(o.value) == Some(notes)
    ensures o.None? ==> notes == []
  {
    hide NotesOf, ValidNote;
    if o.Some? {
      NotesOfBack(o.value, notes);
    }
  }

  ghost predicate ReleaseReadAs(members: seq<Member>, r: Release) {
    var v, t, f, x, c := Under(members, "version"), Under(members, "date"), Under(members, "features"),
                         Under(members, "fixes"), Under(members, "changes");
    && v.Some? && VersionIn(v.value) == Some(r.version)
    && (if t.Some? then DateOf(t.value) == Some(r.date) else r.date == [])
    && (if f.Some? then FeaturesOf(f.value, Strict) == Some(r.features) else r.features == [])
    && (if x.Some? then NotesOf(x.value) == Some(r.fixes) else r.fixes == [])
    && (if c.Some? then NotesOf(c.value) == Some(r.changes) else r.changes == [])
  }

  lemma ReleaseTold(v: Value, r: Release)
    requires ReleaseTells(v, r) && ReleaseBare(v) && ValidRelease(r) && Distinct(v)
    ensures ReleaseReadAs(v.members, r)
  {
    var features := Under(v.members, "features");
    if features.Some? {
      UnderDistinct(v.members, "features");
    }
    hide Bytes, Under, Distinct, VersionText, ValidDate, ValidFeature, ValidNote, FeatureBare, FeatureTells, FeaturesOf,
      NotesOf, VersionIn, DateOf;
    VersionToldReads(Under(v.members, "version"), r.version);
    DateToldReads(Under(v.members, "date"), r.date);
    FeaturesToldRead(features, r.features);
    NotesToldRead(Under(v.members, "fixes"), r.fixes);
    NotesToldRead(Under(v.members, "changes"), r.changes);
  }

  lemma ReleaseDraftIs(members: seq<Member>, r: Release, d: ReleaseDraft)
    requires ReleaseReadAs(members, r) && HasContent(r) && ReleaseTook(members, Strict, NO_RELEASE, d)
    ensures ReleaseOf(d) == Some(r)
  {
    hide Under, Bytes, VersionIn, DateOf, FeaturesOf, NotesOf;
  }

  lemma ReleaseForBack(v: Value, r: Release)
    requires ReleaseTells(v, r) && ReleaseBare(v) && ValidRelease(r) && Distinct(v)
    ensures ReleaseFor(v, Strict) == Some(r)
  {
    ReleaseTold(v, r);
    NothingOpen();
    hide ReleaseTook, ReleaseTells, ValidFeature, ValidNote, ValidDate, Under, Bytes, VersionIn, DateOf, FeaturesOf,
      NotesOf, ReleaseIn, ReleaseOpen, DistinctKeys, ReleaseOf;
    ReleaseInGoes(v.members, NO_RELEASE);
    ReleaseInTook(v.members, Strict, NO_RELEASE);
    ReleaseDraftIs(v.members, r, ReleaseIn(v.members, Strict, NO_RELEASE).value);
  }

  lemma {:induction false} ReleasesInBack(items: seq<Value>, releases: seq<Release>, more: seq<Release>)
    requires |items| == |more| && |releases| + |more| <= MAX_RELEASES
    requires forall i :: 0 <= i < |more| ==> ReleaseFor(items[i], Strict) == Some(more[i])
    requires Descending(releases + more)
    ensures ReleasesIn(items, Strict, releases) == Some(releases + more)
    decreases |items|
  {
    hide ReleaseFor;
    if items == [] {
      assert releases + more == releases;
    } else {
      var all := releases + more;
      assert Follows(releases, more[0]) by {
        assert releases != [] ==> all[|releases| - 1] == releases[|releases| - 1] && all[|releases|] == more[0];
      }
      hide Descending, Follows;
      assert releases + [more[0]] + more[1..] == all;
      ReleasesInBack(items[1..], releases + [more[0]], more[1..]);
    }
  }

  lemma SchemaBack(v: Value, releases: seq<Release>)
    requires DocumentTells(v, releases) && DocumentBare(v) && Distinct(v)
    requires releases != [] && ChangelogModes.Listed(releases)
    ensures Schema(v, Strict) == Some(releases)
  {
    var o := Under(v.members, "releases");
    UnderDistinct(v.members, "releases");
    forall i | 0 <= i < |releases|
      ensures ReleaseFor(o.value.items[i], Strict) == Some(releases[i])
    {
      assert ReleaseTells(o.value.items[i], releases[i]) && ReleaseBare(o.value.items[i]);
      hide ReleaseTells, ReleaseBare, ValidRelease, ReleaseFor;
      ReleaseForBack(o.value.items[i], releases[i]);
    }
    hide ReleaseTells, ReleaseBare, ValidRelease, ReleaseFor, Schema, ReleasesIn, Descending;
    assert [] + releases == releases;
    ReleasesInBack(o.value.items, [], releases);
    OneMember(v);
    StrictSchemaIsReleases(v);
  }

  lemma OneMember(v: Value)
    requires DocumentBare(v) && Distinct(v) && Under(v.members, "releases").Some?
    ensures |v.members| == 1 && v.members[0].key == RELEASES_KEY
        && Under(v.members, "releases") == Some(v.members[0].value)
  {
    KeysAre();
    hide ReleaseBare, Bytes;
    if |v.members| > 1 {
      TwoKeys(v.members);
    }
  }

  lemma TwoKeys(members: seq<Member>)
    requires DistinctKeys(members) && |members| > 1
    ensures members[0].key != members[1].key
  {
  }

  // A text is accepted strictly as these releases exactly if it is a JSON document of at most 64 KiB that
  // says them, member by member, and nothing else, and they are an allowed list.
  lemma StrictExactly(document: seq<byte>, releases: seq<Release>, finite: seq<byte> -> bool)
    ensures ParseChangelog(document, Strict) == Some(releases) <==>
        && |document| <= 65536 && Parse(document, finite).Some?
        && DocumentTells(Parse(document, finite).value, releases) && DocumentBare(Parse(document, finite).value)
        && ListAllowed(releases)
  {
    StrictIsJson(document, finite);
    ListIs(releases);
    if Parse(document, finite).Some? {
      var before, t, after := JsonSound.ParseSound(document, finite);
      AdmittedIsDistinct(Parse(document, finite).value, 32, finite);
    }
    hide Parse, Schema, DocumentTells, DocumentBare, Distinct, ChangelogModes.Listed, ListAllowed;
    if ParseChangelog(document, Strict) == Some(releases) {
      ChangelogModes.AcceptedIsListed(document, Strict);
      AcceptedTells(document, Strict, finite);
      SchemaBare(Parse(document, finite).value);
    }
    hide ParseChangelog;
    if Parse(document, finite).Some? && DocumentTells(Parse(document, finite).value, releases)
       && DocumentBare(Parse(document, finite).value) && ListAllowed(releases) {
      SchemaBack(Parse(document, finite).value, releases);
    }
  }
}
