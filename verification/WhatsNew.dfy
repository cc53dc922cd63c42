/** What's new: the releases up to the installed version and after it, and the page made of them. */
module WhatsNew {
  import opened Common
  import opened Bits
  import opened Json
  import opened Versions
  import opened Changelog

  predicate UpTo(v: Version, installed: Version) {
    v == installed || Less(v, installed)
  }

  // Those of the installed version or older; those newer; in their order.
  function Older(releases: seq<Release>, installed: Version): seq<Release> {
    if releases == [] then []
    else
      var last := releases[|releases| - 1];
      Older(releases[..|releases| - 1], installed) + if UpTo(last.version, installed) then [last] else []
  }

  function Newer(releases: seq<Release>, installed: Version): seq<Release> {
    if releases == [] then []
    else
      var last := releases[|releases| - 1];
      Newer(releases[..|releases| - 1], installed) + if Less(installed, last.version) then [last] else []
  }

  method ReleasesUpTo(releases: seq<Release>, installed: Version) returns (shown: seq<Release>)
    ensures shown == Older(releases, installed)
  {
    shown := [];
    for i := 0 to |releases|
      invariant shown == Older(releases[..i], installed)
    {
      assert releases[..i + 1][..i] == releases[..i];
      if UpTo(releases[i].version, installed) {
        shown := shown + [releases[i]];
      }
    }
    assert releases[..|releases|] == releases;
  }

  method ReleasesAfter(releases: seq<Release>, installed: Version) returns (upcoming: seq<Release>)
    ensures upcoming == Newer(releases, installed)
  {
    upcoming := [];
    for i := 0 to |releases|
      invariant upcoming == Newer(releases[..i], installed)
    {
      assert releases[..i + 1][..i] == releases[..i];
      if Less(installed, releases[i].version) {
        upcoming := upcoming + [releases[i]];
      }
    }
    assert releases[..|releases|] == releases;
  }

  // In a descending list the newer come first: the two parts are the list cut in two.
  lemma {:induction false} PartsAreTheList(releases: seq<Release>, installed: Version)
    requires Descending(releases)
    ensures Newer(releases, installed) + Older(releases, installed) == releases
    ensures forall r :: r in Older(releases, installed) ==> UpTo(r.version, installed)
    ensures forall r :: r in Newer(releases, installed) ==> Less(installed, r.version)
  {
    if releases != [] {
      var before, last := releases[..|releases| - 1], releases[|releases| - 1];
      var newer, older := Newer(before, installed), Older(before, installed);
      PartsAreTheList(before, installed);
      LessIsStrict(last.version, installed, last.version);
      assert releases == before + [last];
      if Less(installed, last.version) {
        NewestRemain(before, last, installed);
        AllNewer(releases, installed);
        assert releases + [] == releases;
      } else {
        hide Less, Descending;
        assert Newer(releases, installed) == newer + [] && Older(releases, installed) == older + [last];
        hide Newer, Older;
        Regroup(newer, older, [last]);
      }
    }
  }

  lemma NewestRemain(before: seq<Release>, last: Release, installed: Version)
    requires Descending(before + [last]) && Less(installed, last.version)
    ensures forall r :: r in before + [last] ==> Less(installed, r.version)
  {
    var all := before + [last];
    forall i | 0 <= i < |before| ensures Less(installed, before[i].version) {
      assert all[i] == before[i] && all[|before|] == last;
      LessIsStrict(installed, last.version, before[i].version);
    }
  }

  lemma {:induction false} AllNewer(releases: seq<Release>, installed: Version)
    requires forall r :: r in releases ==> Less(installed, r.version)
    ensures Older(releases, installed) == [] && Newer(releases, installed) == releases
  {
    if releases != [] {
      var before, last := releases[..|releases| - 1], releases[|releases| - 1];
      assert releases == before + [last] && last in releases;
      AllNewer(before, installed);
      LessIsStrict(installed, last.version, installed);
    }
  }

  // ----- The blocks of the page -----

  type Text = seq<byte>

  datatype Kind = Heading | Section | Featured | Bullet | Listed | Note

  // `wording` is the English wording around the notes, into which `value` is filled; None for the notes.
  datatype Block = Block(kind: Kind, text: Text, detail: Text, image: Text, wording: Option<string>, value: Text)

  const NEW_FEATURES := "New features"
  const FIXES := "Fixes"
  const CHANGES := "Changes"
  const OTHER_CHANGES := "Other changes"
  const COMING := "Coming in the next update"
  const EARLIER := "Earlier versions"
  const FIXED := "Fixed: {0}"
  const NO_NOTES := "No notes are listed for Taxi Cam {0} yet."
  const TAXI_CAM := "Taxi Cam "
  const MONTHS: seq<string> :=
    ["January", "February", "March", "April", "May", "June", "July", "August", "September", "October", "November",
      "December"]

  // The value in the place of the first {0}.
  function Filled(wording: string, value: Text): Text {
    if wording == "" then []
    else if |wording| >= 3 && wording[..3] == "{0}" then value + Bytes(wording[3..])
    else Bytes(wording[..1]) + Filled(wording[1..], value)
  }

  function Chrome(kind: Kind, wording: string, value: Text): Block {
    Block(kind, Filled(wording, value), [], [], Some(wording), value)
  }

  // A date as day, name of the month and year; anything else as it is.
  function DateText(date: seq<byte>): Text {
    if !ValidDate(date) then date else Spelled(Two(date, 8), Two(date, 5), date[..4])
  }

  function Spelled(day: nat, month: nat, year: Text): Text
    requires 1 <= month <= 12
  {
    Decimal(day) + [SPACE] + Bytes(MONTHS[month - 1]) + [SPACE] + year
  }

  const SPACE: byte := 0x20

  // A number of two digits.
  function Two(date: seq<byte>, at: nat): nat
    requires at + 1 < |date| && IsDigit(date[at]) && IsDigit(date[at + 1])
  {
    10 * DigitValue(date[at]) + DigitValue(date[at + 1])
  }

  function TitleText(version: Version): Text {
    Bytes(TAXI_CAM) + VersionText(version)
  }

  function Title(kind: Kind, r: Release): Block {
    Block(kind, TitleText(r.version), DateText(r.date), [], None, [])
  }

  function FeatureBlock(f: Feature): Block {
    Block(Featured, f.title, f.text, f.image, None, [])
  }

  // A line of a list: a text as it is, or a fix named as one.
  datatype Line = Plain(text: Text) | Fixed(note: Text)

  function BulletOf(line: Line): Block {
    match line
    case Plain(text) => Block(Bullet, text, [], [], None, [])
    case Fixed(note) => Chrome(Bullet, FIXED, note)
  }

  function Bullets(lines: seq<Line>): seq<Block> {
    if lines == [] then [] else Bullets(lines[..|lines| - 1]) + [BulletOf(lines[|lines| - 1])]
  }

  function Features(features: seq<Feature>): seq<Block> {
    if features == [] then [] else Features(features[..|features| - 1]) + [FeatureBlock(features[|features| - 1])]
  }

  // Between the title and the text of a feature on one line.
  const COLON: seq<byte> := [0x3A, SPACE]

  function FeatureLines(features: seq<Feature>): seq<Line> {
    if features == [] then []
    else
      var f := features[|features| - 1];
      FeatureLines(features[..|features| - 1]) + [Plain(f.title + COLON + f.text)]
  }

  function NoteLines(notes: seq<Text>): seq<Line> {
    if notes == [] then [] else NoteLines(notes[..|notes| - 1]) + [Plain(notes[|notes| - 1])]
  }

  function FixLines(notes: seq<Text>): seq<Line> {
    if notes == [] then [] else FixLines(notes[..|notes| - 1]) + [Fixed(notes[|notes| - 1])]
  }

  // ----- The page -----

  // What is said of a release on a few lines.
  function Lines(r: Release): seq<Line> {
    FeatureLines(r.features) + FixLines(r.fixes) + NoteLines(r.changes)
  }

  function Compact(r: Release): seq<Block> {
    [Title(Listed, r)] + Bullets(Lines(r))
  }

  function Compacts(releases: seq<Release>): seq<Block> {
    if releases == [] then [] else Compacts(releases[..|releases| - 1]) + Compact(releases[|releases| - 1])
  }

  function Divided(needed: bool, section: string): seq<Block> {
    if needed then [Chrome(Section, section, [])] else []
  }

  function ChangesTitle(r: Release): string {
    if r.features == [] && r.fixes == [] then CHANGES else OTHER_CHANGES
  }

  // The installed release in full.
  function Full(r: Release): seq<Block> {
    [Title(Heading, r)]
    + Divided(r.features != [], NEW_FEATURES) + Features(r.features)
    + Divided(r.fixes != [], FIXES) + Bullets(NoteLines(r.fixes))
    + Divided(r.changes != [], ChangesTitle(r)) + Bullets(NoteLines(r.changes))
  }

  function NoNotes(installed: Version): Block {
    Chrome(Note, NO_NOTES, VersionText(installed))
  }

  function Page(releases: seq<Release>, installed: Version): seq<Block> {
    var shown, upcoming := Older(releases, installed), Newer(releases, installed);
    (if shown == [] then [NoNotes(installed)] else Full(shown[0]))
    + Divided(upcoming != [], COMING) + Compacts(upcoming)
    + Divided(|shown| > 1, EARLIER) + (if shown == [] then [] else Compacts(shown[1..]))
  }

  lemma {:induction false} BulletsAppend(a: seq<Line>, b: seq<Line>)
    ensures Bullets(a + b) == Bullets(a) + Bullets(b)
  {
    if b == [] {
      assert a + b == a;
    } else {
      BulletsAppend(a, b[..|b| - 1]);
      assert (a + b)[..|a + b| - 1] == a + b[..|b| - 1];
    }
  }

  lemma CompactParts(r: Release)
    ensures Compact(r)
         == [Title(Listed, r)] + Bullets(FeatureLines(r.features)) + Bullets(FixLines(r.fixes))
           + Bullets(NoteLines(r.changes))
  {
    BulletsAppend(FeatureLines(r.features) + FixLines(r.fixes), NoteLines(r.changes));
    BulletsAppend(FeatureLines(r.features), FixLines(r.fixes));
    hide Bullets, FeatureLines, FixLines, NoteLines, Title;
  }

  method AddCompact(blocks: seq<Block>, r: Release) returns (more: seq<Block>)
    ensures more == blocks + Compact(r)
  {
    CompactParts(r);
    hide Compact, Title, Bullets, FeatureLines, FixLines, NoteLines;
    more := blocks + [Title(Listed, r)];
    ghost var title := more;
    NoLines();
    for i := 0 to |r.features|
      invariant more == title + Bullets(FeatureLines(r.features[..i]))
    {
      FeatureLinesMore(r.features, i);
      more := more + [BulletOf(Plain(r.features[i].title + COLON + r.features[i].text))];
    }
    assert r.features[..|r.features|] == r.features;
    ghost var features := more;
    for i := 0 to |r.fixes|
      invariant more == features + Bullets(FixLines(r.fixes[..i]))
    {
      FixLinesMore(r.fixes, i);
      more := more + [BulletOf(Fixed(r.fixes[i]))];
    }
    assert r.fixes[..|r.fixes|] == r.fixes;
    more := AddNotes(more, r.changes);
  }

  lemma NoLines()
    ensures Bullets(FeatureLines([])) == [] && Bullets(FixLines([])) == []
  {
  }

  lemma FeatureLinesMore(features: seq<Feature>, i: nat)
    requires i < |features|
    ensures Bullets(FeatureLines(features[..i + 1]))
         == Bullets(FeatureLines(features[..i])) + [BulletOf(Plain(features[i].title + COLON + features[i].text))]
  {
    assert features[..i + 1][..i] == features[..i];
    hide BulletOf;
  }

  lemma FixLinesMore(fixes: seq<Text>, i: nat)
    requires i < |fixes|
    ensures Bullets(FixLines(fixes[..i + 1])) == Bullets(FixLines(fixes[..i])) + [BulletOf(Fixed(fixes[i]))]
  {
    assert fixes[..i + 1][..i] == fixes[..i];
    hide BulletOf;
  }

  method AddNotes(blocks: seq<Block>, notes: seq<Text>) returns (more: seq<Block>)
    ensures more == blocks + Bullets(NoteLines(notes))
  {
    more := blocks;
    for i := 0 to |notes|
      invariant more == blocks + Bullets(NoteLines(notes[..i]))
    {
      assert notes[..i + 1][..i] == notes[..i];
      more := more + [BulletOf(Plain(notes[i]))];
    }
    assert notes[..|notes|] == notes;
  }

  method AddCompacts(blocks: seq<Block>, releases: seq<Release>) returns (more: seq<Block>)
    ensures more == blocks + Compacts(releases)
  {
    hide Compact;
    more := blocks;
    for i := 0 to |releases|
      invariant more == blocks + Compacts(releases[..i])
    {
      assert releases[..i + 1][..i] == releases[..i];
      more := AddCompact(more, releases[i]);
    }
    assert releases[..|releases|] == releases;
  }

  method FullBlocks(r: Release) returns (blocks: seq<Block>)
    ensures blocks == Full(r)
  {
    blocks := [Title(Heading, r)];
    if r.features != [] {
      blocks := blocks + [Chrome(Section, NEW_FEATURES, [])];
    }
    ghost var before := blocks;
    for i := 0 to |r.features|
      invariant blocks == before + Features(r.features[..i])
    {
      assert r.features[..i + 1][..i] == r.features[..i];
      blocks := blocks + [FeatureBlock(r.features[i])];
    }
    assert r.features[..|r.features|] == r.features;
    if r.fixes != [] {
      blocks := blocks + [Chrome(Section, FIXES, [])];
    }
    blocks := AddNotes(blocks, r.fixes);
    if r.changes != [] {
      blocks := blocks + [Chrome(Section, ChangesTitle(r), [])];
    }
    blocks := AddNotes(blocks, r.changes);
  }

  method WhatsNewBlocks(releases: seq<Release>, installed: Version) returns (blocks: seq<Block>)
    ensures blocks == Page(releases, installed)
  {
    hide Older, Newer, Full, Compacts;
    var shown := ReleasesUpTo(releases, installed);
    var upcoming := ReleasesAfter(releases, installed);
    if shown == [] {
      blocks := [NoNotes(installed)];
    } else {
      blocks := FullBlocks(shown[0]);
    }
    if upcoming != [] {
      blocks := blocks + [Chrome(Section, COMING, [])];
    }
    blocks := AddCompacts(blocks, upcoming);
    if |shown| > 1 {
      blocks := blocks + [Chrome(Section, EARLIER, [])];
    }
    if shown != [] {
      blocks := AddCompacts(blocks, shown[1..]);
    }
  }

  // ----- Reading the page back -----

  // The titles of releases on the page, in its order.
  function Titles(blocks: seq<Block>): seq<Text> {
    if blocks == [] then []
    else
      var last := blocks[|blocks| - 1];
      Titles(blocks[..|blocks| - 1]) + if last.kind == Heading || last.kind == Listed then [last.text] else []
  }

  function TitlesOf(releases: seq<Release>): seq<Text> {
    if releases == [] then [] else TitlesOf(releases[..|releases| - 1]) + [TitleText(releases[|releases| - 1].version)]
  }

  lemma {:induction false} TitlesAppend(a: seq<Block>, b: seq<Block>)
    ensures Titles(a + b) == Titles(a) + Titles(b)
  {
    if b == [] {
      assert a + b == a;
    } else {
      TitlesAppend(a, b[..|b| - 1]);
      assert (a + b)[..|a + b| - 1] == a + b[..|b| - 1];
    }
  }

  lemma {:induction false} FeaturesUntitled(features: seq<Feature>)
    ensures Titles(Features(features)) == []
  {
    if features != [] {
      FeaturesUntitled(features[..|features| - 1]);
      TitlesAppend(Features(features[..|features| - 1]), [FeatureBlock(features[|features| - 1])]);
    }
  }

  lemma {:induction false} BulletsUntitled(lines: seq<Line>)
    ensures Titles(Bullets(lines)) == []
  {
    if lines != [] {
      BulletsUntitled(lines[..|lines| - 1]);
      TitlesAppend(Bullets(lines[..|lines| - 1]), [BulletOf(lines[|lines| - 1])]);
    }
  }

  lemma TitleTitled(kind: Kind, r: Release)
    requires kind == Heading || kind == Listed
    ensures Titles([Title(kind, r)]) == [TitleText(r.version)]
  {
    hide TitleText, DateText;
    assert [Title(kind, r)][..0] == [];
  }

  lemma CompactTitled(r: Release)
    ensures Titles(Compact(r)) == [TitleText(r.version)]
  {
    BulletsUntitled(Lines(r));
    TitlesAppend([Title(Listed, r)], Bullets(Lines(r)));
    TitleTitled(Listed, r);
    hide Titles, Title, TitleText, Bullets;
  }

  lemma {:induction false} CompactsTitled(releases: seq<Release>)
    ensures Titles(Compacts(releases)) == TitlesOf(releases)
  {
    if releases != [] {
      CompactsTitled(releases[..|releases| - 1]);
      CompactTitled(releases[|releases| - 1]);
      TitlesAppend(Compacts(releases[..|releases| - 1]), Compact(releases[|releases| - 1]));
      hide Titles, Compact, TitleText;
    }
  }

  lemma DividedUntitled(needed: bool, section: string)
    ensures Titles(Divided(needed, section)) == []
  {
    hide Filled;
    assert [Chrome(Section, section, [])][..0] == [];
  }

  lemma FullTitled(r: Release)
    ensures Titles(Full(r)) == [TitleText(r.version)]
  {
    FeaturesUntitled(r.features);
    BulletsUntitled(NoteLines(r.fixes));
    BulletsUntitled(NoteLines(r.changes));
    DividedUntitled(r.features != [], NEW_FEATURES);
    DividedUntitled(r.fixes != [], FIXES);
    DividedUntitled(r.changes != [], ChangesTitle(r));
    TitleTitled(Heading, r);
    hide Titles, Divided, Title, TitleText, Bullets, NoteLines, Features, ChangesTitle;
    var one := [Title(Heading, r)];
    var two := one + Divided(r.features != [], NEW_FEATURES);
    var three := two + Features(r.features);
    var four := three + Divided(r.fixes != [], FIXES);
    var five := four + Bullets(NoteLines(r.fixes));
    var six := five + Divided(r.changes != [], ChangesTitle(r));
    TitlesAppend(one, Divided(r.features != [], NEW_FEATURES));
    TitlesAppend(two, Features(r.features));
    TitlesAppend(three, Divided(r.fixes != [], FIXES));
    TitlesAppend(four, Bullets(NoteLines(r.fixes)));
    TitlesAppend(five, Divided(r.changes != [], ChangesTitle(r)));
    TitlesAppend(six, Bullets(NoteLines(r.changes)));
  }

  lemma {:induction false} TitlesOfAppend(a: seq<Release>, b: seq<Release>)
    ensures TitlesOf(a + b) == TitlesOf(a) + TitlesOf(b)
  {
    if b == [] {
      assert a + b == a;
    } else {
      TitlesOfAppend(a, b[..|b| - 1]);
      assert (a + b)[..|a + b| - 1] == a + b[..|b| - 1];
      hide TitleText;
    }
  }

  // The page in its five parts.
  lemma PageParts(releases: seq<Release>, installed: Version)
    ensures
      var shown, upcoming := Older(releases, installed), Newer(releases, installed);
      Page(releases, installed)
        == First(shown, installed) + Divided(upcoming != [], COMING) + Compacts(upcoming)
          + Divided(|shown| > 1, EARLIER)
           + Compacts(Rest(shown))
  {
    hide Older, Newer, Divided, Full, NoNotes;
  }

  function First(shown: seq<Release>, installed: Version): seq<Block> {
    if shown == [] then [NoNotes(installed)] else Full(shown[0])
  }

  function Rest(shown: seq<Release>): seq<Release> {
    if shown == [] then [] else shown[1..]
  }

  lemma FirstTitled(shown: seq<Release>, installed: Version)
    ensures Titles(First(shown, installed)) == if shown == [] then [] else [TitleText(shown[0].version)]
  {
    hide TitleText;
    if shown == [] {
      hide Filled;
      assert [NoNotes(installed)][..0] == [];
    } else {
      FullTitled(shown[0]);
      hide Full, Titles;
    }
  }

  lemma PageTitled(releases: seq<Release>, installed: Version)
    ensures
      var shown, upcoming := Older(releases, installed), Newer(releases, installed);
      Titles(Page(releases, installed))
        == (if shown == [] then [] else [TitleText(shown[0].version)]) + TitlesOf(upcoming) + TitlesOf(Rest(shown))
  {
    var shown, upcoming := Older(releases, installed), Newer(releases, installed);
    PageParts(releases, installed);
    FirstTitled(shown, installed);
    CompactsTitled(Rest(shown));
    CompactsTitled(upcoming);
    DividedUntitled(upcoming != [], COMING);
    DividedUntitled(|shown| > 1, EARLIER);
    hide *;
    TitlesFive(First(shown, installed), Divided(upcoming != [], COMING), Compacts(upcoming),
      Divided(|shown| > 1, EARLIER),
      Compacts(Rest(shown)));
  }

  lemma TitlesFive(a: seq<Block>, b: seq<Block>, c: seq<Block>, d: seq<Block>, e: seq<Block>)
    requires Titles(b) == [] && Titles(d) == []
    ensures Titles(a + b + c + d + e) == Titles(a) + Titles(c) + Titles(e)
  {
    TitlesAppend(a + b + c + d, e);
    TitlesAppend(a + b + c, d);
    TitlesAppend(a + b, c);
    TitlesAppend(a, b);
    hide Titles;
  }

  // Every release of an accepted list has exactly one title on the page, whatever is installed.
  lemma EachReleaseTitledOnce(releases: seq<Release>, installed: Version)
    requires Descending(releases)
    ensures multiset(Titles(Page(releases, installed))) == multiset(TitlesOf(releases))
    ensures forall t :: t in TitlesOf(releases) ==> multiset(Titles(Page(releases, installed)))[t] == 1
  {
    var shown, upcoming := Older(releases, installed), Newer(releases, installed);
    PageTitled(releases, installed);
    PartsAreTheList(releases, installed);
    TitlesOnce(releases);
    TitlesOfAppend(upcoming, shown);
    FirstTitle(shown);
    var first := if shown == [] then [] else [TitleText(shown[0].version)];
    var titles := Titles(Page(releases, installed));
    hide *;
    assert titles == first + TitlesOf(upcoming) + TitlesOf(Rest(shown));
    Shuffled(first, TitlesOf(upcoming), TitlesOf(Rest(shown)));
  }

  lemma FirstTitle(shown: seq<Release>)
    ensures TitlesOf(shown) == (if shown == [] then [] else [TitleText(shown[0].version)]) + TitlesOf(Rest(shown))
  {
    hide TitleText;
    if shown != [] {
      assert shown == [shown[0]] + shown[1..] && [shown[0]][..0] == [];
      TitlesOfAppend([shown[0]], shown[1..]);
      assert TitlesOf([shown[0]]) == [TitleText(shown[0].version)];
    }
  }

  lemma Shuffled<T>(a: seq<T>, b: seq<T>, c: seq<T>)
    ensures multiset(a + b + c) == multiset(b + (a + c))
  {
    assert b + (a + c) == b + a + c;
  }

  lemma {:induction false} TitlesOnce(releases: seq<Release>)
    requires Descending(releases)
    ensures |TitlesOf(releases)| == |releases| && forall i :: 0 <= i < |releases| ==>
        TitlesOf(releases)[i] == TitleText(releases[i].version)
    ensures forall t :: t in TitlesOf(releases) ==> multiset(TitlesOf(releases))[t] == 1
  {
    if releases != [] {
      var before, last := releases[..|releases| - 1], releases[|releases| - 1];
      TitlesOnce(before);
      hide TitleText;
      assert TitleText(last.version) !in TitlesOf(before) by {
        forall i | 0 <= i < |before| ensures TitlesOf(before)[i] != TitleText(last.version) {
          LessIsStrict(last.version, before[i].version, last.version);
          TitlesDiffer(last.version, before[i].version);
        }
      }
      assert multiset(TitlesOf(before))[TitleText(last.version)] == 0;
    }
  }

  // ----- Titles and dates tell versions and dates -----

  lemma TitlesDiffer(v: Version, w: Version)
    ensures TitleText(v) == TitleText(w) <==> v == w
  {
    if TitleText(v) == TitleText(w) {
      assert VersionText(v) == TitleText(v)[|Bytes(TAXI_CAM)|..] == VersionText(w);
      VersionsDiffer(v, w);
    }
  }

  // A date that the changelog accepts, or none.
  predicate Dated(date: seq<byte>) {
    date == [] || ValidDate(date)
  }

  lemma DatesDiffer(d: seq<byte>, e: seq<byte>)
    requires Dated(d) && Dated(e)
    ensures DateText(d) == DateText(e) <==> d == e
  {
    if ValidDate(d) && ValidDate(e) && DateText(d) == DateText(e) {
      ValidDatesDiffer(d, e);
    }
    hide ValidDate;
  }

  lemma ValidDatesDiffer(d: seq<byte>, e: seq<byte>)
    requires ValidDate(d) && ValidDate(e) && DateText(d) == DateText(e)
    ensures d == e
  {
    SpelledDiffer(Two(d, 8), Two(d, 5), d[..4], Two(e, 8), Two(e, 5), e[..4]);
    hide Spelled, Two;
    SameDigits(d, e, 5);
    SameDigits(d, e, 8);
    SameDate(d, e);
  }

  lemma SpelledDiffer(day: nat, month: nat, year: Text, day2: nat, month2: nat, year2: Text)
    requires 1 <= month <= 12 && 1 <= month2 <= 12 && |year| == |year2|
    requires Spelled(day, month, year) == Spelled(day2, month2, year2)
    ensures day == day2 && month == month2 && year == year2
  {
    var d, m, e, n := Decimal(day), Bytes(MONTHS[month - 1]), Decimal(day2), Bytes(MONTHS[month2 - 1]);
    hide Decimal, Bytes, MONTHS;
    DateParts(d, m, year, e, n, year2);
    DecimalsDiffer(day, day2);
    MonthsDiffer(month - 1, month2 - 1);
  }

  lemma MonthsDiffer(i: nat, j: nat)
    requires i < 12 && j < 12 && Bytes(MONTHS[i]) == Bytes(MONTHS[j])
    ensures i == j
  {
    MonthsAreLatin(i);
    MonthsAreLatin(j);
    BytesDiffer(MONTHS[i], MONTHS[j]);
    hide Bytes;
    assert MONTHS[0][0] == 'J' && MONTHS[9][0] == 'O' && MONTHS[1][0] == 'F' && MONTHS[10][0] == 'N'
      && MONTHS[11][0] == 'D';
    assert MONTHS[2][0] == 'M' && MONTHS[3][0] == 'A' && MONTHS[5][2] == 'n' && MONTHS[6][2] == 'l';
  }

  lemma MonthsAreLatin(i: nat)
    requires i < 12
    ensures forall k :: 0 <= k < |MONTHS[i]| ==> MONTHS[i][k] as int < 256
  {
  }

  lemma DateParts(d: seq<byte>, m: Text, y: Text, e: seq<byte>, n: Text, z: Text)
    requires d + [SPACE] + m + [SPACE] + y == e + [SPACE] + n + [SPACE] + z && |y| == |z|
    requires SPACE !in d && SPACE !in e
    ensures d == e && m == n && y == z
  {
    assert d + [SPACE] + m + [SPACE] + y == d + [SPACE] + (m + [SPACE] + y);
    assert e + [SPACE] + n + [SPACE] + z == e + [SPACE] + (n + [SPACE] + z);
    FirstPart(d, m + [SPACE] + y, e, n + [SPACE] + z, SPACE);
    var s, t := m + [SPACE] + y, n + [SPACE] + z;
    assert |m| == |n|;
    assert s[..|m|] == m && t[..|m|] == n && s[|m| + 1..] == y && t[|m| + 1..] == z;
  }

  lemma SameDigits(d: seq<byte>, e: seq<byte>, at: nat)
    requires at + 1 < |d| && IsDigit(d[at]) && IsDigit(d[at + 1])
    requires at + 1 < |e| && IsDigit(e[at]) && IsDigit(e[at + 1]) && Two(d, at) == Two(e, at)
    ensures d[at] == e[at] && d[at + 1] == e[at + 1]
  {
  }

  lemma SameDate(d: seq<byte>, e: seq<byte>)
    requires ValidDate(d) && ValidDate(e) && d[..4] == e[..4]
    requires d[5] == e[5] && d[6] == e[6] && d[8] == e[8] && d[9] == e[9]
    ensures d == e
  {
    assert forall i :: 0 <= i < 4 ==> d[i] == d[..4][i] == e[..4][i] == e[i];
  }
}
