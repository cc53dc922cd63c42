/** What the What's new page tells: the installed release in full, any other by its title, its date and
    its lines. Two lists give the same page exactly when they agree in that; a feature on one line is not
    told from a change, nor its title from its text. */
module WhatsNewContents {
  import opened Common
  import opened Bits
  import opened Json
  import opened Versions
  import opened Changelog
  import opened WhatsNew
  import ChangelogExact

  // ----- What is told -----

  datatype Told =
    | InFull(title: Text, date: Text, features: seq<Feature>, fixes: seq<Text>, changes: seq<Text>)
    | InBrief(section: Option<string>, title: Text, date: Text, lines: seq<Line>)

  function FullTold(r: Release): Told {
    InFull(TitleText(r.version), DateText(r.date), r.features, r.fixes, r.changes)
  }

  function Brief(section: string, r: Release): Told {
    InBrief(Some(section), TitleText(r.version), DateText(r.date), Lines(r))
  }

  function Briefs(section: string, releases: seq<Release>): seq<Told> {
    if releases == [] then []
      else Briefs(section, releases[..|releases| - 1]) + [Brief(section, releases[|releases| - 1])]
  }

  function FirstTold(shown: seq<Release>): seq<Told> {
    if shown == [] then [] else [FullTold(shown[0])]
  }

  function PageTold(releases: seq<Release>, installed: Version): seq<Told> {
    var shown := Older(releases, installed);
    FirstTold(shown) + Briefs(COMING, Newer(releases, installed)) + Briefs(EARLIER, Rest(shown))
  }

  // ----- Reading the page -----

  // The reader goes down the page with the wording of the last divider in mind.
  datatype Reading = Reading(told: seq<Told>, section: Option<string>)

  const START := Reading([], None)

  function LineOf(b: Block): Line {
    if b.wording.Some? then Fixed(b.value) else Plain(b.text)
  }

  function More(t: Told, section: Option<string>, b: Block): Told {
    match t
    case InFull(_, _, features, fixes, changes) =>
      if b.kind == Featured then t.(features := features + [Feature(b.text, b.detail, b.image)])
      else if section == Some(FIXES) then t.(fixes := fixes + [b.text])
      else t.(changes := changes + [b.text])
    case InBrief(_, _, _, lines) => t.(lines := lines + [LineOf(b)])
  }

  function Reads(r: Reading, b: Block): Reading {
    if b.kind == Heading then Reading(r.told + [InFull(b.text, b.detail, [], [], [])], None)
    else if b.kind == Listed then r.(told := r.told + [InBrief(r.section, b.text, b.detail, [])])
    else if b.kind == Section then r.(section := b.wording)
    else if b.kind == Note || r.told == [] then r
    else r.(told := r.told[..|r.told| - 1] + [More(r.told[|r.told| - 1], r.section, b)])
  }

  function ReadOn(r: Reading, blocks: seq<Block>): Reading {
    if blocks == [] then r else Reads(ReadOn(r, blocks[..|blocks| - 1]), blocks[|blocks| - 1])
  }

  lemma {:induction false} ReadOnAppends(r: Reading, a: seq<Block>, b: seq<Block>)
    ensures ReadOn(r, a + b) == ReadOn(ReadOn(r, a), b)
  {
    if b == [] {
      assert a + b == a;
    } else {
      ReadOnAppends(r, a, b[..|b| - 1]);
      assert (a + b)[..|a + b| - 1] == a + b[..|b| - 1];
      hide Reads;
    }
  }

  lemma ReadOne(r: Reading, before: seq<Block>, b: Block)
    ensures ReadOn(r, before + [b]) == Reads(ReadOn(r, before), b)
    ensures ReadOn(r, [b]) == Reads(r, b)
  {
    assert (before + [b])[..|before|] == before && [b][..0] == [];
    hide Reads;
  }

  // A release begun, with what was read of it.
  function Begun(told: seq<Told>, t: Told, section: Option<string>): Reading {
    Reading(told + [t], section)
  }

  lemma ReadsBegun(told: seq<Told>, t: Told, section: Option<string>, b: Block)
    requires b.kind == Featured || b.kind == Bullet
    ensures Reads(Begun(told, t, section), b) == Begun(told, More(t, section, b), section)
  {
    assert (told + [t])[..|told|] == told;
    hide More;
  }

  lemma Nothing<T>(s: seq<T>)
    ensures s + [] == s
  {
  }

  lemma {:induction false} FeaturesRead(told: seq<Told>, t: Told, section: Option<string>, features: seq<Feature>)
    requires t.InFull?
    ensures ReadOn(Begun(told, t, section), Features(features))
         == Begun(told, t.(features := t.features + features), section)
  {
    if features == [] {
      Nothing(t.features);
    } else {
      var before, f := features[..|features| - 1], features[|features| - 1];
      var u := t.(features := t.features + before);
      FeaturesRead(told, t, section, before);
      ReadOne(Begun(told, t, section), Features(before), FeatureBlock(f));
      ReadsBegun(told, u, section, FeatureBlock(f));
      assert features == before + [f];
      Regroup(t.features, before, [f]);
      hide Begun, Reads, ReadOn;
    }
  }

  // Plain notes in full, below the divider of fixes or not.
  function Noted(t: Told, section: Option<string>, notes: seq<Text>): Told
    requires t.InFull?
  {
    if section == Some(FIXES) then t.(fixes := t.fixes + notes) else t.(changes := t.changes + notes)
  }

  lemma {:induction false} NotesRead(told: seq<Told>, t: Told, section: Option<string>, notes: seq<Text>)
    requires t.InFull?
    ensures ReadOn(Begun(told, t, section), Bullets(NoteLines(notes))) == Begun(told, Noted(t, section, notes), section)
  {
    if notes == [] {
      Nothing(t.fixes);
      Nothing(t.changes);
    } else {
      var before, n := notes[..|notes| - 1], notes[|notes| - 1];
      NotesRead(told, t, section, before);
      BulletsMore(NoteLines(before), Plain(n));
      ReadOne(Begun(told, t, section), Bullets(NoteLines(before)), BulletOf(Plain(n)));
      ReadsBegun(told, Noted(t, section, before), section, BulletOf(Plain(n)));
      NotedMore(t, section, notes);
      hide Begun, Reads, ReadOn, Noted, Bullets;
    }
  }

  lemma NotedMore(t: Told, section: Option<string>, notes: seq<Text>)
    requires t.InFull? && notes != []
    ensures Noted(t, section, notes)
         == More(Noted(t, section, notes[..|notes| - 1]), section, BulletOf(Plain(notes[|notes| - 1])))
  {
    var before, n := notes[..|notes| - 1], notes[|notes| - 1];
    assert notes == before + [n];
    Regroup(t.fixes, before, [n]);
    Regroup(t.changes, before, [n]);
  }

  lemma BulletsMore(lines: seq<Line>, line: Line)
    ensures Bullets(lines + [line]) == Bullets(lines) + [BulletOf(line)]
  {
    assert (lines + [line])[..|lines|] == lines;
    hide BulletOf;
  }

  lemma BulletRead(line: Line)
    ensures BulletOf(line).kind == Bullet && LineOf(BulletOf(line)) == line
  {
    hide Filled;
  }

  lemma {:induction false} LinesRead(told: seq<Told>, t: Told, section: Option<string>, lines: seq<Line>)
    requires t.InBrief?
    ensures ReadOn(Begun(told, t, section), Bullets(lines)) == Begun(told, t.(lines := t.lines + lines), section)
  {
    if lines == [] {
      Nothing(t.lines);
    } else {
      var before, line := lines[..|lines| - 1], lines[|lines| - 1];
      LinesRead(told, t, section, before);
      ReadOne(Begun(told, t, section), Bullets(before), BulletOf(line));
      BulletRead(line);
      ReadsBegun(told, t.(lines := t.lines + before), section, BulletOf(line));
      assert lines == before + [line];
      Regroup(t.lines, before, [line]);
      hide Begun, Reads, ReadOn, BulletOf, LineOf;
    }
  }

  lemma CompactRead(r: Reading, section: string, release: Release)
    requires r.section == Some(section)
    ensures ReadOn(r, Compact(release)) == Begun(r.told, Brief(section, release), r.section)
  {
    var t := InBrief(r.section, TitleText(release.version), DateText(release.date), []);
    hide TitleText, DateText, Lines;
    ReadOne(r, [], Title(Listed, release));
    ReadOnAppends(r, [Title(Listed, release)], Bullets(Lines(release)));
    assert Reads(r, Title(Listed, release)) == Begun(r.told, t, r.section);
    hide ReadOn, Begun, Reads;
    LinesRead(r.told, t, r.section, Lines(release));
    assert [] + Lines(release) == Lines(release);
  }

  lemma DividerRead(r: Reading, needed: bool, section: string)
    ensures ReadOn(r, Divided(needed, section)) == r.(section := if needed then Some(section) else r.section)
  {
    hide Filled;
    ReadOne(r, [], Chrome(Section, section, []));
  }

  // A section of the full release: its divider, where there is something below it, and its blocks.
  lemma FeatureSection(told: seq<Told>, t: Told, features: seq<Feature>)
    requires t.InFull?
    ensures ReadOn(Begun(told, t, None), Divided(features != [], NEW_FEATURES) + Features(features))
         == Begun(told, t.(features := t.features + features), if features != [] then Some(NEW_FEATURES) else None)
  {
    var section := if features != [] then Some(NEW_FEATURES) else None;
    ReadOnAppends(Begun(told, t, None), Divided(features != [], NEW_FEATURES), Features(features));
    DividerRead(Begun(told, t, None), features != [], NEW_FEATURES);
    hide ReadOn, Divided;
    FeaturesRead(told, t, section, features);
  }

  lemma NoteSection(told: seq<Told>, t: Told, was: Option<string>, needed: bool, section: string, notes: seq<Text>)
    requires t.InFull? && needed == (notes != [])
    ensures ReadOn(Begun(told, t, was), Divided(needed, section) + Bullets(NoteLines(notes)))
         == Begun(told, Noted(t, Some(section), notes), if needed then Some(section) else was)
  {
    var now := if needed then Some(section) else was;
    ReadOnAppends(Begun(told, t, was), Divided(needed, section), Bullets(NoteLines(notes)));
    DividerRead(Begun(told, t, was), needed, section);
    hide ReadOn, Divided;
    NotesRead(told, t, now, notes);
    Nothing(t.fixes);
    Nothing(t.changes);
  }

  lemma SevenParts<T>(a: seq<T>, b: seq<T>, c: seq<T>, d: seq<T>, e: seq<T>, f: seq<T>, g: seq<T>)
    ensures a + b + c + d + e + f + g == a + (b + c) + (d + e) + (f + g)
  {
    Regroup(a, b, c);
    Regroup(a + b + c, d, e);
    Regroup(a + b + c + d + e, f, g);
  }

  lemma FourRead(r: Reading, a: seq<Block>, b: seq<Block>, c: seq<Block>, d: seq<Block>)
    ensures ReadOn(r, a + b + c + d) == ReadOn(ReadOn(ReadOn(ReadOn(r, a), b), c), d)
  {
    ReadOnAppends(r, a, b);
    ReadOnAppends(r, a + b, c);
    ReadOnAppends(r, a + b + c, d);
    hide ReadOn;
  }

  lemma FullIsSections(release: Release)
    ensures Full(release) ==
      [Title(Heading, release)]
      + (Divided(release.features != [], NEW_FEATURES) + Features(release.features))
      + (Divided(release.fixes != [], FIXES) + Bullets(NoteLines(release.fixes)))
      + (Divided(release.changes != [], ChangesTitle(release)) + Bullets(NoteLines(release.changes)))
  {
    hide Divided, Features, Bullets, NoteLines, Title, ChangesTitle;
    SevenParts([Title(Heading, release)], Divided(release.features != [], NEW_FEATURES), Features(release.features),
      Divided(release.fixes != [], FIXES), Bullets(NoteLines(release.fixes)),
      Divided(release.changes != [], ChangesTitle(release)), Bullets(NoteLines(release.changes)));
  }

  lemma SectionsDiffer()
    ensures NEW_FEATURES != FIXES && CHANGES != FIXES && OTHER_CHANGES != FIXES && COMING != EARLIER
  {
    assert |FIXES| == 5 && |NEW_FEATURES| == 12 && |CHANGES| == 7 && |OTHER_CHANGES| == 13;
    assert |COMING| == 25 && |EARLIER| == 16;
  }

  lemma FullRead(r: Reading, release: Release)
    ensures exists section :: ReadOn(r, Full(release)) == Begun(r.told, FullTold(release), section)
  {
    var t := InFull(TitleText(release.version), DateText(release.date), [], [], []);
    hide TitleText, DateText;
    var features := t.(features := [] + release.features);
    var fixes := features.(fixes := [] + release.fixes);
    var one, last := [Title(Heading, release)], ChangesTitle(release);
    SectionsDiffer();
    ReadOne(r, [], one[0]);
    assert ReadOn(r, one) == Begun(r.told, t, None);
    assert Noted(features, Some(FIXES), release.fixes) == fixes;
    assert Noted(fixes, Some(last), release.changes) == FullTold(release);
    hide *;
    FullIsSections(release);
    FourRead(r, one, Divided(release.features != [], NEW_FEATURES) + Features(release.features),
      Divided(release.fixes != [], FIXES) + Bullets(NoteLines(release.fixes)),
      Divided(release.changes != [], last) + Bullets(NoteLines(release.changes)));
    FeatureSection(r.told, t, release.features);
    var was := if release.features != [] then Some(NEW_FEATURES) else None;
    NoteSection(r.told, features, was, release.fixes != [], FIXES, release.fixes);
    var now := if release.fixes != [] then Some(FIXES) else was;
    NoteSection(r.told, fixes, now, release.changes != [], last, release.changes);
  }

  lemma {:induction false} CompactsRead(r: Reading, section: string, releases: seq<Release>)
    requires releases != [] ==> r.section == Some(section)
    ensures ReadOn(r, Compacts(releases)) == r.(told := r.told + Briefs(section, releases))
  {
    if releases == [] {
      Nothing(r.told);
    } else {
      var before, last := releases[..|releases| - 1], releases[|releases| - 1];
      CompactsRead(r, section, before);
      ReadOnAppends(r, Compacts(before), Compact(last));
      CompactRead(ReadOn(r, Compacts(before)), section, last);
      Regroup(r.told, Briefs(section, before), [Brief(section, last)]);
      hide ReadOn, Compact, Brief;
    }
  }

  lemma FirstRead(shown: seq<Release>, installed: Version)
    ensures ReadOn(START, First(shown, installed)).told == FirstTold(shown)
  {
    if shown == [] {
      hide Filled;
      ReadOne(START, [], NoNotes(installed));
    } else {
      FullRead(START, shown[0]);
      hide ReadOn, Full, FullTold;
      assert [] + [FullTold(shown[0])] == [FullTold(shown[0])];
    }
  }

  // Five parts of a page.
  lemma PartsRead(one: seq<Block>, newer: seq<Release>, rest: seq<Release>)
    ensures
      var page := one + Divided(newer != [], COMING) + Compacts(newer) + Divided(rest != [], EARLIER) + Compacts(rest);
      ReadOn(START, page).told == ReadOn(START, one).told + Briefs(COMING, newer) + Briefs(EARLIER, rest)
  {
    var coming, earlier := Divided(newer != [], COMING), Divided(rest != [], EARLIER);
    var two := one + coming;
    var three := two + Compacts(newer);
    var four := three + earlier;
    ReadOnAppends(START, one, coming);
    ReadOnAppends(START, two, Compacts(newer));
    ReadOnAppends(START, three, earlier);
    ReadOnAppends(START, four, Compacts(rest));
    hide ReadOn, Compacts, Briefs, Divided;
    DividerRead(ReadOn(START, one), newer != [], COMING);
    CompactsRead(ReadOn(START, two), COMING, newer);
    DividerRead(ReadOn(START, three), rest != [], EARLIER);
    CompactsRead(ReadOn(START, four), EARLIER, rest);
  }

  // Read from top to bottom, the page gives the installed release field by field, and of every other
  // release its section, title, date and lines in order, with the fixes named as such.
  lemma PageTells(releases: seq<Release>, installed: Version)
    ensures ReadOn(START, Page(releases, installed)).told == PageTold(releases, installed)
  {
    var shown := Older(releases, installed);
    PageParts(releases, installed);
    FirstRead(shown, installed);
    PartsRead(First(shown, installed), Newer(releases, installed), Rest(shown));
    hide ReadOn, Older, Newer, First, FirstTold, Briefs, Compacts, Divided, Page;
  }

  // ----- When two lists give the same page -----

  predicate SameTold(a: seq<Release>, b: seq<Release>, installed: Version) {
    && FirstTold(Older(a, installed)) == FirstTold(Older(b, installed))
    && Briefs(COMING, Newer(a, installed)) == Briefs(COMING, Newer(b, installed))
    && Briefs(EARLIER, Rest(Older(a, installed))) == Briefs(EARLIER, Rest(Older(b, installed)))
  }

  predicate AllUnder(told: seq<Told>, section: string) {
    forall i :: 0 <= i < |told| ==> told[i].InBrief? && told[i].section == Some(section)
  }

  lemma {:induction false} BriefsUnder(section: string, releases: seq<Release>)
    ensures |Briefs(section, releases)| == |releases| && AllUnder(Briefs(section, releases), section)
  {
    if releases != [] {
      var before, last := releases[..|releases| - 1], releases[|releases| - 1];
      BriefsUnder(section, before);
      assert Brief(section, last).section == Some(section);
      hide Brief;
    }
  }

  // What is told in full, under the one divider and under the other.
  lemma Split(a: seq<Told>, b: seq<Told>, c: seq<Told>, d: seq<Told>, e: seq<Told>, f: seq<Told>)
    requires a + b + c == d + e + f
    requires (forall i :: 0 <= i < |a| ==> a[i].InFull?) && forall i :: 0 <= i < |d| ==> d[i].InFull?
    requires AllUnder(b, COMING) && AllUnder(c, EARLIER) && AllUnder(e, COMING) && AllUnder(f, EARLIER)
    ensures a == d && b == e && c == f
  {
    SectionsDiffer();
    hide COMING, EARLIER;
    Regroup(a, b, c);
    Regroup(d, e, f);
    Cut(a, b + c, d, e + f, (t: Told) => t.InFull?);
    Cut(b, c, e, f, (t: Told) => t.InBrief? && t.section == Some(COMING));
  }

  // Two sequences with a property first and without it after are cut at the same place.
  lemma Cut<T>(a: seq<T>, b: seq<T>, c: seq<T>, d: seq<T>, p: T -> bool)
    requires a + b == c + d
    requires (forall i :: 0 <= i < |a| ==> p(a[i])) && forall i :: 0 <= i < |b| ==> !p(b[i])
    requires (forall i :: 0 <= i < |c| ==> p(c[i])) && forall i :: 0 <= i < |d| ==> !p(d[i])
    ensures a == c && b == d
  {
    var all := a + b;
    assert forall i :: 0 <= i < |all| ==> (p(all[i]) <==> i < |a|);
    assert forall i :: 0 <= i < |c + d| ==> (p((c + d)[i]) <==> i < |c|);
    CutOnce(all, |a|, |c|, p);
    assert a == all[..|a|] && b == all[|a|..] && c == (c + d)[..|c|] && d == (c + d)[|c|..];
  }

  lemma CutOnce<T>(all: seq<T>, m: nat, n: nat, p: T -> bool)
    requires m <= |all| && n <= |all|
    requires forall i :: 0 <= i < |all| ==> (p(all[i]) <==> i < m)
    requires forall i :: 0 <= i < |all| ==> (p(all[i]) <==> i < n)
    ensures m == n
  {
    assert m < |all| ==> !p(all[m]);
    assert n < |all| ==> !p(all[n]);
  }

  // Two lists give the same page exactly when the same is told of the installed release in full and of
  // the newer and the older ones in brief.
  lemma SamePageExactly(a: seq<Release>, b: seq<Release>, installed: Version)
    ensures Page(a, installed) == Page(b, installed) <==> SameTold(a, b, installed)
  {
    if Page(a, installed) == Page(b, installed) {
      SamePageTells(a, b, installed);
    }
    if SameTold(a, b, installed) {
      SameTellsPage(a, b, installed);
    }
    hide Page, SameTold;
  }

  lemma FirstInFull(shown: seq<Release>)
    ensures forall i :: 0 <= i < |FirstTold(shown)| ==> FirstTold(shown)[i].InFull?
  {
  }

  lemma SamePageTells(a: seq<Release>, b: seq<Release>, installed: Version)
    requires Page(a, installed) == Page(b, installed)
    ensures SameTold(a, b, installed)
  {
    PageTells(a, installed);
    PageTells(b, installed);
    var s, t, m, n := Older(a, installed), Older(b, installed), Newer(a, installed), Newer(b, installed);
    FirstInFull(s);
    FirstInFull(t);
    BriefsUnder(COMING, m);
    BriefsUnder(COMING, n);
    BriefsUnder(EARLIER, Rest(s));
    BriefsUnder(EARLIER, Rest(t));
    hide Page, ReadOn, Older, Newer, FirstTold, Briefs, Rest, AllUnder, COMING, EARLIER;
    Split(FirstTold(s), Briefs(COMING, m), Briefs(EARLIER, Rest(s)), FirstTold(t), Briefs(COMING, n),
      Briefs(EARLIER, Rest(t)));
  }

  lemma {:induction false} SameCompacts(section: string, a: seq<Release>, b: seq<Release>)
    requires Briefs(section, a) == Briefs(section, b)
    ensures |a| == |b| && Compacts(a) == Compacts(b)
  {
    BriefsUnder(section, a);
    BriefsUnder(section, b);
    if a != [] {
      var m, n := a[|a| - 1], b[|b| - 1];
      SameLast(Briefs(section, a[..|a| - 1]), Brief(section, m), Briefs(section, b[..|b| - 1]), Brief(section, n));
      SameCompacts(section, a[..|a| - 1], b[..|b| - 1]);
      SameCompact(section, m, n);
      hide Brief, Compact;
    }
  }

  lemma SameLast<T>(s: seq<T>, x: T, t: seq<T>, y: T)
    requires s + [x] == t + [y]
    ensures s == t && x == y
  {
    assert |s| == |t|;
    assert s == (s + [x])[..|s|] && t == (t + [y])[..|s|] && (s + [x])[|s|] == x && (t + [y])[|s|] == y;
  }

  lemma SameCompact(section: string, r: Release, s: Release)
    requires Brief(section, r) == Brief(section, s)
    ensures Compact(r) == Compact(s)
  {
    hide TitleText, DateText, Lines;
  }

  lemma SameFull(r: Release, s: Release)
    requires FullTold(r) == FullTold(s)
    ensures Full(r) == Full(s)
  {
    hide TitleText, DateText, Divided, Features, Bullets, NoteLines;
  }

  lemma SameFirst(s: seq<Release>, t: seq<Release>, installed: Version)
    requires FirstTold(s) == FirstTold(t)
    ensures First(s, installed) == First(t, installed) && (s == [] <==> t == [])
  {
    hide FullTold, Full, NoNotes;
    if s != [] {
      assert [FullTold(s[0])][0] == [FullTold(t[0])][0];
      SameFull(s[0], t[0]);
    }
  }

  lemma SameTellsPage(a: seq<Release>, b: seq<Release>, installed: Version)
    requires SameTold(a, b, installed)
    ensures Page(a, installed) == Page(b, installed)
  {
    var s, t, m, n := Older(a, installed), Older(b, installed), Newer(a, installed), Newer(b, installed);
    PageParts(a, installed);
    PageParts(b, installed);
    SameFirst(s, t, installed);
    SameCompacts(COMING, m, n);
    SameCompacts(EARLIER, Rest(s), Rest(t));
    assert |s| > 1 <==> |t| > 1;
    hide Page, Older, Newer, First, Compacts, Divided, Rest;
  }

  // ----- For lists as the changelog accepts them -----

  // A release but for what its lines do not tell.
  datatype Outline = Outline(version: Version, date: seq<byte>, lines: seq<Line>)

  function OutlineOf(r: Release): Outline {
    Outline(r.version, r.date, Lines(r))
  }

  function Outlines(releases: seq<Release>): (outlines: seq<Outline>)
    ensures |outlines| == |releases| && forall i :: 0 <= i < |releases| ==> outlines[i] == OutlineOf(releases[i])
  {
    seq(|releases|, i requires 0 <= i < |releases| => OutlineOf(releases[i]))
  }

  predicate AllDated(releases: seq<Release>) {
    forall i :: 0 <= i < |releases| ==> Dated(releases[i].date)
  }

  lemma ToldDiffers(section: string, r: Release, s: Release)
    requires Dated(r.date) && Dated(s.date)
    ensures FullTold(r) == FullTold(s) <==> r == s
    ensures Brief(section, r) == Brief(section, s) <==> OutlineOf(r) == OutlineOf(s)
  {
    TitlesDiffer(r.version, s.version);
    DatesDiffer(r.date, s.date);
    hide TitleText, DateText, Lines, Dated;
  }

  lemma {:induction false} BriefsDiffer(section: string, a: seq<Release>, b: seq<Release>)
    requires AllDated(a) && AllDated(b)
    ensures Briefs(section, a) == Briefs(section, b) <==> Outlines(a) == Outlines(b)
  {
    BriefsUnder(section, a);
    BriefsUnder(section, b);
    if |a| == |b| > 0 {
      var before, others := a[..|a| - 1], b[..|b| - 1];
      BriefsDiffer(section, before, others);
      ToldDiffers(section, a[|a| - 1], b[|b| - 1]);
      OutlinesLast(a);
      OutlinesLast(b);
      hide Brief, OutlineOf, Outlines, Dated;
      if Briefs(section, a) == Briefs(section, b) {
        SameLast(Briefs(section, before), Brief(section, a[|a| - 1]), Briefs(section, others),
          Brief(section, b[|b| - 1]));
      }
      if Outlines(a) == Outlines(b) {
        SameLast(Outlines(before), OutlineOf(a[|a| - 1]), Outlines(others), OutlineOf(b[|b| - 1]));
      }
    }
  }

  lemma OutlinesLast(releases: seq<Release>)
    requires releases != []
    ensures Outlines(releases) == Outlines(releases[..|releases| - 1]) + [OutlineOf(releases[|releases| - 1])]
  {
    hide OutlineOf;
  }

  lemma {:induction false} PartsDated(releases: seq<Release>, installed: Version)
    requires AllDated(releases)
    ensures AllDated(Older(releases, installed)) && AllDated(Newer(releases, installed))
    ensures AllDated(Rest(Older(releases, installed)))
  {
    if releases != [] {
      PartsDated(releases[..|releases| - 1], installed);
      hide Dated;
    }
  }

  // At most the first.
  function Installed(shown: seq<Release>): seq<Release> {
    if shown == [] then [] else [shown[0]]
  }

  lemma InstalledTold(s: seq<Release>, t: seq<Release>)
    requires AllDated(s) && AllDated(t)
    ensures FirstTold(s) == FirstTold(t) <==> Installed(s) == Installed(t)
  {
    if s != [] && t != [] {
      ToldDiffers(COMING, s[0], t[0]);
      assert [FullTold(s[0])][0] == FullTold(s[0]) && [FullTold(t[0])][0] == FullTold(t[0]);
      assert [s[0]][0] == s[0] && [t[0]][0] == t[0];
    }
    hide FullTold, Brief, OutlineOf;
  }

  // Two accepted lists give the same page exactly when they have the same installed release, and the
  // newer ones, and the older ones, have the same versions, dates and lines.
  lemma SameAcceptedPageExactly(a: seq<Release>, b: seq<Release>, installed: Version)
    requires AllDated(a) && AllDated(b)
    ensures
      var (s, t) := (Older(a, installed), Older(b, installed));
      Page(a, installed) == Page(b, installed) <==>
        && Installed(s) == Installed(t)
        && Outlines(Newer(a, installed)) == Outlines(Newer(b, installed))
        && Outlines(Rest(s)) == Outlines(Rest(t))
  {
    var s, t := Older(a, installed), Older(b, installed);
    PartsDated(a, installed);
    PartsDated(b, installed);
    SamePageExactly(a, b, installed);
    InstalledTold(s, t);
    hide Page, Older, Newer, Briefs, Outlines, FirstTold, Installed, Dated, Rest, COMING, EARLIER, AllDated;
    BriefsDiffer(COMING, Newer(a, installed), Newer(b, installed));
    BriefsDiffer(EARLIER, Rest(s), Rest(t));
  }

  // ----- What the page cannot tell apart -----

  // In brief a feature is a change that reads the same, and where its title ends is not told.
  lemma BriefHides(version: Version, date: seq<byte>, title: Text, middle: Text, text: Text, image: seq<byte>,
                   installed: Version)
    requires Less(installed, version)
    ensures
      var (feature, change) := (Feature(title, middle + COLON + text, image), title + COLON + (middle + COLON + text));
      var other := Feature(title + COLON + middle, text, image);
      var page := Page([Release(version, date, [feature], [], [])], installed);
      && page == Page([Release(version, date, [], [], [change])], installed)
      && page == Page([Release(version, date, [other], [], [])], installed)
  {
    var feature, change := Feature(title, middle + COLON + text, image), title + COLON + (middle + COLON + text);
    var other := Feature(title + COLON + middle, text, image);
    var r, s, t := Release(version, date, [feature], [], []), Release(version, date, [], [], [change]),
      Release(version, date, [other], [], []);
    Regroup(title, COLON, middle + COLON + text);
    Regroup(title + COLON, middle, COLON + text);
    Regroup(middle, COLON, text);
    Regroup(title + COLON + middle, COLON, text);
    OneFeature(feature);
    OneFeature(other);
    OneNote(change);
    assert Lines(r) == [Plain(change)] && Lines(s) == [Plain(change)] && Lines(t) == [Plain(change)];
    hide Lines;
    NewerAlone(r, installed);
    NewerAlone(s, installed);
    NewerAlone(t, installed);
    assert Compact(r) == Compact(s) == Compact(t);
    hide Compact, Page;
  }

  // Both are accepted, where the change is not too long.
  lemma BriefHidesAccepted(version: Version, date: seq<byte>, f: Feature)
    requires ValidRelease(Release(version, date, [f], [], [])) && |f.title + COLON + f.text| <= MAX_TEXT
    ensures ValidRelease(Release(version, date, [], [], [f.title + COLON + f.text]))
  {
    assert f in [f];
    NotBlank(f.title, COLON);
    NotBlank(f.title + COLON, f.text);
    hide Blank, ValidDate, ValidImage;
  }

  lemma NotBlank(s: Text, t: Text)
    requires !Blank(s)
    ensures !Blank(s + t)
  {
    var i :| 0 <= i < |s| && !IsSpace(s[i]);
    assert (s + t)[i] == s[i];
  }

  lemma OneFeature(f: Feature)
    ensures FeatureLines([f]) == [Plain(f.title + COLON + f.text)] && FeatureLines([]) == [] && FixLines([]) == []
  {
    assert [f][..0] == [];
  }

  lemma OneNote(n: Text)
    ensures NoteLines([n]) == [Plain(n)] && NoteLines([]) == []
  {
    assert [n][..0] == [];
  }

  lemma NewerAlone(r: Release, installed: Version)
    requires Less(installed, r.version)
    ensures Page([r], installed) == [NoNotes(installed)] + Divided(true, COMING) + Compact(r)
  {
    assert [r][..0] == [];
    LessIsStrict(installed, r.version, installed);
    assert Newer([r], installed) == [r] && Older([r], installed) == [];
    assert Compacts([r]) == Compact(r);
    hide Compact, NoNotes;
  }

  // ----- All of the list -----

  // The releases in the order of the page.
  function PageOrder(releases: seq<Release>, installed: Version): seq<Release> {
    var shown := Older(releases, installed);
    Installed(shown) + Newer(releases, installed) + Rest(shown)
  }

  // The page leaves out no release of a descending list and repeats none.
  lemma PageOrderIsAll(releases: seq<Release>, installed: Version)
    requires Descending(releases)
    ensures multiset(PageOrder(releases, installed)) == multiset(releases)
  {
    var shown, upcoming := Older(releases, installed), Newer(releases, installed);
    PartsAreTheList(releases, installed);
    var first, rest := Installed(shown), Rest(shown);
    assert shown == first + rest;
    hide Older, Newer, Installed, Rest;
    Shuffled(first, upcoming, rest);
  }

  // ----- Dates in words -----

  // A date is told as its day, the English name of its month and its year in four digits.
  lemma DateInWords(year: nat, month: nat, day: nat)
    requires year <= 9999 && 1 <= month <= 12 && 1 <= day <= 31
    ensures
      var name :=
        match month
        case 1 => "January"
        case 2 => "February"
        case 3 => "March"
        case 4 => "April"
        case 5 => "May"
        case 6 => "June"
        case 7 => "July"
        case 8 => "August"
        case 9 => "September"
        case 10 => "October"
        case 11 => "November"
        case _ => "December";
      DateText(ChangelogExact.Spelled(year, month, day))
        == Decimal(day) + [0x20] + Bytes(name) + [0x20] + ChangelogExact.Padded(year, 4)
  {
    var y := ChangelogExact.Padded(year, 4);
    var m, d := ChangelogExact.Padded(month, 2), ChangelogExact.Padded(day, 2);
    ChangelogExact.SpelledIsValid(year, month, day);
    ChangelogExact.PaddedDigits(year, 4);
    ChangelogExact.PaddedValue(month);
    ChangelogExact.PaddedValue(day);
    hide Decimal, Bytes, ChangelogExact.Padded, ValidDate;
    ChangelogExact.Laid(y, m, d);
    var date := ChangelogExact.Spelled(year, month, day);
    assert date[..4] == y;
  }
}
