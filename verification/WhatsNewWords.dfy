/** What the What's new page says in words: its sections in order, its lines, its titles and its only note. */
module WhatsNewWords {
  import opened Common
  import opened Bits
  import opened Json
  import opened Versions
  import opened Changelog
  import opened WhatsNew

  // ----- Filling a wording -----

  lemma {:induction false} FilledPlain(wording: string, value: Text)
    requires '{' !in wording
    ensures Filled(wording, value) == Bytes(wording)
    decreases |wording|
  {
    if wording != "" {
      FilledPlain(wording[1..], value);
      BytesFirst(wording);
      assert |wording| >= 3 ==> wording[..3][0] == wording[0];
      hide Bytes;
    }
  }

  lemma {:induction false} BytesAppend(s: string, t: string)
    ensures Bytes(s + t) == Bytes(s) + Bytes(t)
  {
    if t == "" {
      assert s + t == s;
    } else {
      BytesAppend(s, t[..|t| - 1]);
      assert (s + t)[..|s + t| - 1] == s + t[..|t| - 1];
    }
  }

  lemma BytesFirst(s: string)
    requires s != ""
    ensures Bytes(s) == Bytes(s[..1]) + Bytes(s[1..])
  {
    BytesAppend(s[..1], s[1..]);
    assert s == s[..1] + s[1..];
  }

  // The value stands between the words before and after its place.
  lemma {:induction false} FilledAt(before: string, after: string, value: Text)
    requires '{' !in before
    ensures Filled(before + "{0}" + after, value) == Bytes(before) + value + Bytes(after)
    decreases |before|
  {
    var wording := before + "{0}" + after;
    if before == "" {
      assert wording[..3] == "{0}" && wording[3..] == after;
      hide Bytes;
      assert Filled(wording, value) == value + Bytes(after);
      NothingBefore(before, value + Bytes(after));
      Regroup(Bytes(before), value, Bytes(after));
    } else {
      assert wording[0] == before[0] && wording[..3][0] == before[0] && wording[..1] == before[..1];
      assert wording[1..] == before[1..] + "{0}" + after;
      FilledAt(before[1..], after, value);
      BytesFirst(before);
      var first, rest := Bytes(before[..1]), Bytes(before[1..]);
      hide Bytes;
      Regroup(first, rest, value);
      Regroup(first, rest + value, Bytes(after));
    }
  }

  lemma NothingBefore(s: string, text: Text)
    requires s == ""
    ensures Bytes(s) + text == text
  {
  }

  // ----- Words -----

  lemma FixSays(note: Text)
    ensures BulletOf(Fixed(note)).text == Bytes("Fixed: ") + note
  {
    FilledAt("Fixed: ", "", note);
    assert "Fixed: " + "{0}" + "" == "Fixed: {0}";
    hide Filled;
    NothingAfter(Bytes("Fixed: ") + note, "");
  }

  lemma NothingAfter(text: Text, s: string)
    requires s == ""
    ensures text + Bytes(s) == text
  {
  }

  lemma NoNotesSays(installed: Version)
    ensures NoNotes(installed).kind == Note
    ensures NoNotes(installed).text
         == Bytes("No notes are listed for Taxi Cam ") + VersionText(installed) + Bytes(" yet.")
  {
    FilledAt("No notes are listed for Taxi Cam ", " yet.", VersionText(installed));
    assert "No notes are listed for Taxi Cam " + "{0}" + " yet." == "No notes are listed for Taxi Cam {0} yet.";
    hide Filled, VersionText, Bytes;
  }

  lemma TitleSays(kind: Kind, r: Release)
    ensures
      Title(kind, r).text
        == Bytes("Taxi Cam ") + (Decimal(r.version.major) + [0x2E] + Decimal(r.version.minor) + [0x2E]
             + Decimal(r.version.patch))
  {
    hide Decimal, Bytes, DateText;
  }

  // ----- Lines -----

  lemma {:induction false} BulletAt(lines: seq<Line>, i: nat)
    requires i < |lines|
    ensures |Bullets(lines)| == |lines| && Bullets(lines)[i] == BulletOf(lines[i])
    decreases |lines|
  {
    BulletsLength(lines);
    if i < |lines| - 1 {
      BulletsLength(lines[..|lines| - 1]);
      BulletAt(lines[..|lines| - 1], i);
    }
    hide BulletOf;
  }

  lemma {:induction false} BulletsLength(lines: seq<Line>)
    ensures |Bullets(lines)| == |lines|
  {
    if lines != [] {
      BulletsLength(lines[..|lines| - 1]);
    }
  }

  lemma {:induction false} FeatureLineAt(features: seq<Feature>, i: nat)
    ensures |FeatureLines(features)| == |features|
    ensures i < |features| ==>
        FeatureLines(features)[i] == Plain(features[i].title + Bytes(": ") + features[i].text)
  {
    assert Bytes(": ") == [0x3A, 0x20] by {
      BytesAre(": ", [0x3A, 0x20]);
    }
    if features != [] {
      FeatureLineAt(features[..|features| - 1], i);
      hide Bytes;
    }
  }

  lemma {:induction false} FixLineAt(notes: seq<Text>, i: nat)
    ensures |FixLines(notes)| == |notes| && (i < |notes| ==> FixLines(notes)[i] == Fixed(notes[i]))
  {
    if notes != [] {
      FixLineAt(notes[..|notes| - 1], i);
    }
  }

  lemma {:induction false} NoteLineAt(notes: seq<Text>, i: nat)
    ensures |NoteLines(notes)| == |notes| && (i < |notes| ==> NoteLines(notes)[i] == Plain(notes[i]))
  {
    if notes != [] {
      NoteLineAt(notes[..|notes| - 1], i);
    }
  }

  // The text of a release's i-th line in brief: first its features, then its fixes, then its changes.
  function LineText(r: Release, i: nat): Text
    requires i < |r.features| + |r.fixes| + |r.changes|
  {
    var n, m := |r.features|, |r.features| + |r.fixes|;
    if i < n then r.features[i].title + Bytes(": ") + r.features[i].text
    else if i < m then Bytes("Fixed: ") + r.fixes[i - n]
    else r.changes[i - m]
  }

  lemma LineIs(r: Release, i: nat)
    requires i < |r.features| + |r.fixes| + |r.changes|
    ensures |Lines(r)| == |r.features| + |r.fixes| + |r.changes|
    ensures BulletOf(Lines(r)[i]).text == LineText(r, i) && BulletOf(Lines(r)[i]).kind == Bullet
  {
    var n, m := |r.features|, |r.features| + |r.fixes|;
    FeatureLineAt(r.features, i);
    FixLineAt(r.fixes, if i >= n then i - n else i);
    NoteLineAt(r.changes, if i >= m then i - m else i);
    hide FeatureLines, FixLines, NoteLines, Bytes, Filled;
    if n <= i < m {
      FixSays(r.fixes[i - n]);
    }
  }

  // In brief a release is its title and one line for each feature, fix and change.
  lemma CompactSays(r: Release)
    ensures
      var blocks, count := Compact(r), |r.features| + |r.fixes| + |r.changes|;
      && |blocks| == 1 + count && blocks[0] == Title(Listed, r)
      && forall i :: 1 <= i <= count ==> blocks[i].kind == Bullet && blocks[i].text == LineText(r, i - 1)
  {
    var lines, count := Lines(r), |r.features| + |r.fixes| + |r.changes|;
    BulletsLength(lines);
    LinesCount(r);
    hide Lines, Bullets, BulletOf, Title, LineText;
    var blocks := Compact(r);
    forall i | 1 <= i <= count ensures blocks[i].kind == Bullet && blocks[i].text == LineText(r, i - 1) {
      BulletAt(lines, i - 1);
      LineIs(r, i - 1);
    }
  }

  lemma LinesCount(r: Release)
    ensures |Lines(r)| == |r.features| + |r.fixes| + |r.changes|
  {
    FeatureLineAt(r.features, 0);
    FixLineAt(r.fixes, 0);
    NoteLineAt(r.changes, 0);
    hide FeatureLines, FixLines, NoteLines, Bytes;
  }

  // ----- Sections -----

  // The texts of the dividers on the page, in its order.
  function Sections(blocks: seq<Block>): seq<Text> {
    if blocks == [] then []
    else
      var last := blocks[|blocks| - 1];
      Sections(blocks[..|blocks| - 1]) + if last.kind == Section then [last.text] else []
  }

  lemma {:induction false} SectionsAppend(a: seq<Block>, b: seq<Block>)
    ensures Sections(a + b) == Sections(a) + Sections(b)
  {
    if b == [] {
      assert a + b == a;
    } else {
      SectionsAppend(a, b[..|b| - 1]);
      assert (a + b)[..|a + b| - 1] == a + b[..|b| - 1];
    }
  }

  lemma {:induction false} NoSections(blocks: seq<Block>)
    requires forall i :: 0 <= i < |blocks| ==> blocks[i].kind != Section
    ensures Sections(blocks) == []
  {
    if blocks != [] {
      NoSections(blocks[..|blocks| - 1]);
    }
  }

  lemma {:induction false} FeaturesUndivided(features: seq<Feature>)
    ensures forall i :: 0 <= i < |Features(features)| ==> Features(features)[i].kind == Featured
  {
    if features != [] {
      FeaturesUndivided(features[..|features| - 1]);
    }
  }

  lemma {:induction false} BulletsUndivided(lines: seq<Line>)
    ensures forall i :: 0 <= i < |Bullets(lines)| ==> Bullets(lines)[i].kind == Bullet
  {
    if lines != [] {
      BulletsUndivided(lines[..|lines| - 1]);
      hide Filled;
    }
  }

  lemma {:induction false} CompactsUndivided(releases: seq<Release>)
    ensures Sections(Compacts(releases)) == []
  {
    if releases != [] {
      var before, last := releases[..|releases| - 1], releases[|releases| - 1];
      CompactsUndivided(before);
      CompactUndivided(last);
      SectionsAppend(Compacts(before), Compact(last));
      hide Sections, Compact;
    }
  }

  lemma CompactUndivided(r: Release)
    ensures Sections(Compact(r)) == []
  {
    BulletsUndivided(Lines(r));
    hide Bullets, Lines;
    NoSections(Compact(r));
  }

  lemma DividedSays(needed: bool, section: string)
    requires '{' !in section
    ensures Sections(Divided(needed, section)) == if needed then [Bytes(section)] else []
  {
    FilledPlain(section, []);
    hide Filled, Bytes;
    assert [Chrome(Section, section, [])][..0] == [];
  }

  // A word where there is something to say under it.
  function Heads(needed: bool, section: string): seq<Text> {
    if needed then [Bytes(section)] else []
  }

  // The dividers of the installed release; changes are the other changes beside features or fixes.
  function FullSections(r: Release): seq<Text> {
    Heads(r.features != [], "New features") + Heads(r.fixes != [], "Fixes")
    + Heads(r.changes != [] && r.features == [] && r.fixes == [], "Changes")
    + Heads(r.changes != [] && (r.features != [] || r.fixes != []), "Other changes")
  }

  lemma SevenParts(a: seq<Block>, b: seq<Block>, c: seq<Block>, d: seq<Block>, e: seq<Block>, f: seq<Block>,
                   g: seq<Block>)
    requires Sections(a) == [] && Sections(c) == [] && Sections(e) == [] && Sections(g) == []
    ensures Sections(a + b + c + d + e + f + g) == Sections(b) + Sections(d) + Sections(f)
  {
    SectionsAppend(a + b + c + d + e + f, g);
    SectionsAppend(a + b + c + d + e, f);
    SectionsAppend(a + b + c + d, e);
    SectionsAppend(a + b + c, d);
    SectionsAppend(a + b, c);
    SectionsAppend(a, b);
    hide Sections;
  }

  lemma FullParts(r: Release)
    ensures Full(r) == [Title(Heading, r)] + Divided(r.features != [], NEW_FEATURES) + Features(r.features)
        + Divided(r.fixes != [], FIXES) + Bullets(NoteLines(r.fixes)) + Divided(r.changes != [], ChangesTitle(r))
        + Bullets(NoteLines(r.changes))
    ensures Sections([Title(Heading, r)]) == []
  {
    NoSections([Title(Heading, r)]);
    hide Sections, Title, Features, Bullets, NoteLines, Divided, ChangesTitle;
  }

  lemma FeaturesHaveNone(features: seq<Feature>)
    ensures Sections(Features(features)) == []
  {
    FeaturesUndivided(features);
    NoSections(Features(features));
  }

  lemma BulletsHaveNone(lines: seq<Line>)
    ensures Sections(Bullets(lines)) == []
  {
    BulletsUndivided(lines);
    NoSections(Bullets(lines));
  }

  lemma HeadsAre(needed: bool, section: string)
    ensures Heads(needed, section) == if needed then [Bytes(section)] else []
  {
  }

  lemma FullSays(r: Release)
    ensures Sections(Full(r)) == FullSections(r)
  {
    hide *;
    var title := ChangesTitle(r);
    HeadsSay(r.features != [], r.fixes != [], r.changes != [], r);
    FullSectionsAre(r);
    FullParts(r);
    FeaturesHaveNone(r.features);
    BulletsHaveNone(NoteLines(r.fixes));
    BulletsHaveNone(NoteLines(r.changes));
    SevenParts([Title(Heading, r)], Divided(r.features != [], NEW_FEATURES), Features(r.features),
      Divided(r.fixes != [], FIXES), Bullets(NoteLines(r.fixes)), Divided(r.changes != [], title),
      Bullets(NoteLines(r.changes)));
  }

  lemma HeadsSay(features: bool, fixes: bool, changes: bool, r: Release)
    ensures Sections(Divided(features, NEW_FEATURES)) == Heads(features, NEW_FEATURES)
    ensures Sections(Divided(fixes, FIXES)) == Heads(fixes, FIXES)
    ensures Sections(Divided(changes, ChangesTitle(r))) == Heads(changes, ChangesTitle(r))
  {
    DividedSays(features, NEW_FEATURES);
    DividedSays(fixes, FIXES);
    DividedSays(changes, ChangesTitle(r));
    hide Sections, Divided, Bytes;
  }

  lemma FullSectionsAre(r: Release)
    ensures FullSections(r)
         == Heads(r.features != [], NEW_FEATURES) + Heads(r.fixes != [], FIXES)
           + Heads(r.changes != [], ChangesTitle(r))
  {
    hide Bytes;
    ChangesSay(r);
    var a, b := Heads(r.features != [], "New features"), Heads(r.fixes != [], "Fixes");
    var c := Heads(r.changes != [] && r.features == [] && r.fixes == [], "Changes");
    var d := Heads(r.changes != [] && (r.features != [] || r.fixes != []), "Other changes");
    hide Heads;
    Regroup(a + b, c, d);
  }

  lemma ChangesSay(r: Release)
    ensures
      Heads(r.changes != [], ChangesTitle(r))
        == Heads(r.changes != [] && r.features == [] && r.fixes == [], "Changes")
          + Heads(r.changes != [] && (r.features != [] || r.fixes != []), "Other changes")
  {
    hide Bytes;
  }

  // The dividers of the page: those of the installed release, one for the newer releases where there are any,
  // and one for the older where there are any.
  lemma SectionsSay(releases: seq<Release>, installed: Version)
    ensures
      var shown, upcoming := Older(releases, installed), Newer(releases, installed);
      Sections(Page(releases, installed))
        == (if shown == [] then [] else FullSections(shown[0]))
          + Heads(upcoming != [], "Coming in the next update") + Heads(|shown| > 1, "Earlier versions")
  {
    var shown, upcoming := Older(releases, installed), Newer(releases, installed);
    FirstSays(shown, installed);
    assert '{' !in COMING && '{' !in EARLIER;
    assert COMING == "Coming in the next update" && EARLIER == "Earlier versions";
    hide *;
    PageParts(releases, installed);
    CompactsUndivided(upcoming);
    CompactsUndivided(Rest(shown));
    FiveSections(First(shown, installed), Divided(upcoming != [], COMING), Compacts(upcoming),
      Divided(|shown| > 1, EARLIER), Compacts(Rest(shown)));
    DividedSays(upcoming != [], COMING);
    DividedSays(|shown| > 1, EARLIER);
    HeadsAre(upcoming != [], COMING);
    HeadsAre(|shown| > 1, EARLIER);
  }

  lemma FiveSections(a: seq<Block>, b: seq<Block>, c: seq<Block>, d: seq<Block>, e: seq<Block>)
    requires Sections(c) == [] && Sections(e) == []
    ensures Sections(a + b + c + d + e) == Sections(a) + Sections(b) + Sections(d)
  {
    SectionsAppend(a + b + c + d, e);
    SectionsAppend(a + b + c, d);
    SectionsAppend(a + b, c);
    SectionsAppend(a, b);
    hide Sections;
  }

  lemma FirstSays(shown: seq<Release>, installed: Version)
    ensures Sections(First(shown, installed)) == if shown == [] then [] else FullSections(shown[0])
  {
    if shown == [] {
      hide Filled;
      NoSections([NoNotes(installed)]);
    } else {
      FullSays(shown[0]);
      hide Full, FullSections, Sections;
    }
  }
}
