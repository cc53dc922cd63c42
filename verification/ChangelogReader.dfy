/** The changelog reader as it runs: a cursor over the text, and the drafts filled as members come by. */
module ChangelogReader {
  import opened Common
  import opened Bits
  import opened Utf8
  import opened Json
  import opened Versions
  import opened Changelog

  // ----- Blanks in front do not matter -----

  lemma BlanksBefore(text: seq<byte>, at: nat)
    requires at <= |text|
    ensures
      var next := SkipSpace(text, at);
      && (forall b: byte :: Past(text, next, b) == Past(text, at, b))
      && (forall limit: nat :: TextAt(text, next, limit) == TextAt(text, at, limit))
      && KeyAt(text, next) == KeyAt(text, at) && NoteAt(text, next) == NoteAt(text, at)
      && (forall depth: nat :: Skip(text, next, depth) == Skip(text, at, depth))
  {
    SkipSpaceTwice(text, at);
    hide SkipSpace, StringAt;
  }

  lemma {:induction false} StringGrows(text: seq<byte>, at: nat, out: seq<byte>)
    requires at <= |text|
    ensures
      var r := StringFrom(text, at, out);
      r.Ok? ==> |out| <= |r.value|
    decreases |text| - at
  {
    if at < |text| && text[at] != 0x22 && text[at] >= 0x20 {
      if text[at] != 0x5C {
        StringGrows(text, at + 1, out + [text[at]]);
      } else {
        var escape := Escape(text, at + 1);
        if escape.Ok? {
          StringGrows(text, escape.at, out + escape.value);
        }
      }
    }
  }

  // Where an object or a list ends that is open at `at`.
  function ObjectEnd(text: seq<byte>, at: nat, depth: nat): (r: Option<nat>)
    requires at <= |text|
    ensures r.Some? ==> at < r.value <= |text|
  {
    if Past(text, at, 0x7D).Some? then Past(text, at, 0x7D) else SkipMembers(text, at, depth)
  }

  function ArrayEnd(text: seq<byte>, at: nat, depth: nat): (r: Option<nat>)
    requires at <= |text|
    ensures r.Some? ==> at < r.value <= |text|
  {
    if Past(text, at, 0x5D).Some? then Past(text, at, 0x5D) else SkipItems(text, at, depth)
  }

  lemma SkipIs(text: seq<byte>, start: nat, depth: nat)
    requires start <= |text|
    ensures
      var at := SkipSpace(text, start);
      Skip(text, start, depth) ==
        if depth > MAX_SKIP || at >= |text| then None
        else if text[at] == 0x22 then
          if TextAt(text, at, MAX_BYTES).Fail? then None else Some(TextAt(text, at, MAX_BYTES).at)
        else if text[at] == 0x7B then ObjectEnd(text, at + 1, depth + 1)
        else if text[at] == 0x5B then ArrayEnd(text, at + 1, depth + 1)
        else if SkipPlain(text, at) > at then Some(SkipPlain(text, at))
        else None
  {
    hide TextAt, Past, SkipMembers, SkipItems, SkipPlain, SkipSpace;
  }

  class Reader {
    const text: seq<byte>
    const mode: Mode
    var at: nat

    constructor (text: seq<byte>, mode: Mode, at: nat)
      ensures this.text == text && this.mode == mode && this.at == at
    {
      this.text, this.mode, this.at := text, mode, at;
    }

    method Space()
      requires at <= |text|
      modifies this`at
      ensures at == SkipSpace(text, old(at))
    {
      while at < |text| && IsSpace(text[at])
        invariant at <= |text|
        invariant SkipSpace(text, at) == SkipSpace(text, old(at))
      {
        at := at + 1;
      }
    }

    method Take(b: byte) returns (ok: bool)
      requires at <= |text|
      modifies this`at
      ensures ok == Past(text, old(at), b).Some?
      ensures at == if ok then Past(text, old(at), b).value else SkipSpace(text, old(at))
      ensures at <= |text|
    {
      Space();
      ok := at < |text| && text[at] == b;
      if ok {
        at := at + 1;
      }
    }

    method ReadText(limit: nat) returns (ok: bool, out: seq<byte>)
      requires at <= |text|
      modifies this`at
      ensures at <= |text|
      ensures ok == TextAt(text, old(at), limit).Ok?
      ensures ok ==> TextAt(text, old(at), limit) == Parsed.Ok(out, at)
    {
      hide Escape, WellFormed;
      out := [];
      Space();
      if at >= |text| || text[at] != 0x22 {
        return false, out;
      }
      ghost var start := at;
      at := at + 1;
      while at < |text|
        invariant start < at <= |text| && |out| <= limit
        invariant StringFrom(text, at, out) == StringFrom(text, start + 1, [])
        decreases |text| - at
      {
        var c := text[at];
        at := at + 1;
        if c == 0x22 {
          return WellFormed(out), out;
        }
        if c < 0x20 {
          return false, out;
        }
        if c != 0x5C {
          out := out + [c];
        } else {
          // The escape is read as in the JSON reader.
          var escape := Escape(text, at);
          if escape.Fail? {
            return false, out;
          }
          at, out := escape.at, out + escape.value;
        }
        StringGrows(text, at, out);
        if |out| > limit {
          return false, out;
        }
      }
      return false, out;
    }

    method ReadKey() returns (ok: bool, key: seq<byte>)
      requires at <= |text|
      modifies this`at
      ensures at <= |text|
      ensures ok == KeyAt(text, old(at)).Ok?
      ensures ok ==> KeyAt(text, old(at)) == Parsed.Ok(key, at)
    {
      hide TextAt, Past;
      ok, key := ReadText(MAX_KEY);
      if ok {
        ok := Take(0x3A);
      }
    }

    // A comma after an item, or the end of the container.
    method Continue(close: byte) returns (more: bool, ended: bool)
      requires at <= |text|
      modifies this`at
      ensures at <= |text|
      ensures more == Past(text, old(at), 0x2C).Some?
      ensures more ==> at == Past(text, old(at), 0x2C).value
      ensures !more ==> ended == Past(text, old(at), close).Some?
      ensures !more && ended ==> at == Past(text, old(at), close).value
    {
      BlanksBefore(text, at);
      hide Past;
      ended := false;
      more := Take(0x2C);
      if !more {
        ended := Take(close);
      }
    }

    // Past any value.
    method SkipValue(depth: nat) returns (ok: bool)
      requires at <= |text|
      modifies this`at
      ensures at <= |text|
      ensures ok == Skip(text, old(at), depth).Some?
      ensures ok ==> at == Skip(text, old(at), depth).value
      decreases |text| - at, 0
    {
      SkipIs(text, at, depth);
      hide *;
      Space();
      if depth > MAX_SKIP || at >= |text| {
        return false;
      }
      if text[at] == 0x22 {
        var ignored;
        ok, ignored := ReadText(MAX_BYTES);
      } else if text[at] == 0x7B {
        at := at + 1;
        ok := SkipObject(depth + 1);
      } else if text[at] == 0x5B {
        at := at + 1;
        ok := SkipArray(depth + 1);
      } else {
        ok := SkipWord();
      }
    }

    // After the opening brace.
    method SkipObject(depth: nat) returns (ok: bool)
      requires at <= |text|
      modifies this`at
      ensures at <= |text|
      ensures ok == ObjectEnd(text, old(at), depth).Some?
      ensures ok ==> at == ObjectEnd(text, old(at), depth).value
      decreases |text| - at, 2
    {
      SkippedBlanks(text, at, depth);
      hide Past, SkipMembers;
      ok := Take(0x7D);
      if !ok {
        ok := SkipFields(depth);
      }
    }

    // After the opening bracket.
    method SkipArray(depth: nat) returns (ok: bool)
      requires at <= |text|
      modifies this`at
      ensures at <= |text|
      ensures ok == ArrayEnd(text, old(at), depth).Some?
      ensures ok ==> at == ArrayEnd(text, old(at), depth).value
      decreases |text| - at, 2
    {
      SkippedBlanks(text, at, depth);
      hide Past, SkipItems;
      ok := Take(0x5D);
      if !ok {
        ok := SkipList(depth);
      }
    }

    // true, false, null or a number.
    method SkipWord() returns (ok: bool)
      requires at <= |text|
      modifies this`at
      ensures at == SkipPlain(text, old(at)) && ok == (at > old(at))
    {
      var start := at;
      while at < |text| && PlainByte(text[at])
        invariant old(at) <= at <= |text| && SkipPlain(text, at) == SkipPlain(text, old(at))
      {
        at := at + 1;
      }
      ok := at > start;
    }

    method SkipFields(depth: nat) returns (ok: bool)
      requires at <= |text|
      modifies this`at
      ensures at <= |text|
      ensures ok == SkipMembers(text, old(at), depth).Some?
      ensures ok ==> at == SkipMembers(text, old(at), depth).value
      decreases |text| - at, 1
    {
      hide KeyAt, Past, Skip;
      ghost var start := at;
      while true
        invariant start <= at <= |text| && SkipMembers(text, at, depth) == SkipMembers(text, start, depth)
        decreases |text| - at
      {
        var key, more;
        ok, key := ReadKey();
        if ok {
          ok := SkipValue(depth);
        }
        if !ok {
          return;
        }
        more, ok := Continue(0x7D);
        if !more {
          return;
        }
      }
    }

    method SkipList(depth: nat) returns (ok: bool)
      requires at <= |text|
      modifies this`at
      ensures at <= |text|
      ensures ok == SkipItems(text, old(at), depth).Some?
      ensures ok ==> at == SkipItems(text, old(at), depth).value
      decreases |text| - at, 1
    {
      hide Past, Skip;
      ghost var start := at;
      while true
        invariant start <= at <= |text| && SkipItems(text, at, depth) == SkipItems(text, start, depth)
        decreases |text| - at
      {
        var more;
        ok := SkipValue(depth);
        if !ok {
          return;
        }
        more, ok := Continue(0x5D);
        if !more {
          return;
        }
      }
    }

    // A field the schema does not know is skipped, or refused.
    method SkipUnknown() returns (ok: bool)
      requires at <= |text|
      modifies this`at
      ensures at <= |text|
      ensures ok == (mode == Lenient && Skip(text, old(at), 0).Some?)
      ensures ok ==> at == Skip(text, old(at), 0).value
    {
      ok := mode == Lenient;
      if ok {
        ok := SkipValue(0);
      }
    }

    method ReadNotes() returns (ok: bool, notes: seq<seq<byte>>)
      requires at <= |text|
      modifies this`at
      ensures at <= |text|
      ensures ok == NotesAt(text, old(at)).Ok?
      ensures ok ==> NotesAt(text, old(at)) == Parsed.Ok(notes, at)
    {
      hide Past, NoteAt, TextAt, NotesFrom;
      notes := [];
      ok := Take(0x5B);
      if !ok {
        return;
      }
      NotesBlanks(text, at);
      var ended := Take(0x5D);
      if !ended {
        ok, notes := ReadNotesFrom();
      }
    }

    method ReadNotesFrom() returns (ok: bool, notes: seq<seq<byte>>)
      requires at <= |text|
      modifies this`at
      ensures at <= |text|
      ensures ok == NotesFrom(text, old(at), []).Ok?
      ensures ok ==> NotesFrom(text, old(at), []) == Parsed.Ok(notes, at)
    {
      hide Past, TextAt;
      ghost var start := at;
      notes := [];
      while true
        invariant start <= at <= |text| && NotesFrom(text, at, notes) == NotesFrom(text, start, [])
        decreases |text| - at
      {
        if |notes| >= MAX_CHANGES {
          return false, notes;
        }
        var note, more;
        ok, note := ReadText(MAX_TEXT);
        if !ok || Blank(note) {
          return false, notes;
        }
        notes := notes + [note];
        more, ok := Continue(0x5D);
        if !more {
          return;
        }
      }
    }

    // ----- Features -----

    method ReadFeatureField(key: seq<byte>, before: FeatureDraft) returns (ok: bool, draft: FeatureDraft)
      requires at <= |text|
      modifies this`at
      ensures at <= |text|
      ensures ok == FeatureField(text, old(at), mode, key, before).Ok?
      ensures ok ==> FeatureField(text, old(at), mode, key, before) == Parsed.Ok(draft, at)
    {
      hide TextAt, Skip, ValidImage;
      draft := before;
      var value;
      if key == TITLE_KEY && draft.title.None? {
        ok, value := ReadText(MAX_TITLE);
        draft := draft.(title := Some(value));
      } else if key == TEXT_KEY && draft.text.None? {
        ok, value := ReadText(MAX_TEXT);
        draft := draft.(text := Some(value));
      } else if key == IMAGE_KEY && draft.image.None? {
        ok, value := ReadText(MAX_IMAGE);
        ok := ok && ValidImage(value);
        draft := draft.(image := Some(value));
      } else {
        ok := SkipUnknown();
      }
    }

    method ReadFeatureMembers() returns (ok: bool, draft: FeatureDraft)
      requires at <= |text|
      modifies this`at
      ensures at <= |text|
      ensures ok == FeatureMembers(text, old(at), mode, NO_FEATURE).Ok?
      ensures ok ==> FeatureMembers(text, old(at), mode, NO_FEATURE) == Parsed.Ok(draft, at)
    {
      hide KeyAt, Past, FeatureField;
      ghost var start := at;
      draft := NO_FEATURE;
      while true
        invariant start <= at <= |text|
            && FeatureMembers(text, at, mode, draft) == FeatureMembers(text, start, mode, NO_FEATURE)
        decreases |text| - at
      {
        var key, more;
        ok, key := ReadKey();
        if ok {
          ok, draft := ReadFeatureField(key, draft);
        }
        if !ok {
          return;
        }
        more, ok := Continue(0x7D);
        if !more {
          return;
        }
      }
    }

    method ReadFeature() returns (ok: bool, feature: Feature)
      requires at <= |text|
      modifies this`at
      ensures at <= |text|
      ensures ok == FeatureAt(text, old(at), mode).Ok?
      ensures ok ==> FeatureAt(text, old(at), mode) == Parsed.Ok(feature, at)
    {
      hide Past, FeatureMembers, Blank;
      feature := Feature([], [], []);
      ok := Take(0x7B);
      if !ok {
        return;
      }
      FeatureBlanks(text, at, mode);
      var ended := Take(0x7D);
      var draft := NO_FEATURE;
      if !ended {
        ok, draft := ReadFeatureMembers();
      }
      feature := Feature(All(draft.title), All(draft.text), All(draft.image));
      BlankNothing();
      ok := ok && !Blank(feature.title) && !Blank(feature.text);
    }

    method ReadFeatures() returns (ok: bool, features: seq<Feature>)
      requires at <= |text|
      modifies this`at
      ensures at <= |text|
      ensures ok == FeaturesAt(text, old(at), mode).Ok?
      ensures ok ==> FeaturesAt(text, old(at), mode) == Parsed.Ok(features, at)
    {
      hide Past, FeaturesFrom;
      features := [];
      ok := Take(0x5B);
      if !ok {
        return;
      }
      FeaturesBlanks(text, at, mode);
      var ended := Take(0x5D);
      if !ended {
        ok, features := ReadFeaturesFrom();
      }
    }

    method ReadFeaturesFrom() returns (ok: bool, features: seq<Feature>)
      requires at <= |text|
      modifies this`at
      ensures at <= |text|
      ensures ok == FeaturesFrom(text, old(at), mode, []).Ok?
      ensures ok ==> FeaturesFrom(text, old(at), mode, []) == Parsed.Ok(features, at)
    {
      hide Past, FeatureAt;
      ghost var start := at;
      features := [];
      while true
        invariant start <= at <= |text| && FeaturesFrom(text, at, mode, features) == FeaturesFrom(text, start, mode, [])
        decreases |text| - at
      {
        if |features| >= MAX_FEATURES {
          return false, features;
        }
        var feature, more;
        ok, feature := ReadFeature();
        if !ok {
          return;
        }
        features := features + [feature];
        more, ok := Continue(0x5D);
        if !more {
          return;
        }
      }
    }

    // ----- Releases -----

    method ReadReleaseField(key: seq<byte>, before: ReleaseDraft) returns (ok: bool, draft: ReleaseDraft)
      requires at <= |text|
      modifies this`at
      ensures at <= |text|
      ensures ok == ReleaseField(text, old(at), mode, key, before).Ok?
      ensures ok ==> ReleaseField(text, old(at), mode, key, before) == Parsed.Ok(draft, at)
    {
      hide TextAt, Skip, ValidDate, VersionOf, NotesAt, FeaturesAt;
      draft := before;
      if key == VERSION_KEY && draft.version.None? {
        var value, version;
        ok, value := ReadText(MAX_VERSION);
        if ok {
          ok, version := ParseVersion(value);
          draft := draft.(version := Some(version));
        }
      } else if key == DATE_KEY && draft.date.None? {
        var value;
        ok, value := ReadText(MAX_DATE);
        ok := ok && ValidDate(value);
        draft := draft.(date := Some(value));
      } else if key == FEATURES_KEY && draft.features.None? {
        var features;
        ok, features := ReadFeatures();
        draft := draft.(features := Some(features));
      } else if key == FIXES_KEY && draft.fixes.None? {
        var notes;
        ok, notes := ReadNotes();
        draft := draft.(fixes := Some(notes));
      } else if key == CHANGES_KEY && draft.changes.None? {
        var notes;
        ok, notes := ReadNotes();
        draft := draft.(changes := Some(notes));
      } else {
        ok := SkipUnknown();
      }
    }

    method ReadReleaseMembers() returns (ok: bool, draft: ReleaseDraft)
      requires at <= |text|
      modifies this`at
      ensures at <= |text|
      ensures ok == ReleaseMembers(text, old(at), mode, NO_RELEASE).Ok?
      ensures ok ==> ReleaseMembers(text, old(at), mode, NO_RELEASE) == Parsed.Ok(draft, at)
    {
      hide KeyAt, Past, ReleaseField;
      ghost var start := at;
      draft := NO_RELEASE;
      while true
        invariant start <= at <= |text|
            && ReleaseMembers(text, at, mode, draft) == ReleaseMembers(text, start, mode, NO_RELEASE)
        decreases |text| - at
      {
        var key, more;
        ok, key := ReadKey();
        if ok {
          ok, draft := ReadReleaseField(key, draft);
        }
        if !ok {
          return;
        }
        more, ok := Continue(0x7D);
        if !more {
          return;
        }
      }
    }

    method ReadRelease() returns (ok: bool, release: Release)
      requires at <= |text|
      modifies this`at
      ensures at <= |text|
      ensures ok == ReleaseAt(text, old(at), mode).Ok?
      ensures ok ==> ReleaseAt(text, old(at), mode) == Parsed.Ok(release, at)
    {
      hide Past, ReleaseMembers;
      release := Release(Version(0, 0, 0), [], [], [], []);
      ok := Take(0x7B);
      if !ok {
        return;
      }
      ReleaseBlanks(text, at, mode);
      var ended := Take(0x7D);
      var draft := NO_RELEASE;
      if !ended {
        ok, draft := ReadReleaseMembers();
      }
      ok := ok && draft.version.Some?;
      if ok {
        release := Release(draft.version.value, All(draft.date), All(draft.features), All(draft.fixes),
          All(draft.changes));
        ok := HasContent(release);
      }
    }

    method ReadReleases() returns (ok: bool, releases: seq<Release>)
      requires at <= |text|
      modifies this`at
      ensures at <= |text|
      ensures ok == ReleasesAt(text, old(at), mode).Ok?
      ensures ok ==> ReleasesAt(text, old(at), mode) == Parsed.Ok(releases, at)
    {
      hide Past, ReleasesFrom;
      releases := [];
      ok := Take(0x5B);
      if !ok {
        return;
      }
      ReleasesBlanks(text, at, mode);
      var ended := Take(0x5D);
      if !ended {
        ok, releases := ReadReleasesFrom();
      }
    }

    method ReadReleasesFrom() returns (ok: bool, releases: seq<Release>)
      requires at <= |text|
      modifies this`at
      ensures at <= |text|
      ensures ok == ReleasesFrom(text, old(at), mode, []).Ok?
      ensures ok ==> ReleasesFrom(text, old(at), mode, []) == Parsed.Ok(releases, at)
    {
      hide Past, ReleaseAt, Less;
      ghost var start := at;
      releases := [];
      while true
        invariant start <= at <= |text| && ReleasesFrom(text, at, mode, releases) == ReleasesFrom(text, start, mode, [])
        decreases |text| - at
      {
        if |releases| >= MAX_RELEASES {
          return false, releases;
        }
        var release, more;
        ok, release := ReadRelease();
        if !ok || (releases != [] && !Less(release.version, releases[|releases| - 1].version)) {
          return false, releases;
        }
        releases := releases + [release];
        more, ok := Continue(0x5D);
        if !more {
          return;
        }
      }
    }

    // ----- The document -----

    method ReadTopMembers() returns (ok: bool, releases: Option<seq<Release>>)
      requires at <= |text|
      modifies this`at
      ensures at <= |text|
      ensures ok == TopMembers(text, old(at), mode, None).Ok?
      ensures ok ==> TopMembers(text, old(at), mode, None) == Parsed.Ok(releases, at)
    {
      hide KeyAt, Past, ReleasesAt, Skip;
      ghost var start := at;
      releases := None;
      while true
        invariant start <= at <= |text| && TopMembers(text, at, mode, releases) == TopMembers(text, start, mode, None)
        decreases |text| - at
      {
        var key, more;
        ok, key := ReadKey();
        if !ok {
          return;
        }
        if key != RELEASES_KEY {
          ok := SkipUnknown();
        } else if releases.Some? {
          ok := false;
        } else {
          var read;
          ok, read := ReadReleases();
          releases := Some(read);
        }
        if !ok {
          return;
        }
        more, ok := Continue(0x7D);
        if !more {
          return;
        }
      }
    }

    method ReadTop() returns (ok: bool, releases: seq<Release>)
      requires at <= |text|
      modifies this`at
      ensures at <= |text|
      ensures ok == TopAt(text, old(at), mode).Ok?
      ensures ok ==> TopAt(text, old(at), mode) == Parsed.Ok(releases, at)
    {
      hide Past, TopMembers;
      releases := [];
      ok := Take(0x7B);
      if !ok {
        return;
      }
      TopBlanks(text, at, mode);
      var ended := Take(0x7D);
      if ended {
        return false, releases;
      }
      var top;
      ok, top := ReadTopMembers();
      if ok {
        releases := All(top);
        ok := releases != [];
      }
    }
  }

  // The releases of a document; on refusal the caller's list stays as it was.
  method Parse(document: seq<byte>, mode: Mode, before: seq<Release>) returns (ok: bool, releases: seq<Release>)
    ensures ok == ParseChangelog(document, mode).Some?
    ensures releases == if ok then ParseChangelog(document, mode).value else before
  {
    hide TopAt;
    if |document| > MAX_BYTES {
      return false, before;
    }
    var start := if |document| >= 3 && document[0..3] == BYTE_ORDER_MARK then 3 else 0;
    var reader := new Reader(document, mode, start);
    var read, parsed := reader.ReadTop();
    if !read {
      return false, before;
    }
    reader.Space();
    if reader.at != |document| {
      return false, before;
    }
    return true, parsed;
  }

  lemma BlankNothing()
    ensures Blank([])
  {
  }

  lemma SkippedBlanks(text: seq<byte>, at: nat, depth: nat)
    requires at <= |text|
    ensures SkipMembers(text, SkipSpace(text, at), depth) == SkipMembers(text, at, depth)
    ensures SkipItems(text, SkipSpace(text, at), depth) == SkipItems(text, at, depth)
  {
    BlanksBefore(text, at);
    hide KeyAt, Skip, SkipSpace, Past;
  }

  lemma NotesBlanks(text: seq<byte>, at: nat)
    requires at <= |text|
    ensures NotesFrom(text, SkipSpace(text, at), []) == NotesFrom(text, at, [])
  {
    BlanksBefore(text, at);
    hide NoteAt, SkipSpace, Past;
  }

  lemma FeatureBlanks(text: seq<byte>, at: nat, mode: Mode)
    requires at <= |text|
    ensures FeatureMembers(text, SkipSpace(text, at), mode, NO_FEATURE) == FeatureMembers(text, at, mode, NO_FEATURE)
  {
    BlanksBefore(text, at);
    hide KeyAt, FeatureField, SkipSpace, Past;
  }

  lemma FeaturesBlanks(text: seq<byte>, at: nat, mode: Mode)
    requires at <= |text|
    ensures FeaturesFrom(text, SkipSpace(text, at), mode, []) == FeaturesFrom(text, at, mode, [])
  {
    BlanksBefore(text, at);
    assert FeatureAt(text, SkipSpace(text, at), mode)
      == FeatureAt(text, at, mode) by { hide FeatureMembers, SkipSpace, Past; }
    hide FeatureAt, SkipSpace, Past;
  }

  lemma ReleaseBlanks(text: seq<byte>, at: nat, mode: Mode)
    requires at <= |text|
    ensures ReleaseMembers(text, SkipSpace(text, at), mode, NO_RELEASE) == ReleaseMembers(text, at, mode, NO_RELEASE)
  {
    BlanksBefore(text, at);
    hide KeyAt, ReleaseField, SkipSpace, Past;
  }

  lemma ReleasesBlanks(text: seq<byte>, at: nat, mode: Mode)
    requires at <= |text|
    ensures ReleasesFrom(text, SkipSpace(text, at), mode, []) == ReleasesFrom(text, at, mode, [])
  {
    BlanksBefore(text, at);
    assert ReleaseAt(text, SkipSpace(text, at), mode)
      == ReleaseAt(text, at, mode) by { hide ReleaseMembers, SkipSpace, Past; }
    hide ReleaseAt, SkipSpace, Past, Follows;
  }

  lemma TopBlanks(text: seq<byte>, at: nat, mode: Mode)
    requires at <= |text|
    ensures TopMembers(text, SkipSpace(text, at), mode, None) == TopMembers(text, at, mode, None)
  {
    BlanksBefore(text, at);
    hide KeyAt, TopField, SkipSpace, Past;
  }
}
