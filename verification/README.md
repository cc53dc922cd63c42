# Taxi Cam: verified models of the logic that must not fail

Taxi Cam shows aircraft cameras on cockpit displays of a flight simulator. A companion program talks to a
bridge inside the simulator process. This project models the parts of it whose mistakes would be hard to see:

- **The bug-report archive** (`Bits`, `BitWriters`, `Inflate`, `Deflate`, `Lz77`, `Greedy`, `DeflateWriter`, `Crc`, `Zip`):
  a DEFLATE compressor with hash chains in a ring, a table-driven CRC-32 and a ZIP writer. Each is proved
  against a reader written from RFC 1951, from RFC 1952 section 8 and from the ZIP APPNOTE (sections 4.3.7,
  4.3.12 and 4.3.16). The readers share no table and no code with the writers: the ZIP reader takes each field at
  its own offset.
- **The JSON reader** (`Utf8`, `Json`, `JsonGrammar`, `JsonSound`, `JsonComplete`, `JsonReader`): a recursive
  descent parser with a cursor and a depth counter, sound and complete for RFC 8259 as a grammar of syntax trees. The
  grammar has its own tables of escapes, hexadecimal digits, white space and words.
- **The changelog** (`Versions`, `Changelog`, `ChangelogModes`, `ChangelogSteps`, `ChangelogSkips`, `ChangelogJson`,
  `ChangelogKnown`, `ChangelogHidden`, `ChangelogLaw`, `ChangelogExact`, `ChangelogReader`, `WhatsNew`, `WhatsNewContents`,
  `WhatsNewWords`):
  a second reader with a fixed schema, read strictly or leniently, and the page made of the releases. Strict
  acceptance is shown to be the JSON reader followed by the schema, so the RFC 8259 result carries over; lenient
  reading of a JSON document is shown to be strict reading of what is left of it without the unknown fields. What an
  accepted document says, member by member, is written out a second time, apart from the reader (`ChangelogLaw`), and so
  are all limits (`ChangelogExact`).
- **The bug-report link** (`BugReport`): percent-encoding, the whole-line cut of the snapshot, the URL budget.
- **The connection** (`ConnectQueue`, `LaunchRetries`, `Launcher`, `Connection`, `ConnectionSafety`, `ConnectionLoads`,
  `ConnectionSecondLoads`, `ConnectionFields`, `ConnectionOrder`): the lock-free command queue at the granularity of its
  loads, compare-exchanges and exchanges; the retry policy; the decisions of a bridge load; and the window thread against
  the connection worker, step by step, with the simulator processes and everything Windows may answer as the environment.
- **The updater's downloads** (`Updater`, `UpdaterDownloads`): `stop()` against the redirect and read loop.
- **Machines that remember** (`Watchdog`, `WatchdogHistory`, `WatchdogNotes`, `AircraftSession`, `SessionPackets`,
  `AircraftIdentity`, `IdentityPolls`): each keeps a few fields, and each is proved to decide exactly as predicates over
  its whole history do.
- **Bounded retention** (`RecordNames`, `RecordOrder`, `CrashEvidence`): the passes over a directory of crash
  records that keep at most sixteen of them.

`Common` holds what several of these share.

Where the original changes state step by step, the model is a class or a method with the same loops, proved
against a function; what the program promises is then proved about that function, or about all runs.
Concurrent code is a state machine whose steps are the sections under a lock, the atomic operations and the
calls between them; a run is any sequence of steps whose guards hold.

For its main tables, limits and orders the project has statements that write them out a second time, in numbers and
words, apart from the model: a wrong entry in the model fails there.

## What the proofs found

- A draft of the settings copied before a Disconnect and published after it brings the temporary camera requests
  back, although not the connection (`StaleDraftRestoresRequests`). There are requests after any steps exactly when
  the last step that touched them published a draft with some, or none touched them and there were some at the start
  (`RequestsExactly`). The mailbox still says "off, no owner" (`SilentAfterDisconnect`).
- At most one LoadLibrary thread is created in one *attachment*. Over the life of one simulator *process* the same
  holds as long as the companion got a handle to it (`LoadsDistinct`). Without the handle a scan that misses the
  process once detaches from it, and while the first load is still pending, so that the module does not show yet, the
  next attachment loads a second time (`TwoLoadsWithoutHandle`). From any reachable state in which a running process
  has taken a load and does not show the module, a second one can follow exactly when no handle is held and the
  64-bit profile request can still be raised for the new attachment (`SecondLoadExactly`). Once the module shows, no
  call loads it again.
- The published aircraft type and path come from one poll if the polls use fresh request IDs
  (`PublishedFromOnePoll`); with a reused ID a late answer mixes two polls (`ReusedRequestsMix`). A sequence of
  request IDs is safe, whatever answers come, exactly when no poll reuses an ID of an earlier one
  (`NeverMixedExactly`).
- While the updater follows a request, its handle is open exactly until `stop()` closes it (`RequestOpenUntilStop`).
  So the worker's next call may name a closed handle (`StopClosesUnderneath`); what is never done is closing one
  twice (`HandlesClosedOnce`).
- A list of notes in the changelog may be empty, although the comment beside it asks for 1 to 32 notes
  (src/app/changelog.hpp:293): exactly when its brackets have only blanks between them (`NoNotesExactly`). The model
  follows the code. A release still needs a feature, a fix or a change.
- That a later field does not hide the notes from an installed version (docs/releases.md:127) holds exactly for fields
  whose key has at most 32 bytes and whose value is nested at most eight deep with such keys; any other field hides all
  notes (`LaterFieldsHideNothing`). To every accepted changelog a field can be added that hides them: one with a longer
  name (`LongNameHidesAll`) or with nine lists in one another (`DeepValueHidesAll`); `NotesCanBeHidden` has two such
  documents.
- On the What's new page a release other than the installed one is told by its version, date and lines only, and two
  lists give the same page exactly when they agree in that and in the installed release (`SameAcceptedPageExactly`). A
  feature reads like a change made of its title, a colon and its text, so neither is told from the other, nor where the
  title ends (`BriefHides`, src/app/changelog.hpp:463-468).

## Model

| member | source | states |
|---|---|---|
| BitWriters.BitWriter.Put | src/app/report_bundle.hpp:53-61 | the value's low bits are appended least significant first, whatever is still in the buffer |
| BitWriters.BitWriter.Code | src/app/report_bundle.hpp:62-67 | a Huffman code is appended most significant bit first |
| BitWriters.BitWriter.Symbol | src/app/report_bundle.hpp:68-77 | a literal/length symbol is appended as its fixed code |
| BitWriters.BitWriter.Finish | src/app/report_bundle.hpp:78-82 | the last byte is filled with zero bits and nothing else is added |
| BitWriters.ReversedIsHighFirst | src/app/report_bundle.hpp:62-67 | reversing a code and writing it from the low end is writing it from the high end |
| Deflate.SymbolRoundTrip | src/app/report_bundle.hpp:68-77 | the fixed code is prefix-free: the RFC 1951 section 3.2.6 reader recovers every symbol, whatever follows |
| Deflate.LengthTable | src/app/report_bundle.hpp:37-40 | the length tables are the ranges of RFC 1951 section 3.2.5, derived from the numbers of extra bits |
| Deflate.DistanceTable | src/app/report_bundle.hpp:41-45 | the same for the distance tables |
| Deflate.LengthFits | src/app/report_bundle.hpp:131-135 | the extra bits of every match length from 3 to 258 hold its offset |
| Deflate.DistanceFits | src/app/report_bundle.hpp:136-140 | the extra bits of every distance up to 32768 hold its offset |
| Deflate.TokenRoundTrip | src/app/report_bundle.hpp:130-150 | every literal, match and end of block is read back as itself, whatever follows |
| Lz77.LongestIsBest | src/app/report_bundle.hpp:106-129 | the chosen match is the longest over all candidates (same hash, at most 32768 back, newest 48, up to the first that reaches the limit), at the nearest distance reaching it |
| Lz77.LongestCopies | src/app/report_bundle.hpp:106-129 | a chosen match repeats the bytes at its distance, within the window and the limit |
| Lz77.CopyReproduces | src/app/report_bundle.hpp:106-143 | copying byte by byte reproduces the input, including matches that overlap their own output |
| Lz77.InflateInvertsDeflate | src/app/report_bundle.hpp:88-153 | an RFC 1951 reader finds one final fixed-Huffman block in the stream and gets exactly the input |
| Lz77.TokenCost | src/app/report_bundle.hpp:37-45 | no token costs more than nine bits for each byte it covers |
| Lz77.SizeBound | src/app/report_bundle.hpp:88-153 | n bytes give at most floor((9n + 17) / 8) bytes of stream |
| Greedy.ChoiceIsGreedy | src/app/report_bundle.hpp:106-150 | every token is the greedy one: the longest repetition of three to 258 bytes at any place up to 32768 back of the same hash with fewer than 48 such places between, the nearest of them; a single byte exactly where no such place repeats three |
| Greedy.TokensAreGreedy | src/app/report_bundle.hpp:105-150 | read back from the stream, the tokens cover the input from its beginning to its end, each the greedy one of its place |
| Greedy.RepeatedIsHashed | src/app/report_bundle.hpp:94 | three equal bytes have the same hash, so no repetition is missed for its hash |
| Greedy.HashOfAbc | src/app/report_bundle.hpp:94 | the hash of "abc" is 8070 |
| DeflateWriter.Insert | src/app/report_bundle.hpp:95-101 | inserting a position keeps the index: heads are newest positions, and every slot in the window still belongs to its position |
| DeflateWriter.SlotsDiffer | src/app/report_bundle.hpp:110-111 | two positions less than one window apart never share a ring slot |
| DeflateWriter.SearchJumps | src/app/report_bundle.hpp:112-128 | following the chain visits exactly the positions the plain search over all positions would |
| DeflateWriter.FindLongest | src/app/report_bundle.hpp:106-129 | the walk over the chains, with its one-byte pre-check, finds what the plain search finds |
| DeflateWriter.LengthSlot | src/app/report_bundle.hpp:131-133 | the table walk finds the length's code |
| DeflateWriter.DistanceSlot | src/app/report_bundle.hpp:136-138 | the table walk finds the distance's code |
| DeflateWriter.WriteToken | src/app/report_bundle.hpp:105-149 | one turn of the loop writes the next token, enters the bytes it covers and keeps the index |
| DeflateWriter.DeflateFixed | src/app/report_bundle.hpp:88-153 | the stream is read back as the input, its tokens are the greedy ones, and it keeps the size bound |
| Crc.Table | src/app/report_bundle.hpp:20-29 | each table entry is the bit-serial register after eight shifts of its index |
| Crc.WordStep | src/app/report_bundle.hpp:31-32 | one table step is the bit-serial CRC of the next bits |
| Crc.ZipCrc32 | src/app/report_bundle.hpp:19-34 | the table-driven CRC is the bit-serial CRC-32 of RFC 1952 section 8, for every byte string |
| Crc.PolynomialIs | src/app/report_bundle.hpp:24-25 | the register holds the polynomial of IEEE 802.3, by its exponents |
| Crc.CrcOfNothing | src/app/report_bundle.hpp:30-33 | the checksum of the empty text is 0 |
| Crc.ResidueIs | src/app/report_bundle.hpp:19-34 | a text followed by its own checksum, low byte first, has the same checksum whatever the text is |
| Crc.BurstDetected | src/app/report_bundle.hpp:19-34 | equally long texts that differ within 32 consecutive bits never share a checksum |
| Zip.LocalRoundTrip | src/app/report_bundle.hpp:184-197 | a local header is read back field by field: no 16- or 32-bit field was cut |
| Zip.CentralRoundTrip | src/app/report_bundle.hpp:200-208 | a directory record is read back field by field |
| Zip.EndRoundTrip | src/app/report_bundle.hpp:212-221 | the end record is read back field by field |
| Zip.LocalStands | src/app/report_bundle.hpp:184-197 | the fields in the order and widths they are written stand at the offsets of APPNOTE section 4.3.7 |
| Zip.CentralStands | src/app/report_bundle.hpp:200-208 | the same for section 4.3.12 |
| Zip.EndStands | src/app/report_bundle.hpp:212-221 | the same for section 4.3.16 |
| Zip.ReadInvertsArchive | src/app/report_bundle.hpp:164-223 | from the last 22 bytes through the directory to each local header, a reader that checks every signature, the agreement of both headers and each CRC recovers the entries in order, and with each the versions 20, the time at offset 12 and the date at offset 14 of its record, no disk and no attributes |
| Zip.Pack | src/app/report_bundle.hpp:179-182 | the body inflates to the data or is the data, and is never longer than it |
| Zip.Overflow | src/app/report_bundle.hpp:209-210 | the early return drops only entries that would need ZIP64 |
| Zip.Complete | src/app/report_bundle.hpp:164-223 | the archive's length is the sum of its parts; it fits 32 bits exactly when the entries are admitted |
| Zip.ZipArchive | src/app/report_bundle.hpp:164-223 | the archive is empty exactly when ZIP64 would be needed, and otherwise reads back as the entries, each with the versions, the time and the date it was written with |
| Utf8.DecodeInvertsEncode | src/app/json_value.hpp:82-98 | the assembled UTF-8 of every scalar value decodes to it after RFC 3629 section 4 |
| Utf8.EncodeInvertsDecode | src/app/json_value.hpp:106-107 | well-formed UTF-8 is the shortest encoding of a scalar value and nothing else |
| JsonSound.ParseSound | src/app/json_value.hpp:263-275 | an accepted document is, after one optional byte-order mark, white space, a text of the RFC 8259 grammar denoting the returned value, white space; that value has unique keys, nesting at most 32 and finite numbers |
| JsonComplete.ParseComplete | src/app/json_value.hpp:263-275 | every rendering of an admitted value, with any white space and any escapes, parses to exactly that value |
| JsonReader.ParseExact | src/app/json_value.hpp:263-275 | a document is accepted as a value if and only if it renders that value and the value is admitted |
| JsonReader.Parser.SkipBlanks | src/app/json_value.hpp:54-57 | the cursor moves past white space and no further |
| JsonReader.Parser.Hex4 | src/app/json_value.hpp:64-81 | exactly four hexadecimal digits are read |
| JsonReader.Parser.ReadEscape | src/app/json_value.hpp:114-154 | escapes are read with surrogate pairs joined and lone surrogates refused |
| JsonReader.Parser.ReadString | src/app/json_value.hpp:99-157 | a string is read as the specification reads it, refusing ill-formed UTF-8 |
| JsonReader.Parser.ReadNumber | src/app/json_value.hpp:164-188 | a number token is read as the specification reads it |
| JsonReader.Parser.ReadValue | src/app/json_value.hpp:189-258 | a value is read as the specification reads it; the cursor stays in the text and the depth comes back |
| JsonReader.ParseDocument | src/app/json_value.hpp:263-275 | a document is parsed as the specification does, and on refusal the output is unchanged |
| Versions.ParseVersion | src/app/changelog.hpp:53-74 | the method reads what the specification reads |
| Versions.VersionExact | src/app/changelog.hpp:53-77 | a text is read as a version exactly when it is that version's own spelling, with 16-bit components |
| Versions.ComponentExact | src/app/changelog.hpp:58-69 | a component is the canonical decimal of a number up to 65535 with no digit after it |
| Versions.LessExactly | src/app/changelog.hpp:21-22 | one version is less than another exactly if it is at the first component in which they differ |
| ChangelogModes.StrictImpliesLenient | src/app/changelog.hpp:269-389 | what the strict check accepts, an installed version reads leniently as the same releases |
| ChangelogModes.AcceptedIsListed | src/app/changelog.hpp:275-389 | in either mode an accepted list is not empty, strictly descending, within every count and length limit, with content in every release |
| ChangelogModes.FeatureIsValid | src/app/changelog.hpp:307-334 | an accepted feature has a title, a text and a valid picture path or none |
| ChangelogModes.NoNotesExactly | src/app/changelog.hpp:293-306 | a list of notes is accepted without any note exactly when its brackets have only blanks between them |
| ChangelogSkips.SkipJson | src/app/changelog.hpp:209-254 | a JSON value is passed over, to its own end, exactly when it is nested at most eight deep and its keys have at most 32 bytes |
| ChangelogJson.TextJson | src/app/changelog.hpp:138-207 | a bounded string is a JSON string of at most that many bytes |
| ChangelogJson.NotesJson | src/app/changelog.hpp:294-306 | a list of notes is a JSON array of non-blank strings |
| ChangelogJson.FeatureJson | src/app/changelog.hpp:307-334 | in either mode a feature is a JSON object with the schema's members, each at most once; leniently the others are ignored |
| ChangelogJson.ReleaseJson | src/app/changelog.hpp:336-374 | the same for a release |
| ChangelogJson.TopJson | src/app/changelog.hpp:375-388 | the same for the whole |
| ChangelogJson.StrictIsJson | src/app/changelog.hpp:275-389 | strict acceptance is, for every text, the JSON reader on at most 64 KiB followed by the schema, with the same releases |
| ChangelogJson.StrictSchemaIsReleases | src/app/changelog.hpp:375-388 | strictly, the document has the one member "releases" |
| ChangelogJson.LenientIsJson | src/app/changelog.hpp:275-389 | lenient reading of a JSON document is the same schema, in which unknown members are ignored |
| ChangelogKnown.LaterFieldsHideNothing | src/app/changelog.hpp:266-288 | an installed version makes of a JSON document what the strict schema makes of it without its unknown fields, at every level, and refuses it where one of these cannot be passed over |
| ChangelogLaw.AcceptedTells | src/app/changelog.hpp:275-389 | every accepted JSON document, in either mode, tells its releases item by item and member by member: a version spelled under "version", a date under "date" or none, features, fixes and changes under their keys or none, and of a feature its title, text and picture |
| ChangelogExact.StrictExactly | src/app/changelog.hpp:275-389 | a text is strictly accepted as these releases if and only if it is a JSON document of at most 65536 bytes that tells exactly them and has no other member, and they are an allowed list |
| ChangelogExact.ListIs | src/app/changelog.hpp:275-389 | an allowed list, with every limit in numbers, is what the reader lets through |
| ChangelogExact.DateIs | src/app/changelog.hpp:256-264 | a date is four, two and two digits between hyphens, of a month from 1 to 12 and a day from 1 to 31 |
| ChangelogExact.ImageIs | src/app/changelog.hpp:36-51 | a picture's path lies below docs/whats-new/, has at most 120 bytes of a few kinds, neither two points nor two slashes together, and one of three endings |
| ChangelogHidden.FieldHidesAll | src/app/changelog.hpp:209-254 | to every accepted changelog with room for it, any field that cannot be passed over can be added, and then an installed version reads nothing of it |
| ChangelogHidden.LongNameHidesAll | src/app/changelog.hpp:210-213 | so for a name of more than 32 bytes, with the value null |
| ChangelogHidden.DeepValueHidesAll | src/app/changelog.hpp:235-237 | so for nine lists in one another |
| ChangelogHidden.NotesCanBeHidden | src/app/changelog.hpp:266-288 | two documents an installed version reads nothing of, although what it knows of them is a changelog it accepts |
| ChangelogReader.Reader.ReadText | src/app/changelog.hpp:138-207 | a string is read within its limit as the specification reads it |
| ChangelogReader.Reader.SkipValue | src/app/changelog.hpp:235-254 | the loops over an unknown value end where `Skip` does, of which SkipJson says which values it passes over |
| ChangelogReader.Reader.SkipFields | src/app/changelog.hpp:209-220 | the members of an unknown object are passed over as `SkipMembers` does |
| ChangelogReader.Reader.SkipList | src/app/changelog.hpp:222-232 | the items of an unknown array are passed over as `SkipItems` does |
| ChangelogReader.Reader.ReadNotes | src/app/changelog.hpp:294-306 | notes are read as the specification reads them |
| ChangelogReader.Reader.ReadFeature | src/app/changelog.hpp:307-334 | a feature is read as the specification reads it |
| ChangelogReader.Reader.ReadRelease | src/app/changelog.hpp:336-374 | a release is read as the specification reads it |
| ChangelogReader.Reader.ReadReleasesFrom | src/app/changelog.hpp:336-374 | the releases are read in order, each older than the one before |
| ChangelogReader.Parse | src/app/changelog.hpp:275-389 | a document is parsed as the specification does, and on refusal the caller's list is unchanged |
| WhatsNew.ReleasesUpTo | src/app/changelog.hpp:393-399 | the releases of the installed version or older, in order |
| WhatsNew.ReleasesAfter | src/app/changelog.hpp:400-406 | the newer releases, in order |
| WhatsNew.PartsAreTheList | src/app/changelog.hpp:393-406 | of a descending list the newer releases followed by the others are the whole list |
| WhatsNew.WhatsNewBlocks | src/app/changelog.hpp:447-500 | the blocks field by field: the installed release in full, then the coming ones, then the earlier ones, each of them by a title and one line for every feature, fix and change |
| WhatsNew.EachReleaseTitledOnce | src/app/changelog.hpp:447-500 | every release of a descending list has its title on the page exactly once, whatever is installed, and no two releases have the same title |
| WhatsNew.TitlesDiffer | src/app/changelog.hpp:75-77 | a title tells the version, whatever its size |
| WhatsNew.DatesDiffer | src/app/changelog.hpp:418-425 | the date as it is written out tells the date, of all dates the changelog accepts |
| WhatsNewContents.DateInWords | src/app/changelog.hpp:418-425 | a date is told as its day, the English name of its month and its year |
| WhatsNewWords.SectionsSay | src/app/changelog.hpp:447-500 | the dividers of the page in words: those of the installed release where it has what they head, "Changes" where it has nothing else and "Other changes" beside anything else, then "Coming in the next update" and "Earlier versions" where there are any |
| WhatsNewWords.CompactSays | src/app/changelog.hpp:461-469 | in brief a release is its title and a line for every feature (title, colon, text), then every fix ("Fixed: "), then every change |
| WhatsNewWords.NoNotesSays | src/app/changelog.hpp:471-472 | the note in place of notes names the installed version |
| WhatsNewWords.TitleSays | src/app/changelog.hpp:456-460 | a title is "Taxi Cam " and the three numbers of the version |
| WhatsNewContents.PageTells | src/app/changelog.hpp:447-500 | read from top to bottom, the page gives the installed release field by field, and of every other release its section, title, date and lines in order, the fixes named as such |
| WhatsNewContents.SamePageExactly | src/app/changelog.hpp:447-500 | two lists of any releases give the same page if and only if the same is told of the installed release in full and of the newer and the older ones in brief |
| WhatsNewContents.SameAcceptedPageExactly | src/app/changelog.hpp:447-500 | two lists with dates as the changelog accepts them give the same page if and only if they have the same installed release, and the newer and the older ones have the same versions, dates and lines |
| WhatsNewContents.BriefHides | src/app/changelog.hpp:461-468 | a release that is not the installed one gives the same page with a feature, with a change that reads the same, and with the title of the feature ending elsewhere |
| WhatsNewContents.BriefHidesAccepted | src/app/changelog.hpp:461-468 | where the feature can be accepted, so can the change, unless it is too long |
| WhatsNewContents.PageOrderIsAll | src/app/changelog.hpp:447-500 | the page leaves out no release of a descending list and repeats none |
| BugReport.QueryValue | src/app/bug_report.hpp:30-43 | the loop computes the encoding |
| BugReport.DecodeInvertsEncode | src/app/bug_report.hpp:30-43 | RFC 3986 section 2.1 decoding gives back every byte string |
| BugReport.EncodeDistributes | src/app/bug_report.hpp:30-43 | encoding distributes over concatenation |
| BugReport.EncodedSealed | src/app/bug_report.hpp:30-43 | an encoded value holds only unreserved characters of RFC 3986 section 2.3 and percent signs |
| BugReport.EncodedByteIs | src/app/bug_report.hpp:30-43 | an unreserved character stands for itself, any other byte for a percent sign and its two hexadecimal digits |
| BugReport.ReportText | src/app/system_details.hpp:28-43 | a field's text is the cleaned text, cut to the limit and trimmed at the end |
| BugReport.FieldTextIsPlain | src/app/system_details.hpp:25-43 | it is bounded, printable, and does not end in a blank |
| BugReport.CleanedByte | src/app/system_details.hpp:28-43 | what is shown of each byte: printable ASCII as it is, line feeds as lines or as blanks, tabs as blanks, no carriage return and no NUL, anything else as a question mark |
| BugReport.FieldTextExactly | src/app/system_details.hpp:28-43 | of any text the first clean bytes up to the limit are shown, less the blanks and line feeds at their end and no more |
| BugReport.FieldTextKeeps | src/app/system_details.hpp:28-43 | a text that may be shown is shown unchanged |
| BugReport.Fit | src/app/bug_report.hpp:167-186 | the loop over the lines computes what is shown of the snapshot |
| BugReport.KeptIsLongest | src/app/bug_report.hpp:174-185 | the kept part is the longest prefix of whole lines whose encoding fits |
| BugReport.ShownIsLongest | src/app/bug_report.hpp:165-186 | a snapshot that fits is shown whole; else its longest whole-line prefix that fits before the notice, wherever the notice fits; what is shown always fits |
| BugReport.BudgetIsEnough | src/app/bug_report.hpp:203-208 | whatever the form says, at least 1500 characters are left for the snapshot: the subtraction never wraps |
| BugReport.Url | src/app/bug_report.hpp:188-211 | the link is the page of the issue form with the filled fields and, last, the snapshot whole or as its longest prefix before the notice, which always fits; at most 7500 characters |
| BugReport.LinkReadsBack | src/app/bug_report.hpp:188-211 | split at its separators and decoded, the query gives back the template, the first 64 bytes of the version, each filled field within its own limit, and the snapshot as shown, in this order |
| ConnectQueue.Linearizable | src/app/connection_recoverability.hpp:54-74 | in every interleaving, with spurious failures, each request takes effect once between its start and its return, and the order of effects is a legal sequential history ending in the pending command |
| ConnectQueue.TakeReturnsFold | src/app/connection_recoverability.hpp:67-69 | a take returns exactly the fold of the requests since the take before it |
| ConnectQueue.FoldIs | src/app/connection_recoverability.hpp:56-66 | that fold is the last command, except that Connects after a Reset leave it a Reset |
| ConnectQueue.ResetSurvives | src/app/connection_recoverability.hpp:59-66 | a Reset is never lost to a Connect |
| ConnectQueue.FinishesAlone | src/app/connection_recoverability.hpp:54-69 | a take is always possible, and from any state a thread that runs alone finishes its request in two steps |
| LaunchRetries.LaunchRetry.Schedule | src/app/launcher.hpp:407-413 | a retry is granted within the wave, with its delay |
| LaunchRetries.LaunchRetry.ScheduleRecovery | src/app/launcher.hpp:416-423 | a new wave is granted up to twenty times |
| LaunchRetries.GrantsInNumbers | src/app/launcher.hpp:399-435 | 59 retries a second apart in each wave, twenty further waves fifteen seconds apart, and nothing due before |
| LaunchRetries.GrantsUseUp | src/app/launcher.hpp:399-435 | every grant uses up the measure (20 - recoveries, 59 - retries) |
| LaunchRetries.AtMost1259 | src/app/launcher.hpp:399-435 | between resets at most 1,259 retries are granted |
| LaunchRetries.Reaches1259 | src/app/launcher.hpp:399-435 | the bound is reached |
| Launcher.LoadBridge | src/app/launcher.hpp:468-592 | a LoadLibrary thread is created exactly for a missing bridge in a suitable process where a fresh load is allowed; the start thread exactly when the bridge is present after that; success and the offer to retry are told exactly |
| Launcher.RetryLeavesNothing | src/app/launcher.hpp:494-515 | who is told to retry has left no thread in the simulator |
| Launcher.LoadsAreFresh | src/app/launcher.hpp:494-592 | no LoadLibrary thread where none is allowed or where the module shows, and success only where it does in the end |
| ConnectionSafety.StepKeepsSafe | src/app/companion.cpp:7140-7410 | every step of either thread keeps: enabled exactly while requested, never while disconnected; the worker knows of its load; no beat shown while a stale one is ignored; retries within bounds |
| ConnectionSafety.RunKeepsSafe | src/app/companion.cpp:7140-7410 | so does every run |
| ConnectionSafety.SilentAfterDisconnect | src/app/companion.cpp:305-335 | from a Disconnect to the next Connect every mailbox write says off and no owner, whatever drafts are published and wherever the worker was |
| ConnectionSafety.MailAgrees | src/app/companion.cpp:344-357 | a mailbox never says enabled without an owner's beat, or the other way round |
| ConnectionSafety.MailIsCurrent | src/app/companion.cpp:344-357 | every write says the settings as they are after it, with an owner's beat exactly while the connection is requested |
| ConnectionSafety.PublishKeepsConnection | src/app/companion.cpp:258-274 | publishing takes the draft but keeps the connection state and never withdraws a newer request |
| ConnectionSafety.NothingLost | src/app/companion.cpp:258-274 | over every run no profile request is lowered and no snapshot request replaced but by a newer one |
| ConnectionSafety.RequestsExactly | src/app/companion.cpp:258-274 | after any steps there are temporary camera requests exactly when the last step that touched them published a draft with some, or none touched them and there were some before |
| ConnectionSafety.StaleDraftRestoresRequests | src/app/companion.cpp:258-274 | a draft copied before a Disconnect does bring them back, though not the connection |
| ConnectionOrder.StartsFresh | src/app/companion.cpp:7140-7180 | a run begins with the connection off, nothing attached, nothing attempted and every retry left |
| ConnectionOrder.WorkerOrder | src/app/companion.cpp:7140-7410 | over any run and whatever comes in between, which step the worker takes after which, under which conditions in numbers |
| ConnectionOrder.ScanExactly | src/app/companion.cpp:7190-7255 | with a handle the attached process is kept exactly as long as it runs; without one it may be kept or missed; only a running process is attached to with a handle |
| ConnectionOrder.NeverStuck | src/app/companion.cpp:7140-7303 | at every place up to the load of a round the worker can go on, whatever it is answered, and write where its mailbox is open |
| ConnectionOrder.NeverStuckLater | src/app/companion.cpp:7334-7410 | and from the check of the beat to the end of the round |
| ConnectionOrder.WindowNeverStuck | src/app/companion.cpp:258-342 | between two commands the window may press, publish and ask for a snapshot; a command pressed can be queued |
| ConnectionOrder.StaleIsRecovered | src/app/companion.cpp:7334-7352 | a worker that looks at a healthy bridge whose beat is more than 15000 ms old recovers it in its next step, unless a Disconnect comes first: no beat, no attempt, armed, and that beat to be ignored |
| ConnectionOrder.RecoveredIsStale | src/app/companion.cpp:7334-7352 | every such recovery follows a look at a beat more than 15000 ms old |
| ConnectionFields.DisconnectedTells | src/app/companion.cpp:276-342 | over any run the connection is off exactly if a Disconnect came after the last Connect that counted |
| ConnectionFields.RequestedTells | src/app/companion.cpp:276-342 | whether it is requested is what the last Connect, Disconnect, authorization or detachment made it |
| ConnectionFields.AttemptedTells | src/app/companion.cpp:7190-7352 | an attempt is in hand from an authorization until something starts over or a retry is granted |
| ConnectionFields.ManualArmedTells | src/app/companion.cpp:7190-7352 | the worker is armed by a Connect or a stale beat until the attempt is over |
| ConnectionFields.BridgeOkTells | src/app/companion.cpp:7190-7400 | the bridge is well from a load that succeeds, or a newer beat, until something starts over |
| ConnectionFields.IgnoreThroughTells | src/app/companion.cpp:7334-7400 | the beat that went stale is ignored until a newer one |
| ConnectionFields.HeartbeatTells | src/app/companion.cpp:7352-7400 | the beat shown is the last one read, unless it is to be ignored or something ended since |
| ConnectionFields.RetryPolicyTells | src/app/companion.cpp:7275-7303 | the retries and waves so far, and when the next is due, from the last grant or start over |
| ConnectionFields.ProfileRequestTells | src/app/companion.cpp:258-342 | the profile request is one more with every connection begun, and a draft only raises it |
| ConnectionFields.StatusSerialTells | src/app/companion.cpp:7352-7400 | the snapshot last told is that of the last status read, or none since a Disconnect or a detachment |
| ConnectionFields.LoadStartedTells | src/app/companion.cpp:7291-7297 | a load counts as started from a LoadLibrary thread to the next attachment or detachment |
| ConnectionFields.MailboxOpenTells | src/app/companion.cpp:7262-7290 | the mailbox is open from its last opening until a Connect, a Disconnect or a detachment closes it |
| ConnectionFields.AttachedTells | src/app/companion.cpp:7190-7255 | the process in hand, and whether with a handle, is that of the last attachment |
| ConnectionFields.CommandTakenTells | src/app/companion.cpp:7140-7190 | the command of a round is what was pending when it was taken |
| ConnectionFields.SnapshotTells | src/app/companion.cpp:258-274 | the snapshot asked for is that of the last request or of a draft with a newer one |
| ConnectionFields.RestTells | src/app/companion.cpp:258-274 | all other settings are those of the last draft published |
| ConnectionFields.WindowTells | src/app/companion.cpp:305-335 | the command on its way to the queue is the last one pressed until it is queued |
| ConnectionLoads.RetriesBounded | src/app/companion.cpp:7275-7302 | the worker's grants between resets stay within 1,259 |
| ConnectionLoads.RetryMeansNotLoaded | src/app/companion.cpp:7294-7303 | a retry is granted only after a call that created no thread |
| ConnectionLoads.LoadsAreFirst | src/app/companion.cpp:7291-7297 | a LoadLibrary thread is created only in the attached process, while it runs without the module, by a worker that knows of no load |
| ConnectionLoads.OneLoadPerAttachment | src/app/companion.cpp:7291-7297 | between two LoadLibrary threads the worker attached anew, over all Connects, retries, recovery waves and stale-heartbeat recoveries |
| ConnectionLoads.LoadsDistinct | src/app/companion.cpp:7190-7255 | with a handle to every attached process, no simulator process ever gets a second LoadLibrary thread |
| ConnectionSecondLoads.SecondLoadExactly | src/app/companion.cpp:7190-7303 | from any reachable state attached to a running process that took a load and does not show the module, a continuation loads it again if and only if no handle is held and a profile request is left |
| ConnectionSecondLoads.TwoLoadsWithoutHandle | src/app/companion.cpp:7190-7255 | without a handle one can: from a fresh start, with the first load still pending, a run leads to two loads into one process |
| Updater.HandlesClosedOnce | src/app/updater.cpp:311-425 | in every interleaving no handle is closed twice, at most one request is tracked and it is open, and between downloads every handle was closed exactly once |
| Updater.NothingOpenAfterStop | src/app/updater.cpp:311-322 | once stop() has returned, no handle is open and the worker is over |
| Updater.DownloadsStayModest | src/app/updater.cpp:341-425 | every request goes to a trusted host over HTTPS, whatever was redirected where; at most six requests; never more bytes than the limit; a success stored every byte it counted |
| UpdaterDownloads.TrustedExactly | src/app/updater.cpp:70-98 | what is trusted, in words: HTTPS to port 443 of one of four hosts, 1 to 16384 characters, no user name, no fragment, no white space, a path |
| UpdaterDownloads.TargetIs | src/app/updater.cpp:388-390 | a redirect points where it says, or to a path on the same host, or nowhere |
| UpdaterDownloads.WorkerOrder | src/app/updater.cpp:341-425 | over any run which call the worker makes after which, under which answers |
| UpdaterDownloads.NeverStuck | src/app/updater.cpp:311-425 | at every place the worker can go on, whatever it is answered, and the owner waits for nothing but the worker's end |
| UpdaterDownloads.AddressTells | src/app/updater.cpp:341-425 | the URL in hand is the one asked for, or the target of the last redirect gone on to |
| UpdaterDownloads.AgainTells | src/app/updater.cpp:376-391 | a redirect is gone on to for the statuses 301, 302, 303, 307 and 308 with a location, five times at most |
| UpdaterDownloads.TotalTells | src/app/updater.cpp:402-420 | the bytes taken are those of the reads that the limit left room for |
| UpdaterDownloads.StoredTells | src/app/updater.cpp:410-418 | the bytes stored are those of the reads taken and written |
| UpdaterDownloads.LimitTells | src/app/updater.cpp:341-425 | the limit is the download's |
| UpdaterDownloads.RedirectsTells | src/app/updater.cpp:349-422 | how many redirects were gone on to since the download began |
| UpdaterDownloads.TargetTells | src/app/updater.cpp:376-391 | the target in hand is that of the last redirect received |
| UpdaterDownloads.TrackedTells | src/app/updater.cpp:311-340 | the request tracked is the last one entered, until it is given up or stop() closes it |
| UpdaterDownloads.CancelledTells | src/app/updater.cpp:311-322 | the flag is set exactly from stop() to the next check |
| UpdaterDownloads.RequestedTells | src/app/updater.cpp:353-360 | every request opened is for the URL in hand |
| UpdaterDownloads.OutcomeTells | src/app/updater.cpp:341-425 | whether all went well so far is what the last step that could fail made it |
| UpdaterDownloads.SuccessExactly | src/app/updater.cpp:402-425 | a download succeeds exactly when the step before the worker gives up its request saw the end of the body, with neither stop() nor the deadline before it, after some bytes, and stop() had not closed the request |
| Updater.StopIsPrompt | src/app/updater.cpp:311-322 | after the flag is set the worker takes at most seven more steps, so the join ends |
| Updater.RequestOpenUntilStop | src/app/updater.cpp:315-318 | the handle the worker follows is open exactly until stop() closes it |
| Updater.StopClosesUnderneath | src/app/updater.cpp:311-385 | for every trusted URL there is a run in which stop() closes the request the worker is about to send |
| Watchdog.FreezeWatchdog.Observe | src/bridge/freeze_watchdog.hpp:63-144 | a sample changes the fields and decides as the specification does |
| Watchdog.FreezeWatchdog.Release | src/bridge/freeze_watchdog.hpp:151-160 | a release ends a hold and re-arms |
| Watchdog.FreezeWatchdog.RecentTrips | src/bridge/freeze_watchdog.hpp:163-168 | the slots within the window are counted |
| Watchdog.MinusIs | src/bridge/freeze_watchdog.hpp:105 | the one unguarded subtraction of times is that of 64 bits |
| WatchdogHistory.TripsExactly | src/bridge/freeze_watchdog.hpp:119-131 | a sample trips exactly when its history shows three seconds without presentation and without simulator frames, or with telemetry that never flowed |
| WatchdogHistory.RecoversExactly | src/bridge/freeze_watchdog.hpp:97-116 | a recovery or a hold comes exactly when an unbroken series of progressing samples spans five seconds |
| WatchdogHistory.HoldsExactly | src/bridge/freeze_watchdog.hpp:107-112 | of the two it is a hold exactly when cameras are wanted and three wanted trips, of all there ever were, fall in the last 300000 ms |
| WatchdogHistory.RingAgrees | src/bridge/freeze_watchdog.hpp:121-122 | the three slots hold the latest three wanted trips of the whole log |
| WatchdogHistory.RingCounts | src/bridge/freeze_watchdog.hpp:163-168 | three slots count to three exactly when the whole log does |
| WatchdogHistory.TripsAndRecoveriesAlternate | src/bridge/freeze_watchdog.hpp:63-160 | trips and recoveries alternate, a trip first, the counter of trips counts them, and held implies tripped |
| WatchdogHistory.HoldEndsByRelease | src/bridge/freeze_watchdog.hpp:146-160 | a hold begins with a decision to hold and ends only by a release |
| WatchdogHistory.FieldsTellHistory | src/bridge/freeze_watchdog.hpp:63-90 | the few fields agree with the whole history |
| WatchdogNotes.NotedOnce | src/bridge/freeze_watchdog.hpp:132-143 | a stall of presentation alone, or of expected telemetry alone, is noted at the first sample that shows three seconds of it, and not again while it lasts |
| WatchdogNotes.StalledSinceProgress | src/bridge/freeze_watchdog.hpp:86-143 | the time reported with a stall is the time since the counter it names last moved |
| WatchdogNotes.ReasonTells | src/bridge/freeze_watchdog.hpp:97-160 | every decision names its reason, only stalls tell a time, and an unarmed sample decides nothing |
| Watchdog.StallHoldRelease.Observe | src/bridge/freeze_watchdog.hpp:202-219 | one release request per hold, at its first known OFF |
| Watchdog.LookMore | src/bridge/freeze_watchdog.hpp:202-219 | that flag is enough to know whether a known OFF was seen in this hold |
| AircraftSession.AircraftSessionLifecycle.Accept | src/camera/aircraft_identity.hpp:41-92 | a packet changes the fields as what it says by its exact shape |
| SessionPackets.ToldExactly | src/camera/aircraft_identity.hpp:41-92 | byte by byte which packets tell a flow event, a pause, the simulator's state or a new aircraft; all others tell nothing |
| AircraftSession.FieldsTellHistory | src/camera/aircraft_identity.hpp:41-110 | the pending bits, the running state and the epoch agree with the whole history of notices |
| AircraftSession.OneSessionPerLoading | src/camera/aircraft_identity.hpp:54-74 | a loading counts exactly one session, at its start, whatever comes inside it |
| AircraftSession.SessionsReported | src/camera/aircraft_identity.hpp:41-92 | every session is reported, and besides it only a change of what is loading |
| AircraftSession.EpochNeverDecreases | src/camera/aircraft_identity.hpp:93-97 | the epoch never decreases |
| AircraftSession.EndClosesOnFlightStart | src/camera/aircraft_identity.hpp:61-71 | an end or a menu is left only by the start of a flight |
| AircraftSession.PauseTellsHistory | src/camera/aircraft_identity.hpp:53-79 | the pause and the last flow event are those of the whole history: a pause ends when it is told so or when a flight starts |
| AircraftIdentity.AircraftIdentityCache.BeginRequest | src/camera/aircraft_identity.hpp:117-122 | a new poll forgets unfinished answers |
| AircraftIdentity.AircraftIdentityCache.Accept | src/camera/aircraft_identity.hpp:123-149 | only an answer with the current request ID and the exact shape is taken |
| IdentityPolls.TypesExactly | src/camera/aircraft_identity.hpp:123-149 | byte by byte which packet answers a request for the type |
| IdentityPolls.PathsExactly | src/camera/aircraft_identity.hpp:123-149 | byte by byte which packet answers a request for the path |
| IdentityPolls.PublishesExactly | src/camera/aircraft_identity.hpp:115-149 | over any history what waits is the latest answer of its kind to the request in force, and a pair is published, with the times of both, exactly when an answer finds one of the other kind waiting |
| AircraftIdentity.AircraftIdentityCache.Sample | src/camera/aircraft_identity.hpp:150-157 | a sample is as old as its older answer and fresh for three seconds, and its profile is what the detection makes of both texts up to their first NUL |
| AircraftIdentity.PublishedFromOnePoll | src/camera/aircraft_identity.hpp:115-149 | with fresh request IDs a published type and path come from the same poll, however late or doubled the answers are |
| AircraftIdentity.ReusedRequestsMix | src/camera/aircraft_identity.hpp:115-149 | a poll that reuses the type ID of one poll and the path ID of another has an honest history that publishes a type and a path of different polls |
| AircraftIdentity.NeverMixedExactly | src/camera/aircraft_identity.hpp:115-149 | for every sequence of 32-bit request IDs: whatever honest answers come, nothing mixed is published, if and only if no poll reuses an ID of an earlier one |
| AircraftIdentity.AutoProfileSelection.Observe | src/camera/aircraft_identity.hpp:175-196 | a profile is chosen exactly when an earlier sample agrees with this one and nothing between disagreed or was missing |
| AircraftIdentity.ObserveMore | src/camera/aircraft_identity.hpp:175-196 | the candidate and its first time are enough to know that |
| RecordNames.RecordFilename | src/bridge/crash_evidence.hpp:67-87 | a name is a record's exactly when it is what the writer prints for a process from 1 to 2^32 - 1 and a tick count below 2^64 |
| RecordNames.Number | src/bridge/crash_evidence.hpp:72-84 | a number is accepted exactly in its canonical spelling, without overflow |
| RecordNames.NamesDiffer | src/bridge/crash_evidence.hpp:243-244 | different processes or times never share a name |
| RecordOrder.OlderIsStrict | src/bridge/crash_evidence.hpp:95-100 | the order is strict, and total on entries of different names |
| RecordOrder.OlderGoesFirst | src/bridge/crash_evidence.hpp:95-100 | the order is by state, then by creation, then by name: a proper prefix first, or the smaller character at the first difference |
| RecordOrder.TakeInsert | src/bridge/crash_evidence.hpp:176-185 | keeping only the least sixteen loses nothing for later insertions |
| RecordOrder.StrictUnique | src/bridge/crash_evidence.hpp:95-100 | a set of records has one sorted order |
| CrashEvidence.InsertCandidate | src/bridge/crash_evidence.hpp:176-185 | the shift in place keeps the least sixteen, sorted |
| CrashEvidence.Scan | src/bridge/crash_evidence.hpp:142-194 | a pass counts the records and selects exactly the least sixteen valid ones after the cursor |
| CrashEvidence.WaitingIsRest | src/bridge/crash_evidence.hpp:174-175 | whatever was deleted or refused so far, what waits after the cursor is the untouched rest of the order |
| CrashEvidence.DeleteOldest | src/bridge/crash_evidence.hpp:195-211 | the files whose deletion is asked for are the first of the candidates, in their order; one more only while there are too many records; those that do not refuse are gone |
| CrashEvidence.MakeRoom | src/bridge/crash_evidence.hpp:130-218 | the files whose deletion is asked for rise by state, then creation, then name, every valid record not asked for comes after them, and each was asked for while there were sixteen or more; exactly up to the first that is not needed, not there, past thirty-two passes of sixteen, or too late; true exactly when that leaves fewer than sixteen records and, where nothing had to be asked for, there was time to find that out; with time for all passes exactly when deleting what can be deleted of the first 512 records does |
| CrashEvidence.OlderTriedFirst | src/bridge/crash_evidence.hpp:130-218 | a record goes only once every valid record before it was asked for, and went or refused |
| CrashEvidence.AttemptsDiffer | src/bridge/crash_evidence.hpp:130-218 | no file is asked for twice |
| CrashEvidence.TimeIsEnough | src/bridge/crash_evidence.hpp:130-218 | with time for every pass, room is made exactly when there is enough to delete |
| CrashEvidence.EnoughAfter | src/bridge/crash_evidence.hpp:130-218 | there is enough to delete exactly when the records of all passes, asked for in order, leave room |

## Left out

- Windows itself: files, handles, processes, COM, WinHTTP, the registry and the clock are outcomes and times that come
  with each step or as parameters.
- Drawing, dialogs, the tray and the setup wizard of src/app/companion.cpp, and the text the worker shows: wording without logic.
- Memory order: the command queue and the connection use sequentially consistent steps. A relaxed load that reads an
  old value is covered as far as the compare-exchange then fails.
- The end of the program: the last mailbox write of the worker and `stop_service` (src/app/companion.cpp:7413-7425).
- The simulator exit timer `ExitWithSimulator`, the display of launch diagnostics, and notifications and cockpit
  bindings read from the mailbox.
- `reset_aircraft_session` other than dropping the temporary requests: it leaves the request counters alone.
- The mailbox lock: a write that cannot take it is a write that does not happen.
- `strtod` and `std::isfinite`: a number keeps its exact token, and which tokens are finite is a parameter.
- `MultiByteToWideChar` with MB_ERR_INVALID_CHARS: taken to accept exactly the UTF-8 of RFC 3629 section 4.
- `Value::find` and `Value::integer` of src/app/json_value.hpp: lookups that only add easy members.
- ChangelogJson.LenientIsJson: is about JSON documents. Of the other texts the lenient reader accepts, with repeated
  known keys or with runs of letters, digits, signs and points as unknown values, only what holds of every accepted
  list is stated (`AcceptedIsListed`).
- ConnectionOrder.WorkerOrder: a round polls any number of times between its exchange and its end, where the source polls
  four times; how long a round lasts is not part of the model.
- JSON key comparison visits the members in order; the model asks whether one has the key.
- Error messages of both text readers and of the bridge load.
- DOS time and date packing, redaction and file tails of src/app/report_bundle.hpp.
- `bug_report_snapshot`, the aircraft line and the wall-clock line: formatting. The snapshot is any text.
- Wide text: all texts of the What's new page stay UTF-8.
- `whats_new_pending` and `record_whats_new_seen`: one key of an ini file.
- UpdaterDownloads.TrustedExactly: takes WinHttpCrackUrl's parts of a URL as given.
- Release checks, checksums and the launch of the installer in src/app/updater.cpp.
- The fields of a crash record and their capture; inspecting one is a flag of the directory entry.
- CrashEvidence.MakeRoom: nobody else changes the directory during an attempt, so a file found again is the file seen.
- CrashEvidence.Directory.Interrupted: the clock and the calls that end an attempt are one number, how often the attempt may
  go on.
- CrashEvidence.Directory.Delete: one call stands for opening, checking again and marking a file for deletion. Which files
  refuse is one arbitrary set: no file is asked for twice, so none can answer differently.
- The watchdog's `worker_alive`: it is passed from the sample to the decision unread.
- Watchdog counters are unbounded: neither 2^32 trips nor 2^64 ms are reached. The one unguarded 64-bit subtraction wraps as in the source.
- WatchdogHistory.TripsExactly: assumes a positive clock that never goes back, as do the other exact statements of that module.
- AircraftIdentity.AircraftIdentityCache.Sample: how a profile is detected is a parameter.
- `next_panel_discovery` and `stall_hold_known_off`: single expressions.
- The camera geometry, the Direct3D hooks and the simulator's memory: floating point and a graphics interface.
