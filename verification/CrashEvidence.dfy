/** Making room for a crash record: at most sixteen record files are kept, the least worth keeping deleted first. */
module CrashEvidence {
  import opened RecordNames
  import opened RecordOrder

  const RETAINED: nat := 16
  const MAX_INSPECTED: nat := 4096
  const PASSES: nat := 32

  ghost predicate Named(e: Entry) {
    e.plain && IsRecordName(e.name)
  }

  ghost predicate Valid(e: Entry) {
    Named(e) && e.readable
  }

  // The files that count against the limit.
  ghost function Records(files: seq<Entry>): (r: seq<Entry>)
    ensures |r| <= |files|
  {
    if files == [] then []
    else Records(files[..|files| - 1]) + if Named(files[|files| - 1]) then [files[|files| - 1]] else []
  }

  // The valid records after the cursor, where there is one.
  ghost predicate Awaits(e: Entry, after: bool, cursor: Entry) {
    Valid(e) && (after ==> Older(cursor, e))
  }

  ghost function Waiting(files: seq<Entry>, after: bool, cursor: Entry): seq<Entry> {
    if files == [] then []
    else
      var e := files[|files| - 1];
      Waiting(files[..|files| - 1], after, cursor) + if Awaits(e, after, cursor) then [e] else []
  }

  const NO_ENTRY := Entry("", false, false, 0, 0)

  // All valid records, least worth keeping first.
  ghost function InOrder(files: seq<Entry>): seq<Entry> {
    Sorted(Waiting(files, false, NO_ENTRY))
  }

  function Without(files: seq<Entry>, gone: set<Entry>): seq<Entry> {
    if files == [] then []
    else Without(files[..|files| - 1], gone) + if files[|files| - 1] in gone then [] else [files[|files| - 1]]
  }

  // ----- The directory -----

  // Nobody else adds or changes records meanwhile. No file is asked for twice, so one set says which
  // deletions would be refused; and the first time the attempt is to end at once is its last, so one
  // number says how often it may ask before.
  class Directory {
    var files: seq<Entry>
    const stuck: set<Entry>
    const lateFrom: nat
    var asked: nat

    // the attempt so far
    ghost var atStart: seq<Entry>
    ghost var attempts: seq<Entry>   // every file whose deletion was asked for, in order

    ghost predicate Valid()
      reads this
    {
      DifferentNames(atStart) && OldestTried(atStart, files, attempts, stuck)
    }

    method Delete(e: Entry) returns (done: bool)
      modifies this`files, this`attempts
      ensures done <==> e !in stuck
      ensures files == if done then Without(old(files), {e}) else old(files)
      ensures attempts == old(attempts) + [e]
    {
      attempts := attempts + [e];
      done := e !in stuck;
      if done {
        files := Without(files, {e});
      }
    }

    // Whether the 250 ms are over, or a call failed that ends the whole attempt.
    method Interrupted() returns (yes: bool)
      modifies this`asked
      ensures asked == old(asked) + 1 && (yes <==> asked > lateFrom)
    {
      asked := asked + 1;
      yes := asked > lateFrom;
    }
  }

  // ----- One pass -----

  method InsertCandidate(candidates: array<Entry>, selected: nat, e: Entry) returns (now: nat)
    requires candidates.Length == RETAINED && selected <= RETAINED
    modifies candidates
    ensures now <= RETAINED && candidates[..now] == Take(Insert(old(candidates[..selected]), e), RETAINED)
  {
    ghost var was := candidates[..selected];
    var position := 0;
    while position < selected && !Older(e, candidates[position])
      invariant position <= selected
      invariant forall i :: 0 <= i < position ==> !Older(e, was[i])
    {
      position := position + 1;
    }
    InsertAt(was, e, position);
    hide Insert, Older;
    if position == candidates.Length {
      return selected;
    }
    now := if selected < candidates.Length then selected + 1 else selected;
    MakeGap(candidates, position, now);
    candidates[position] := e;
    Placed(was, e, position, candidates[..now]);
  }

  method MakeGap(candidates: array<Entry>, position: nat, now: nat)
    requires position < now <= candidates.Length
    modifies candidates
    ensures forall k :: 0 <= k < position ==> candidates[k] == old(candidates[k])
    ensures forall k :: position < k < now ==> candidates[k] == old(candidates[k - 1])
  {
    var i := now - 1;
    while i > position
      invariant position <= i < now
      invariant forall k :: 0 <= k <= i ==> candidates[k] == old(candidates[k])
      invariant forall k :: i < k < now ==> candidates[k] == old(candidates[k - 1])
    {
      candidates[i] := candidates[i - 1];
      i := i - 1;
    }
  }

  lemma Placed(was: seq<Entry>, e: Entry, position: nat, now: seq<Entry>)
    requires position <= |was| && position < |now| <= |was| + 1 && now[position] == e
    requires forall k :: 0 <= k < position ==> now[k] == was[k]
    requires forall k :: position < k < |now| ==> now[k] == was[k - 1]
    ensures now == (was[..position] + [e] + was[position..])[..|now|]
  {
  }

  // Counts the records and keeps the sixteen least that wait after the cursor.
  method Scan(dir: Directory, after: bool, cursor: Entry, candidates: array<Entry>, inspectedBefore: nat)
    returns (interrupted: bool, selected: nat, count: nat, inspected: nat)
    requires candidates.Length == RETAINED && dir.asked <= dir.lateFrom && inspectedBefore <= MAX_INSPECTED
    modifies dir`asked, candidates
    ensures interrupted <==>
        inspectedBefore + |dir.files| > MAX_INSPECTED || old(dir.asked) + |dir.files| + 1 > dir.lateFrom
    ensures !interrupted ==> inspected == inspectedBefore + |dir.files| && dir.asked == old(dir.asked) + |dir.files| + 1
    ensures !interrupted ==> count == |Records(dir.files)| && selected <= RETAINED
    ensures !interrupted ==> candidates[..selected] == Take(Sorted(Waiting(dir.files, after, cursor)), RETAINED)
  {
    hide Sorted, Waiting, Insert, Records, Older, Take;
    var files := dir.files;
    interrupted, selected, count, inspected := false, 0, 0, inspectedBefore;
    assert files[..0] == [];
    ScanNone(after, cursor);
    for i := 0 to |files|
      invariant inspected == inspectedBefore + i <= MAX_INSPECTED && dir.files == files
      invariant dir.asked == old(dir.asked) + i <= dir.lateFrom
      invariant selected <= RETAINED && count == |Records(files[..i])|
      invariant candidates[..selected] == Take(Sorted(Waiting(files[..i], after, cursor)), RETAINED)
    {
      var e := files[i];
      ScanMore(files, i, after, cursor);
      inspected := inspected + 1;
      var late := dir.Interrupted();
      if inspected > MAX_INSPECTED || late {
        return true, selected, count, inspected;
      }
      var record := RecordFilename(e.name);
      if e.plain && record {
        count := count + 1;
        if e.readable && (!after || Older(cursor, e)) {
          TakeInsert(Sorted(Waiting(files[..i], after, cursor)), e, RETAINED);
          selected := InsertCandidate(candidates, selected, e);
        }
      }
    }
    assert files[..|files|] == files;
    interrupted := dir.Interrupted();
  }

  lemma ScanNone(after: bool, cursor: Entry)
    ensures Records([]) == [] && Take(Sorted(Waiting([], after, cursor)), RETAINED) == []
  {
  }

  lemma ScanMore(files: seq<Entry>, i: nat, after: bool, cursor: Entry)
    requires i < |files|
    ensures
      var before, e := files[..i], files[i];
      && Records(files[..i + 1]) == Records(before) + (if Named(e) then [e] else [])
      && Sorted(Waiting(files[..i + 1], after, cursor))
           == if Awaits(e, after, cursor) then Insert(Sorted(Waiting(before, after, cursor)), e)
             else Sorted(Waiting(before, after, cursor))
  {
    var before, upTo := files[..i], files[..i + 1];
    assert upTo[..i] == before && upTo[i] == files[i];
    var w := Waiting(before, after, cursor);
    assert (w + [files[i]])[..|w|] == w;
    assert w + [] == w;
  }

  // ----- Deleted files and what is left -----

  lemma {:induction false} WithoutMembers(files: seq<Entry>, gone: set<Entry>)
    ensures forall x :: x in Without(files, gone) <==> x in files && x !in gone
  {
    if files != [] {
      WithoutMembers(files[..|files| - 1], gone);
      assert files == files[..|files| - 1] + [files[|files| - 1]];
    }
  }

  lemma {:induction false} WithoutNone(files: seq<Entry>, gone: set<Entry>)
    requires forall x :: x in files ==> x !in gone
    ensures Without(files, gone) == files
  {
    if files != [] {
      WithoutNone(files[..|files| - 1], gone);
    }
  }

  lemma {:induction false} WithoutTwice(files: seq<Entry>, gone: set<Entry>, more: set<Entry>)
    ensures Without(Without(files, gone), more) == Without(files, gone + more)
  {
    if files != [] {
      var before, e := files[..|files| - 1], files[|files| - 1];
      WithoutTwice(before, gone, more);
      var w := Without(before, gone);
      if e !in gone {
        assert (w + [e])[..|w|] == w;
      } else {
        assert w + [] == w;
      }
    }
  }

  lemma {:induction false} WithoutDifferent(files: seq<Entry>, gone: set<Entry>)
    requires DifferentNames(files)
    ensures DifferentNames(Without(files, gone))
  {
    if files != [] {
      var before, e := files[..|files| - 1], files[|files| - 1];
      WithoutDifferent(before, gone);
      WithoutMembers(before, gone);
      assert files == before + [e];
      DifferentGrows(before, Without(before, gone), e);
    }
  }

  lemma {:induction false} DeletedCount(files: seq<Entry>, e: Entry)
    requires DifferentNames(files) && e in files && Named(e)
    ensures |Records(Without(files, {e}))| == |Records(files)| - 1
  {
    var before, last := files[..|files| - 1], files[|files| - 1];
    assert files == before + [last];
    if last == e {
      forall x | x in before ensures x != e {
      }
      WithoutNone(before, {e});
      assert Without(files, {e}) == before;
    } else {
      DeletedCount(before, e);
      var w := Without(before, {e});
      assert Without(files, {e}) == w + [last];
      assert (w + [last])[..|w|] == w;
    }
  }

  lemma {:induction false} WaitingMembers(files: seq<Entry>, after: bool, cursor: Entry)
    ensures forall x :: x in Waiting(files, after, cursor) <==> x in files && Awaits(x, after, cursor)
  {
    if files != [] {
      WaitingMembers(files[..|files| - 1], after, cursor);
      assert files == files[..|files| - 1] + [files[|files| - 1]];
    }
  }

  lemma {:induction false} WaitingDifferent(files: seq<Entry>, after: bool, cursor: Entry)
    requires DifferentNames(files)
    ensures DifferentNames(Waiting(files, after, cursor))
  {
    if files != [] {
      var before, e := files[..|files| - 1], files[|files| - 1];
      WaitingDifferent(before, after, cursor);
      WaitingMembers(before, after, cursor);
      assert files == before + [e];
      DifferentGrows(before, Waiting(before, after, cursor), e);
    }
  }

  // The order of all valid records at the start of the attempt.
  lemma InOrderStrict(files: seq<Entry>)
    requires DifferentNames(files)
    ensures Strict(InOrder(files)) && forall x :: x in InOrder(files) <==> x in files && Valid(x)
  {
    WaitingDifferent(files, false, NO_ENTRY);
    WaitingMembers(files, false, NO_ENTRY);
    SortedStrict(Waiting(files, false, NO_ENTRY));
    SortedMembers(Waiting(files, false, NO_ENTRY));
  }

  // After k records were tried and some of those deleted, what waits after the cursor is the rest of
  // that order, untouched.
  lemma WaitingIsRest(files: seq<Entry>, gone: set<Entry>, k: nat, cursor: Entry)
    requires DifferentNames(files) && k <= |InOrder(files)|
    requires forall x :: x in gone ==> x in InOrder(files)[..k]
    requires k > 0 ==> cursor == InOrder(files)[k - 1]
    ensures Sorted(Waiting(Without(files, gone), k > 0, cursor)) == InOrder(files)[k..]
  {
    var all, left := InOrder(files), Without(files, gone);
    var waiting := Waiting(left, k > 0, cursor);
    InOrderStrict(files);
    WithoutMembers(files, gone);
    WithoutDifferent(files, gone);
    WaitingMembers(left, k > 0, cursor);
    WaitingDifferent(left, k > 0, cursor);
    SortedStrict(waiting);
    SortedMembers(waiting);
    forall x ensures x in Sorted(waiting) <==> x in all[k..] {
      RestMembers(all, k, x);
    }
    StrictUnique(Sorted(waiting), all[k..]);
  }

  lemma RestMembers(all: seq<Entry>, k: nat, x: Entry)
    requires Strict(all) && k <= |all|
    ensures x in all[k..] <==> x in all && (k > 0 ==> Older(all[k - 1], x))
    ensures x in all[k..] ==> x !in all[..k]
  {
    if x in all[k..] {
      RestIsAfter(all, k, x);
    } else if x in all && k > 0 {
      StartIsNotAfter(all, k, x);
    } else {
      assert all[0..] == all;
    }
  }

  lemma RestIsAfter(all: seq<Entry>, k: nat, x: Entry)
    requires Strict(all) && k <= |all| && x in all[k..]
    ensures x in all && (k > 0 ==> Older(all[k - 1], x)) && x !in all[..k]
  {
    var i :| 0 <= i < |all[k..]| && all[k..][i] == x;
    assert all[k + i] == x;
    OlderIsStrict(x, x, x);
    assert forall j :: 0 <= j < k ==> Older(all[j], all[k + i]);
  }

  lemma StartIsNotAfter(all: seq<Entry>, k: nat, x: Entry)
    requires Strict(all) && 0 < k <= |all| && x in all && x !in all[k..]
    ensures !Older(all[k - 1], x)
  {
    var i :| 0 <= i < |all| && all[i] == x;
    forall j | k <= j < |all| ensures all[j] in all[k..] {
      assert all[k..][j - k] == all[j];
    }
    OlderIsStrict(all[k - 1], x, x);
    if i < k - 1 {
      assert Older(all[i], all[k - 1]);
    }
  }

  lemma WithoutOneMore(files: seq<Entry>, gone: set<Entry>, e: Entry)
    requires DifferentNames(files) && e in files && e !in gone && Named(e)
    ensures Without(Without(files, gone), {e}) == Without(files, gone + {e})
    ensures |Records(Without(files, gone + {e}))| == |Records(Without(files, gone))| - 1
  {
    WithoutTwice(files, gone, {e});
    WithoutMembers(files, gone);
    WithoutDifferent(files, gone);
    DeletedCount(Without(files, gone), e);
  }

  lemma WithoutEmpty(files: seq<Entry>, gone: set<Entry>)
    requires |gone| == 0
    ensures Without(files, gone) == files
  {
    WithoutNone(files, gone);
  }

  ghost predicate AllRecords(s: seq<Entry>, files: seq<Entry>) {
    forall x :: x in s ==> x in files && Named(x)
  }

  // Of the files asked for, those deleted and those refused.
  ghost function Gone(attempts: seq<Entry>, stuck: set<Entry>): set<Entry> {
    set x | x in attempts && x !in stuck
  }

  ghost function Refused(attempts: seq<Entry>, stuck: set<Entry>): set<Entry> {
    set x | x in attempts && x in stuck
  }

  lemma NextTry(files: seq<Entry>, candidates: seq<Entry>, i: nat, stuck: set<Entry>)
    requires DifferentNames(files) && Strict(candidates) && i < |candidates| && AllRecords(candidates, files)
    ensures
      var e, gone, next := candidates[i], Gone(candidates[..i], stuck), Gone(candidates[..i + 1], stuck);
      && candidates[..i] + [e] == candidates[..i + 1]
      && next == (if e in stuck then gone else gone + {e})
      && Without(Without(files, gone), {e}) == Without(files, gone + {e})
      && |Records(Without(files, gone + {e}))| == |Records(Without(files, gone))| - 1
  {
    var e := candidates[i];
    assert e in candidates;
    RestMembers(candidates, i, e);
    assert candidates[i..][0] == e;
    assert candidates[..i + 1] == candidates[..i] + [e];
    GoneMore(candidates[..i], e, stuck);
    hide Gone;
    WithoutOneMore(files, Gone(candidates[..i], stuck), e);
  }

  lemma GoneMore(attempts: seq<Entry>, e: Entry, stuck: set<Entry>)
    requires e !in attempts
    ensures Gone(attempts + [e], stuck) == (if e in stuck then Gone(attempts, stuck) else Gone(attempts, stuck) + {e})
    ensures e !in Gone(attempts, stuck)
  {
  }

  // The first i candidates were asked for, while there were too many records.
  ghost predicate Asked(files: seq<Entry>, candidates: seq<Entry>, i: nat, left: seq<Entry>, stuck: set<Entry>,
                        count: nat) {
    && i <= |candidates| && left == Without(files, Gone(candidates[..i], stuck)) && count == |Records(left)|
    && (i > 0 ==> |Records(files)| >= RETAINED)
    && (Gone(candidates[..i], stuck) != {} ==> count >= RETAINED - 1)
    && (i > 0 && count < RETAINED ==> candidates[i - 1] !in stuck)
  }

  // The attempts made are those before and the first i candidates.
  ghost predicate Through(made: seq<Entry>, attempts: seq<Entry>, candidates: seq<Entry>, i: nat) {
    i <= |candidates| && made == attempts + candidates[..i]
  }

  lemma AskedNone(files: seq<Entry>, candidates: seq<Entry>, stuck: set<Entry>, attempts: seq<Entry>)
    ensures Asked(files, candidates, 0, files, stuck, |Records(files)|) && Through(attempts, attempts, candidates, 0)
  {
    WithoutEmpty(files, Gone(candidates[..0], stuck));
  }

  lemma AskedMore(files: seq<Entry>, candidates: seq<Entry>, i: nat, left: seq<Entry>, stuck: set<Entry>, count: nat,
                  attempts: seq<Entry>, made: seq<Entry>)
    requires DifferentNames(files) && Strict(candidates) && AllRecords(candidates, files)
    requires Asked(files, candidates, i, left, stuck, count) && i < |candidates| && count >= RETAINED
    requires Through(made, attempts, candidates, i)
    ensures
      var e := candidates[i];
      && Through(made + [candidates[i]], attempts, candidates, i + 1)
      && (e in stuck ==> Asked(files, candidates, i + 1, left, stuck, count))
      && (e !in stuck ==> Asked(files, candidates, i + 1, Without(left, {e}), stuck, count - 1))
  {
    hide Gone, Without, Records, Strict, DifferentNames, AllRecords, Through;
    NextTry(files, candidates, i, stuck);
    SomeRecords(files, Gone(candidates[..i], stuck));
    ThroughMore(made, attempts, candidates, i);
  }

  lemma ThroughMore(made: seq<Entry>, attempts: seq<Entry>, candidates: seq<Entry>, i: nat)
    requires Through(made, attempts, candidates, i) && i < |candidates|
    ensures Through(made + [candidates[i]], attempts, candidates, i + 1)
  {
    assert candidates[..i + 1] == candidates[..i] + [candidates[i]];
  }

  lemma {:induction false} SomeRecords(files: seq<Entry>, gone: set<Entry>)
    ensures |Records(Without(files, gone))| <= |Records(files)|
  {
    if files != [] {
      var before, e := files[..|files| - 1], files[|files| - 1];
      SomeRecords(before, gone);
      if e !in gone {
        assert (Without(before, gone) + [e])[..|Without(before, gone)|] == Without(before, gone);
      } else {
        assert Without(before, gone) + [] == Without(before, gone);
      }
    }
  }

  method TryOne(dir: Directory, e: Entry) returns (interrupted: bool, done: bool)
    modifies dir`files, dir`attempts, dir`asked
    ensures dir.asked == old(dir.asked) + 1 && (interrupted <==> dir.asked > dir.lateFrom)
    ensures done <==> !interrupted && e !in dir.stuck
    ensures dir.files == if done then Without(old(dir.files), {e}) else old(dir.files)
    ensures dir.attempts == if interrupted then old(dir.attempts) else old(dir.attempts) + [e]
  {
    done := false;
    interrupted := dir.Interrupted();
    if !interrupted {
      done := dir.Delete(e);
    }
  }

  // The next candidate, while there are too many records.
  method TryNext(dir: Directory, candidates: seq<Entry>, i: nat, before: nat, ghost files: seq<Entry>,
                 ghost attempts: seq<Entry>)
    returns (interrupted: bool, count: nat)
    requires DifferentNames(files) && Strict(candidates) && AllRecords(candidates, files)
    requires Asked(files, candidates, i, dir.files, dir.stuck, before) && i < |candidates| && before >= RETAINED
    requires Through(dir.attempts, attempts, candidates, i)
    modifies dir`files, dir`attempts, dir`asked
    ensures dir.asked == old(dir.asked) + 1 && (interrupted <==> dir.asked > dir.lateFrom)
    ensures
      var tried := if interrupted then i else i + 1;
      && Asked(files, candidates, tried, dir.files, dir.stuck, count)
      && Through(dir.attempts, attempts, candidates, tried)
    ensures interrupted ==> count == before
  {
    assert RETAINED > 0;
    hide *;
    AskedMore(files, candidates, i, dir.files, dir.stuck, before, attempts, dir.attempts);
    var done;
    interrupted, done := TryOne(dir, candidates[i]);
    count := if done then before - 1 else before;
  }

  // Asks for the candidates in order, for as long as there are too many records: the first of them,
  // none twice, and none once there is room.
  method DeleteOldest(dir: Directory, candidates: seq<Entry>, countBefore: nat)
    returns (interrupted: bool, count: nat, ghost tried: nat)
    requires DifferentNames(dir.files) && Strict(candidates) && countBefore == |Records(dir.files)|
    requires dir.asked <= dir.lateFrom
    requires AllRecords(candidates, dir.files)
    modifies dir`files, dir`attempts, dir`asked
    ensures tried <= |candidates| && dir.attempts == old(dir.attempts) + candidates[..tried]
    ensures Asked(old(dir.files), candidates, tried, dir.files, dir.stuck, count)
    ensures !interrupted ==> dir.asked == old(dir.asked) + tried <= dir.lateFrom
    ensures !interrupted ==> count < RETAINED || tried == |candidates|
    ensures interrupted ==> old(dir.asked) + tried <= dir.lateFrom < old(dir.asked) + tried + 1
    ensures interrupted ==> count >= RETAINED && tried < |candidates|
  {
    hide Asked, Records, Without, Strict, DifferentNames, AllRecords, Gone;
    ghost var files, attempts := dir.files, dir.attempts;
    interrupted, count, tried := false, countBefore, 0;
    AskedNone(files, candidates, dir.stuck, attempts);
    var i := 0;
    ghost var asked, lateFrom := dir.asked, dir.lateFrom;
    while i < |candidates| && count >= RETAINED
      invariant i <= |candidates| && tried == i && !interrupted && dir.asked == asked + i <= lateFrom
      invariant Asked(files, candidates, i, dir.files, dir.stuck, count)
      invariant Through(dir.attempts, attempts, candidates, i)
    {
      hide *;
      interrupted, count := TryNext(dir, candidates, i, count, files, attempts);
      if interrupted {
        break;
      }
      i, tried := i + 1, i + 1;
    }
  }

  // The records asked for are the least worth keeping, in order, none twice. What was not refused is
  // gone, and the rest is still there. No more were deleted than needed, and none was asked for once
  // there was room.
  ghost predicate OldestTried(files: seq<Entry>, left: seq<Entry>, attempts: seq<Entry>, stuck: set<Entry>) {
    && |attempts| <= |InOrder(files)| && attempts == InOrder(files)[..|attempts|]
    && left == Without(files, Gone(attempts, stuck))
    && (Gone(attempts, stuck) != {} ==> |Records(left)| >= RETAINED - 1)
    && (attempts != [] && |Records(left)| < RETAINED ==> attempts[|attempts| - 1] !in stuck)
  }

  // So a record goes only once every valid record before it was asked for too, and went or refused.
  lemma OlderTriedFirst(files: seq<Entry>, left: seq<Entry>, attempts: seq<Entry>, stuck: set<Entry>, x: Entry,
                        y: Entry)
    requires DifferentNames(files) && OldestTried(files, left, attempts, stuck)
    requires x in files && x !in left && y in files && Valid(y) && GoesFirst(y, x)
    ensures Valid(x) && x in Gone(attempts, stuck) && y in attempts
    ensures (y in Gone(attempts, stuck) && y !in left) || (y in Refused(attempts, stuck) && y in left)
  {
    hide InOrder, Without, Records, Older, GoesFirst;
    var all := InOrder(files);
    InOrderStrict(files);
    WithoutMembers(files, Gone(attempts, stuck));
    OlderGoesFirst(y, x);
    assert x in attempts;
    var i :| 0 <= i < |attempts| && attempts[i] == x;
    assert all[i] == x;
    var j :| 0 <= j < |all| && all[j] == y;
    OlderIsStrict(x, y, x);
    assert j < i;
    assert attempts[j] == y;
  }

  // And none is asked for twice.
  lemma AttemptsDiffer(files: seq<Entry>, left: seq<Entry>, attempts: seq<Entry>, stuck: set<Entry>, i: nat, j: nat)
    requires DifferentNames(files) && OldestTried(files, left, attempts, stuck) && i < j < |attempts|
    ensures attempts[i] != attempts[j]
  {
    var all := InOrder(files);
    InOrderStrict(files);
    hide InOrder, Without, Records;
    assert attempts[i] == all[i] && attempts[j] == all[j];
    OlderIsStrict(all[i], all[i], all[i]);
  }

  datatype Verdict = Interruption | Room | NoneLeft | Onward

  // What a pass over `found` files that asked for `tried` deletions took, from `asked` and `seen` to
  // `askedNow` and `seenNow`; and what an interrupted one would have taken.
  predicate Clock(verdict: Verdict, found: nat, asked: nat, seen: nat, tried: int, records: nat, askedNow: nat,
                  seenNow: nat, lateFrom: nat) {
    if verdict != Interruption then
      askedNow == asked + found + 2 + tried <= lateFrom && seenNow == seen + found <= MAX_INSPECTED
    else if tried == 0 && (asked + found + 2 > lateFrom || seen + found > MAX_INSPECTED) then true
    else
      && seen + found <= MAX_INSPECTED && asked + found + 2 + tried <= lateFrom < asked + found + 2 + tried + 1
      && records >= RETAINED && tried < RETAINED
  }

  // One pass over the directory, and what it settles.
  method Pass(dir: Directory, candidates: array<Entry>, cursor: Entry, after: bool, inspectedBefore: nat)
    returns (verdict: Verdict, next: Entry, inspected: nat)
    requires candidates.Length == RETAINED && dir.Valid() && dir.asked <= dir.lateFrom
        && inspectedBefore <= MAX_INSPECTED
    requires after <==> dir.attempts != []
    requires after ==> cursor == dir.attempts[|dir.attempts| - 1]
    modifies dir, candidates
    ensures dir.Valid() && dir.atStart == old(dir.atStart)
    ensures |old(dir.attempts)| <= |dir.attempts| <= |old(dir.attempts)| + RETAINED
        && |dir.attempts| <= |InOrder(dir.atStart)|
    ensures Clock(verdict, |old(dir.files)|, old(dir.asked), inspectedBefore, |dir.attempts| - |old(dir.attempts)|,
                  |Records(dir.files)|, dir.asked, inspected, dir.lateFrom)
    ensures verdict == Room <==> verdict != Interruption && |Records(dir.files)| < RETAINED
    ensures verdict == NoneLeft ==> |dir.attempts| == |InOrder(dir.atStart)|
    ensures verdict == Onward ==>
      && (|dir.attempts| == |old(dir.attempts)| + RETAINED || |dir.attempts| == |InOrder(dir.atStart)|)
      && |old(dir.attempts)| < |dir.attempts| && next == dir.attempts[|dir.attempts| - 1]
  {
    hide OldestTried, InOrder, Records, Sorted, Waiting, Strict, DifferentNames, Take, Named, AllRecords;
    next := cursor;
    TriedSoFar(dir.atStart, dir.files, dir.attempts, dir.stuck);
    inspected := inspectedBefore;
    var late := dir.Interrupted();
    if late {
      return Interruption, next, inspected;
    }
    var selected, count;
    late, selected, count, inspected := Scan(dir, after, cursor, candidates, inspectedBefore);
    if late {
      return Interruption, next, inspected;
    }
    if count < RETAINED {
      return Room, next, inspected;
    }
    CandidatesWait(dir.atStart, dir.files, dir.attempts, dir.stuck, cursor, candidates[..selected]);
    if selected == 0 {
      return NoneLeft, next, inspected;
    }
    ghost var left, attempts := dir.files, dir.attempts;
    ghost var tried: nat;
    late, count, tried := DeleteOldest(dir, candidates[..selected], count);
    MoreTried(dir.atStart, left, dir.files, attempts, dir.stuck, candidates[..selected], tried, count);
    if late {
      return Interruption, next, inspected;
    }
    if count < RETAINED {
      return Room, next, inspected;
    }
    return Onward, candidates[selected - 1], inspected;
  }

  lemma TriedSoFar(files: seq<Entry>, left: seq<Entry>, attempts: seq<Entry>, stuck: set<Entry>)
    requires OldestTried(files, left, attempts, stuck)
    ensures |attempts| <= |InOrder(files)| && |left| <= |files|
  {
    WithoutLength(files, Gone(attempts, stuck));
  }

  lemma {:induction false} WithoutLength(files: seq<Entry>, gone: set<Entry>)
    ensures |Without(files, gone)| <= |files|
  {
    if files != [] {
      WithoutLength(files[..|files| - 1], gone);
    }
  }

  // The deletable records among the first 512.
  ghost function Deletable(files: seq<Entry>, stuck: set<Entry>): set<Entry> {
    set x | x in Take(InOrder(files), 512) && x !in stuck
  }

  // Deleting them leaves fewer than sixteen.
  ghost predicate Enough(files: seq<Entry>, stuck: set<Entry>) {
    |Records(files)| < 16 + |Deletable(files, stuck)|
  }

  // ----- What an attempt comes to -----

  // The files left once the first k records of the order were asked for.
  ghost function Left(files: seq<Entry>, stuck: set<Entry>, k: nat): seq<Entry> {
    Without(files, Gone(Take(InOrder(files), k), stuck))
  }

  ghost predicate RoomAfter(files: seq<Entry>, stuck: set<Entry>, k: nat) {
    |Records(Left(files, stuck, k))| < 16
  }

  // The entries inspected in the first passes, each of which asks for sixteen records.
  ghost function Seen(files: seq<Entry>, stuck: set<Entry>, passes: nat): nat {
    if passes == 0 then 0 else Seen(files, stuck, passes - 1) + |Left(files, stuck, 16 * (passes - 1))|
  }

  // There is time to look through the directory in a pass and to ask for the k-th record in it.
  ghost predicate InTime(files: seq<Entry>, stuck: set<Entry>, lateFrom: nat, k: nat) {
    var passes := k / 16 + 1;
    Seen(files, stuck, passes) <= 4096 && 2 * passes + Seen(files, stuck, passes) + k + 1 <= lateFrom
  }

  // No further record is asked for: none is left, or the passes are over, or there is room, or no time.
  ghost predicate Stops(files: seq<Entry>, stuck: set<Entry>, lateFrom: nat, k: nat) {
    k >= |InOrder(files)| || k >= 512 || RoomAfter(files, stuck, k) || !InTime(files, stuck, lateFrom, k)
  }

  // The attempt asks for the first k records exactly.
  ghost predicate StopsFirst(files: seq<Entry>, stuck: set<Entry>, lateFrom: nat, k: nat) {
    Stops(files, stuck, lateFrom, k) && forall j: nat :: j < k ==> !Stops(files, stuck, lateFrom, j)
  }

  // Then there is room, and where there was from the start, time to find that out.
  ghost predicate MakesRoom(files: seq<Entry>, stuck: set<Entry>, lateFrom: nat, k: nat) {
    RoomAfter(files, stuck, k) && (k == 0 ==> |files| <= 4096 && |files| + 2 <= lateFrom)
  }

  // Time for every pass that may come.
  predicate TimeForAll(files: seq<Entry>, lateFrom: nat) {
    32 * |files| <= 4096 && 32 * (|files| + 16 + 2) <= lateFrom
  }

  // ----- The same in plain terms -----

  ghost predicate ValidRecord(e: Entry) {
    e.plain && e.readable && IsRecordName(e.name)
  }

  // Only valid records are asked for, by state, then creation, then name, and whichever is not asked
  // for comes after all of those.
  ghost predicate InWrittenOrder(files: seq<Entry>, attempts: seq<Entry>) {
    && (forall e :: e in attempts ==> e in files && ValidRecord(e))
    && (forall i, j :: 0 <= i < j < |attempts| ==> GoesFirst(attempts[i], attempts[j]))
    && (forall e, a :: e in files && ValidRecord(e) && e !in attempts && a in attempts ==> GoesFirst(a, e))
  }

  // Nothing goes but what was asked for and did not refuse.
  ghost predicate LeftAsTold(files: seq<Entry>, left: seq<Entry>, attempts: seq<Entry>, stuck: set<Entry>) {
    forall e :: e in left <==> e in files && (e in attempts ==> e in stuck)
  }

  ghost function RecordCount(files: seq<Entry>): nat {
    |set e | e in files && e.plain && IsRecordName(e.name)|
  }

  // Each deletion was asked for while there were sixteen records or more.
  ghost predicate OnlyCrowded(files: seq<Entry>, attempts: seq<Entry>, stuck: set<Entry>) {
    forall j :: 0 <= j < |attempts| ==>
      RecordCount(files) - |set e | e in attempts[..j] && e !in stuck| >= 16
  }

  lemma AttemptsInOrder(files: seq<Entry>, left: seq<Entry>, attempts: seq<Entry>, stuck: set<Entry>)
    requires DifferentNames(files) && OldestTried(files, left, attempts, stuck)
    ensures InWrittenOrder(files, attempts)
  {
    var all := InOrder(files);
    InOrderStrict(files);
    hide InOrder, Without, Records, Older, GoesFirst;
    forall i, j | 0 <= i < j < |attempts|
      ensures GoesFirst(attempts[i], attempts[j])
    {
      assert attempts[i] == all[i] && attempts[j] == all[j];
      OlderGoesFirst(all[i], all[j]);
    }
    forall e | e in attempts
      ensures e in files && ValidRecord(e)
    {
      assert e in all;
    }
    forall e, a | e in files && ValidRecord(e) && e !in attempts && a in attempts
      ensures GoesFirst(a, e)
    {
      assert all == attempts + all[|attempts|..];
      var i :| 0 <= i < |all[|attempts|..]| && all[|attempts|..][i] == e;
      var j :| 0 <= j < |attempts| && attempts[j] == a;
      assert all[|attempts| + i] == e && all[j] == a;
      OlderGoesFirst(a, e);
    }
  }

  lemma LeftIsTold(files: seq<Entry>, left: seq<Entry>, attempts: seq<Entry>, stuck: set<Entry>)
    requires OldestTried(files, left, attempts, stuck)
    ensures LeftAsTold(files, left, attempts, stuck)
  {
    WithoutMembers(files, Gone(attempts, stuck));
    hide Without, InOrder, Records;
  }

  // Files of different names are counted one by one.
  lemma {:induction false} CountIs(files: seq<Entry>)
    requires DifferentNames(files)
    ensures RecordCount(files) == |Records(files)|
  {
    if files != [] {
      var before, e := files[..|files| - 1], files[|files| - 1];
      CountIs(before);
      CountMore(before, e);
      assert files == before + [e];
    } else {
      assert (set e | e in files && e.plain && IsRecordName(e.name)) == {};
    }
  }

  lemma CountMore(before: seq<Entry>, e: Entry)
    requires DifferentNames(before + [e])
    ensures RecordCount(before + [e]) == RecordCount(before) + if Named(e) then 1 else 0
  {
    hide IsRecordName;
    var files := before + [e];
    forall x | x in before ensures x != e {
      var i :| 0 <= i < |before| && before[i] == x;
      assert files[i] == x && files[|before|] == e;
    }
    var was := set x | x in before && x.plain && IsRecordName(x.name);
    var now := set x | x in files && x.plain && IsRecordName(x.name);
    assert now == if Named(e) then was + {e} else was;
  }

  lemma CountsCrowd(files: seq<Entry>, left: seq<Entry>, attempts: seq<Entry>, stuck: set<Entry>)
    requires DifferentNames(files) && OldestTried(files, left, attempts, stuck)
    ensures OnlyCrowded(files, attempts, stuck) && RecordCount(left) == |Records(left)|
  {
    WithoutDifferent(files, Gone(attempts, stuck));
    CountIs(left);
    CountIs(files);
    InOrderStrict(files);
    LeftOf(files, left, attempts, stuck);
    forall j: nat | j < |attempts|
      ensures RecordCount(files) - |set e | e in attempts[..j] && e !in stuck| >= 16
    {
      CrowdedBefore(files, left, attempts, stuck, j);
      var gone := Gone(attempts[..j], stuck);
      assert gone == set e | e in attempts[..j] && e !in stuck;
      assert Take(InOrder(files), j) == attempts[..j];
      assert forall e :: e in attempts[..j] ==> e in InOrder(files);
      RecordsWithout(files, gone);
    }
  }

  // What is asked for, and whether there is room in the end, is settled by what is in the directory,
  // which of it cannot be deleted, and how often the attempt may go on.
  method MakeRoom(dir: Directory) returns (made: bool)
    requires DifferentNames(dir.files)
    modifies dir
    ensures dir.Valid() && dir.atStart == old(dir.files)
    ensures StopsFirst(old(dir.files), dir.stuck, dir.lateFrom, |dir.attempts|)
    ensures made <==> MakesRoom(old(dir.files), dir.stuck, dir.lateFrom, |dir.attempts|)
    ensures made ==> |Records(dir.files)| < RETAINED
    ensures InWrittenOrder(old(dir.files), dir.attempts)
    ensures LeftAsTold(old(dir.files), dir.files, dir.attempts, dir.stuck)
    ensures OnlyCrowded(old(dir.files), dir.attempts, dir.stuck) && (made ==> RecordCount(dir.files) < 16)
    // With time for all passes there is room in the end exactly if there can be.
    ensures TimeForAll(old(dir.files), dir.lateFrom) ==> (made <==> Enough(old(dir.files), dir.stuck))
  {
    dir.atStart, dir.attempts, dir.asked := dir.files, [], 0;
    NothingTried(dir.files, dir.stuck);
    made := RunPasses(dir);
    LeftOf(dir.atStart, dir.files, dir.attempts, dir.stuck);
    AttemptsInOrder(dir.atStart, dir.files, dir.attempts, dir.stuck);
    LeftIsTold(dir.atStart, dir.files, dir.attempts, dir.stuck);
    CountsCrowd(dir.atStart, dir.files, dir.attempts, dir.stuck);
    if TimeForAll(dir.atStart, dir.lateFrom) {
      TimeIsEnough(dir.atStart, dir.stuck, dir.lateFrom, |dir.attempts|);
    }
  }

  method RunPasses(dir: Directory) returns (made: bool)
    requires dir.Valid() && dir.attempts == [] && dir.asked == 0
    modifies dir
    ensures dir.Valid() && dir.atStart == old(dir.atStart)
    ensures StopsFirst(dir.atStart, dir.stuck, dir.lateFrom, |dir.attempts|)
    ensures made <==> MakesRoom(dir.atStart, dir.stuck, dir.lateFrom, |dir.attempts|)
  {
    var candidates := new Entry[RETAINED](_ => NO_ENTRY);
    var cursor, after, seen: nat, pass: nat := NO_ENTRY, false, 0, 0;
    ghost var files, stuck, lateFrom := dir.atStart, dir.stuck, dir.lateFrom;
    NotUnderway(files, dir.files, dir.attempts, stuck, lateFrom);
    hide OldestTried, InOrder, Records, Without, Gone, DifferentNames, Underway, StopsFirst, MakesRoom, Clock;
    while pass < PASSES
      invariant pass <= PASSES && seen <= MAX_INSPECTED && dir.asked <= lateFrom
      invariant dir.Valid() && dir.atStart == files
      invariant Underway(pass, files, dir.files, |dir.attempts|, stuck, lateFrom, dir.asked, seen)
      invariant after <==> dir.attempts != []
      invariant after ==> cursor == dir.attempts[|dir.attempts| - 1]
    {
      var verdict;
      verdict, cursor, seen := NextPass(dir, candidates, cursor, after, seen, pass);
      after := true;
      pass := pass + 1;
      if verdict != Onward {
        return verdict == Room;
      }
    }
    PassesOver(files, dir.files, dir.attempts, stuck, lateFrom, dir.asked, seen);
    return false;
  }

  method NextPass(dir: Directory, candidates: array<Entry>, cursor: Entry, after: bool, seenBefore: nat,
                  ghost pass: nat)
    returns (verdict: Verdict, next: Entry, seen: nat)
    requires candidates.Length == RETAINED && dir.Valid() && dir.asked <= dir.lateFrom && seenBefore <= MAX_INSPECTED
    requires after <==> dir.attempts != []
    requires after ==> cursor == dir.attempts[|dir.attempts| - 1]
    requires pass < PASSES && Underway(pass, dir.atStart, dir.files, |dir.attempts|, dir.stuck, dir.lateFrom, dir.asked,
        seenBefore)
    modifies dir, candidates
    ensures dir.Valid() && dir.atStart == old(dir.atStart)
    ensures verdict == Onward ==>
      && Underway(pass + 1, dir.atStart, dir.files, |dir.attempts|, dir.stuck, dir.lateFrom, dir.asked, seen)
      && dir.asked <= dir.lateFrom && seen <= MAX_INSPECTED
      && dir.attempts != [] && next == dir.attempts[|dir.attempts| - 1]
    ensures verdict != Onward ==>
      && StopsFirst(dir.atStart, dir.stuck, dir.lateFrom, |dir.attempts|)
      && (verdict == Room <==> MakesRoom(dir.atStart, dir.stuck, dir.lateFrom, |dir.attempts|))
  {
    ghost var left, attempts, asked := dir.files, dir.attempts, dir.asked;
    hide OldestTried, InOrder, Records, Without, Gone, DifferentNames, Underway, StopsFirst, MakesRoom, Clock, Strict;
    verdict, next, seen := Pass(dir, candidates, cursor, after, seenBefore);
    PassSettles(pass, dir.atStart, left, attempts, dir.files, dir.attempts, dir.stuck, dir.lateFrom, verdict, asked,
      seenBefore, dir.asked, seen);
  }

  // Every pass so far asked for sixteen records, or for all there were, and left too many.
  ghost predicate Underway(pass: nat, files: seq<Entry>, left: seq<Entry>, tried: nat, stuck: set<Entry>, lateFrom: nat,
                           asked: nat, seen: nat) {
    && tried <= |InOrder(files)| && (tried == pass * RETAINED || (tried == |InOrder(files)| && tried < pass * RETAINED))
    && (pass > 0 ==> |Records(left)| >= RETAINED)
    && (forall j: nat :: j < tried ==> !Stops(files, stuck, lateFrom, j))
    && (tried == pass * RETAINED ==>
      asked == 2 * pass + Seen(files, stuck, pass) + tried && seen == Seen(files, stuck, pass))
  }

  lemma NotUnderway(files: seq<Entry>, left: seq<Entry>, attempts: seq<Entry>, stuck: set<Entry>, lateFrom: nat)
    requires attempts == []
    ensures Underway(0, files, left, |attempts|, stuck, lateFrom, 0, 0)
  {
  }

  // What is left is what the tried records leave.
  lemma LeftOf(files: seq<Entry>, left: seq<Entry>, attempts: seq<Entry>, stuck: set<Entry>)
    requires OldestTried(files, left, attempts, stuck)
    ensures left == Left(files, stuck, |attempts|) && |attempts| <= |InOrder(files)|
  {
    hide Without, Gone, InOrder, Records;
    assert |attempts| == |InOrder(files)| ==> InOrder(files)[..|attempts|] == InOrder(files);
  }

  // One record more leaves at most one fewer.
  lemma LeftMore(files: seq<Entry>, stuck: set<Entry>, k: nat)
    requires DifferentNames(files) && k < |InOrder(files)|
    ensures
      |Records(Left(files, stuck, k + 1))|
        == |Records(Left(files, stuck, k))| - if InOrder(files)[k] in stuck then 0 else 1
  {
    hide InOrder, Records, Without, Gone, Strict, DifferentNames, AllRecords;
    var all := InOrder(files);
    InOrderAll(files);
    NextTry(files, all, k, stuck);
    assert Take(all, k) == all[..k] && Take(all, k + 1) == all[..k + 1];
  }

  lemma InOrderAll(files: seq<Entry>)
    requires DifferentNames(files)
    ensures Strict(InOrder(files)) && AllRecords(InOrder(files), files)
  {
    InOrderStrict(files);
    hide InOrder;
  }

  lemma {:induction false} LeftFewer(files: seq<Entry>, stuck: set<Entry>, j: nat, k: nat)
    requires DifferentNames(files) && j <= k <= |InOrder(files)|
    ensures |Records(Left(files, stuck, k))| <= |Records(Left(files, stuck, j))|
    decreases k - j
  {
    hide Left, Records, InOrder;
    if j < k {
      LeftFewer(files, stuck, j, k - 1);
      LeftMore(files, stuck, k - 1);
    }
  }

  // Before the last record that was asked for there were too many.
  lemma CrowdedBefore(files: seq<Entry>, left: seq<Entry>, attempts: seq<Entry>, stuck: set<Entry>, j: nat)
    requires DifferentNames(files) && OldestTried(files, left, attempts, stuck) && j < |attempts|
    ensures !RoomAfter(files, stuck, j)
  {
    LeftOf(files, left, attempts, stuck);
    var k := |attempts| - 1;
    LeftMore(files, stuck, k);
    LeftFewer(files, stuck, j, k);
    GoneOrNot(files, left, attempts, stuck);
    hide Left, Records, InOrder, Without, Gone;
  }

  lemma GoneOrNot(files: seq<Entry>, left: seq<Entry>, attempts: seq<Entry>, stuck: set<Entry>)
    requires OldestTried(files, left, attempts, stuck)
    ensures Gone(attempts, stuck) == {} ==> left == files
    ensures attempts != [] && attempts[|attempts| - 1] !in stuck ==> Gone(attempts, stuck) != {}
  {
    if Gone(attempts, stuck) == {} {
      WithoutEmpty(files, Gone(attempts, stuck));
    }
    if attempts != [] && attempts[|attempts| - 1] !in stuck {
      assert attempts[|attempts| - 1] in Gone(attempts, stuck);
    }
  }

  // A record that was asked for in this pass was asked for in time.
  lemma AskedInTime(pass: nat, files: seq<Entry>, stuck: set<Entry>, lateFrom: nat, j: nat, tried: nat)
    requires pass * RETAINED <= j < tried <= pass * RETAINED + RETAINED
    requires Seen(files, stuck, pass + 1) <= MAX_INSPECTED
    requires 2 * (pass + 1) + Seen(files, stuck, pass + 1) + tried <= lateFrom
    ensures InTime(files, stuck, lateFrom, j)
  {
    hide Seen;
    assert j / RETAINED == pass;
  }

  // What an interrupted pass had no time for.
  lemma NotInTime(pass: nat, files: seq<Entry>, stuck: set<Entry>, lateFrom: nat, k: nat)
    requires pass * RETAINED <= k < pass * RETAINED + RETAINED
    requires Seen(files, stuck, pass + 1) > MAX_INSPECTED
        || 2 * (pass + 1) + Seen(files, stuck, pass + 1) + k + 1 > lateFrom
    ensures !InTime(files, stuck, lateFrom, k)
  {
    hide Seen;
    assert k / RETAINED == pass;
  }

  lemma SeenMore(pass: nat, files: seq<Entry>, left: seq<Entry>, attempts: seq<Entry>, stuck: set<Entry>)
    requires OldestTried(files, left, attempts, stuck) && |attempts| == pass * RETAINED
    ensures Seen(files, stuck, pass + 1) == Seen(files, stuck, pass) + |left|
  {
    LeftOf(files, left, attempts, stuck);
    hide Left, OldestTried, InOrder;
  }

  // What a pass asked for it had to ask for.
  lemma NoneStops(pass: nat, files: seq<Entry>, before: seq<Entry>, attempts: seq<Entry>, left: seq<Entry>,
                  more: seq<Entry>, stuck: set<Entry>, lateFrom: nat, verdict: Verdict, asked: nat, seen: nat,
                  askedNow: nat, seenNow: nat)
    requires DifferentNames(files) && pass < PASSES
    requires Underway(pass, files, before, |attempts|, stuck, lateFrom, asked, seen)
    requires OldestTried(files, before, attempts, stuck) && OldestTried(files, left, more, stuck)
    requires |attempts| <= |more| <= |attempts| + RETAINED
    requires Clock(verdict, |before|, asked, seen, |more| - |attempts|, |Records(left)|, askedNow, seenNow, lateFrom)
    ensures forall j: nat :: j < |more| ==> !Stops(files, stuck, lateFrom, j)
  {
    hide OldestTried, InOrder, Records, DifferentNames, Seen, InTime, RoomAfter;
    LeftOf(files, left, more, stuck);
    if |attempts| == pass * RETAINED {
      SeenMore(pass, files, before, attempts, stuck);
    }
    forall j: nat | |attempts| <= j < |more|
      ensures !Stops(files, stuck, lateFrom, j)
    {
      CrowdedBefore(files, left, more, stuck, j);
      AskedInTime(pass, files, stuck, lateFrom, j, |more|);
    }
  }

  // Why it stopped there.
  lemma SomethingStops(pass: nat, files: seq<Entry>, before: seq<Entry>, attempts: seq<Entry>, left: seq<Entry>,
                       more: seq<Entry>, stuck: set<Entry>, lateFrom: nat, verdict: Verdict, asked: nat, seen: nat,
                       askedNow: nat, seenNow: nat)
    requires DifferentNames(files) && pass < PASSES
    requires Underway(pass, files, before, |attempts|, stuck, lateFrom, asked, seen)
    requires OldestTried(files, before, attempts, stuck) && OldestTried(files, left, more, stuck)
    requires |attempts| <= |more| <= |attempts| + RETAINED
    requires Clock(verdict, |before|, asked, seen, |more| - |attempts|, |Records(left)|, askedNow, seenNow, lateFrom)
    requires verdict == Room ==> |Records(left)| < RETAINED
    requires verdict == NoneLeft ==> |more| == |InOrder(files)|
    requires verdict != Onward
    ensures Stops(files, stuck, lateFrom, |more|)
  {
    hide OldestTried, InOrder, Records, DifferentNames, Seen, InTime;
    LeftOf(files, left, more, stuck);
    if verdict == Interruption && |attempts| == pass * RETAINED {
      SeenMore(pass, files, before, attempts, stuck);
      NotInTime(pass, files, stuck, lateFrom, |more|);
    }
    hide Left;
  }

  // What is found of the directory as it was is what is left of it before anything was asked for.
  lemma NothingGone(files: seq<Entry>, left: seq<Entry>, attempts: seq<Entry>, stuck: set<Entry>)
    requires OldestTried(files, left, attempts, stuck) && attempts == []
    ensures left == files
  {
    WithoutEmpty(files, Gone(attempts, stuck));
  }

  lemma RoomIsMade(pass: nat, files: seq<Entry>, before: seq<Entry>, attempts: seq<Entry>, left: seq<Entry>,
                   more: seq<Entry>, stuck: set<Entry>, lateFrom: nat, verdict: Verdict, asked: nat, seen: nat,
                   askedNow: nat, seenNow: nat)
    requires DifferentNames(files) && pass < PASSES
    requires Underway(pass, files, before, |attempts|, stuck, lateFrom, asked, seen)
    requires OldestTried(files, before, attempts, stuck) && OldestTried(files, left, more, stuck)
    requires |attempts| <= |more| <= |attempts| + RETAINED && (more == attempts ==> left == before)
    requires Clock(verdict, |before|, asked, seen, |more| - |attempts|, |Records(left)|, askedNow, seenNow, lateFrom)
    requires verdict == Room <==> verdict != Interruption && |Records(left)| < RETAINED
    ensures verdict == Room <==> MakesRoom(files, stuck, lateFrom, |more|)
  {
    LeftOf(files, left, more, stuck);
    if more == [] && pass == 0 {
      NothingGone(files, before, attempts, stuck);
      assert Seen(files, stuck, 0) == 0;
    }
    hide OldestTried, InOrder, Records, DifferentNames, Seen, Left, Stops;
  }

  lemma PassSettles(pass: nat, files: seq<Entry>, before: seq<Entry>, attempts: seq<Entry>, left: seq<Entry>,
                    more: seq<Entry>, stuck: set<Entry>, lateFrom: nat, verdict: Verdict, asked: nat, seen: nat,
                    askedNow: nat, seenNow: nat)
    requires DifferentNames(files) && pass < PASSES
    requires Underway(pass, files, before, |attempts|, stuck, lateFrom, asked, seen)
    requires OldestTried(files, before, attempts, stuck) && OldestTried(files, left, more, stuck)
    requires |attempts| <= |more| <= |attempts| + RETAINED && (more == attempts ==> left == before)
    requires Clock(verdict, |before|, asked, seen, |more| - |attempts|, |Records(left)|, askedNow, seenNow, lateFrom)
    requires verdict == Room <==> verdict != Interruption && |Records(left)| < RETAINED
    requires verdict == NoneLeft ==> |more| == |InOrder(files)|
    requires verdict == Onward ==>
      |attempts| < |more| && (|more| == |attempts| + RETAINED || |more| == |InOrder(files)|)
    ensures verdict == Onward ==>
      Underway(pass + 1, files, left, |more|, stuck, lateFrom, askedNow, seenNow) && askedNow <= lateFrom
        && seenNow <= MAX_INSPECTED
    ensures verdict != Onward ==>
      StopsFirst(files, stuck, lateFrom, |more|) && (verdict == Room <==> MakesRoom(files, stuck, lateFrom, |more|))
  {
    NoneStops(pass, files, before, attempts, left, more, stuck, lateFrom, verdict, asked, seen, askedNow, seenNow);
    RoomIsMade(pass, files, before, attempts, left, more, stuck, lateFrom, verdict, asked, seen, askedNow, seenNow);
    if verdict != Onward {
      SomethingStops(pass, files, before, attempts, left, more, stuck, lateFrom, verdict, asked, seen, askedNow,
        seenNow);
      hide Stops, MakesRoom;
    } else {
      LeftOf(files, left, more, stuck);
      SeenMore(pass, files, before, attempts, stuck);
      hide OldestTried, InOrder, Records, DifferentNames, Seen, Left, Stops, MakesRoom;
    }
  }

  lemma PassesOver(files: seq<Entry>, left: seq<Entry>, attempts: seq<Entry>, stuck: set<Entry>, lateFrom: nat,
                   asked: nat, seen: nat)
    requires Underway(PASSES, files, left, |attempts|, stuck, lateFrom, asked, seen)
        && OldestTried(files, left, attempts, stuck)
    ensures StopsFirst(files, stuck, lateFrom, |attempts|) && !MakesRoom(files, stuck, lateFrom, |attempts|)
  {
    LeftOf(files, left, attempts, stuck);
    hide OldestTried, InOrder, Records, Seen, Left, InTime;
  }

  // ----- With time for every pass -----

  lemma {:induction false} SeenBound(files: seq<Entry>, stuck: set<Entry>, passes: nat)
    ensures Seen(files, stuck, passes) <= passes * |files|
  {
    if passes > 0 {
      SeenBound(files, stuck, passes - 1);
      WithoutLength(files, Gone(Take(InOrder(files), RETAINED * (passes - 1)), stuck));
      assert passes * |files| == (passes - 1) * |files| + |files|;
    }
  }

  lemma EnoughTime(files: seq<Entry>, stuck: set<Entry>, lateFrom: nat, k: nat)
    requires TimeForAll(files, lateFrom) && k < PASSES * RETAINED
    ensures InTime(files, stuck, lateFrom, k) && |files| <= MAX_INSPECTED && |files| + 2 <= lateFrom
  {
    var passes := k / RETAINED + 1;
    hide Seen;
    SeenBound(files, stuck, passes);
    Products(passes, PASSES, |files|);
  }

  lemma Products(a: nat, b: nat, n: nat)
    requires a <= b
    ensures a * n <= b * n
  {
  }

  lemma TimeIsEnough(files: seq<Entry>, stuck: set<Entry>, lateFrom: nat, k: nat)
    requires DifferentNames(files) && TimeForAll(files, lateFrom) && StopsFirst(files, stuck, lateFrom, k)
    ensures MakesRoom(files, stuck, lateFrom, k) <==> Enough(files, stuck)
  {
    var all := |InOrder(files)|;
    var most := if all <= PASSES * RETAINED then all else PASSES * RETAINED;
    EnoughAfter(files, stuck);
    assert Stops(files, stuck, lateFrom, most);
    assert k <= most;
    EnoughTime(files, stuck, lateFrom, 0);
    if k < most {
      EnoughTime(files, stuck, lateFrom, k);
    }
    LeftFewer(files, stuck, k, most);
    hide Records, InOrder, Left, DifferentNames, Enough, InTime;
  }

  // There is enough to delete exactly if the records of all passes leave room.
  lemma EnoughAfter(files: seq<Entry>, stuck: set<Entry>)
    requires DifferentNames(files)
    ensures
      var all := |InOrder(files)|;
      Enough(files, stuck) <==> RoomAfter(files, stuck, if all <= PASSES * RETAINED then all else PASSES * RETAINED)
  {
    var all := InOrder(files);
    InOrderStrict(files);
    var first := Take(all, PASSES * RETAINED);
    assert Gone(first, stuck) == Deletable(files, stuck);
    assert forall x :: x in first ==> x in all;
    RecordsWithout(files, Deletable(files, stuck));
    hide InOrder, Records, Without, Gone, DifferentNames;
    assert |all| <= PASSES * RETAINED ==> Take(all, |all|) == first;
  }

  lemma {:induction false} RecordsWithout(files: seq<Entry>, gone: set<Entry>)
    requires DifferentNames(files) && forall x :: x in gone ==> x in files && Named(x)
    ensures |Records(Without(files, gone))| == |Records(files)| - |gone|
    decreases |gone|
  {
    if gone == {} {
      WithoutEmpty(files, gone);
    } else {
      var e :| e in gone;
      RecordsWithout(files, gone - {e});
      WithoutOneMore(files, gone - {e}, e);
      assert gone - {e} + {e} == gone;
    }
  }

  lemma NothingTried(files: seq<Entry>, stuck: set<Entry>)
    ensures OldestTried(files, files, [], stuck)
  {
    WithoutEmpty(files, Gone([], stuck));
  }

  // What a pass selects is the least of the order not asked for yet, and is still in the directory.
  lemma CandidatesWait(files: seq<Entry>, left: seq<Entry>, attempts: seq<Entry>, stuck: set<Entry>, cursor: Entry,
                       selected: seq<Entry>)
    requires DifferentNames(files) && OldestTried(files, left, attempts, stuck)
    requires attempts != [] ==> cursor == attempts[|attempts| - 1]
    requires selected == Take(Sorted(Waiting(left, attempts != [], cursor)), RETAINED)
    ensures |attempts| <= |InOrder(files)| && selected == Take(InOrder(files)[|attempts|..], RETAINED)
    ensures Strict(selected) && DifferentNames(left) && AllRecords(selected, left)
    ensures selected == [] ==> |attempts| == |InOrder(files)|
  {
    var all, tried, gone := InOrder(files), |attempts|, Gone(attempts, stuck);
    assert tried > 0 ==> attempts[tried - 1] == all[tried - 1];
    WaitingIsRest(files, gone, tried, cursor);
    InOrderStrict(files);
    WithoutMembers(files, gone);
    WithoutDifferent(files, gone);
    hide InOrder, Waiting, Sorted, Older, Records, Without, IsRecordName, Strict, DifferentNames, Take;
    RestUntouched(all, tried, selected, gone);
  }

  lemma RestUntouched(all: seq<Entry>, k: nat, selected: seq<Entry>, gone: set<Entry>)
    requires Strict(all) && k <= |all| && selected == Take(all[k..], RETAINED)
    requires forall x :: x in gone ==> x in all[..k]
    ensures Strict(selected) && forall x :: x in selected ==> x in all && x !in gone
    ensures selected == [] ==> k == |all|
  {
    forall x | x in selected ensures x in all && x !in gone {
      assert x in all[k..];
      RestMembers(all, k, x);
    }
  }

  lemma MoreTried(files: seq<Entry>, left: seq<Entry>, now: seq<Entry>, attempts: seq<Entry>, stuck: set<Entry>,
                  selected: seq<Entry>, tried: nat, count: nat)
    requires OldestTried(files, left, attempts, stuck) && |Records(left)| >= RETAINED
    requires selected == Take(InOrder(files)[|attempts|..], RETAINED) && Asked(left, selected, tried, now, stuck, count)
    ensures OldestTried(files, now, attempts + selected[..tried], stuck) && count == |Records(now)|
    ensures |attempts| + tried <= |InOrder(files)|
    ensures tried == |selected| ==> tried == RETAINED || |attempts| + tried == |InOrder(files)|
  {
    hide InOrder, Without, Records, Gone, Take;
    var part := selected[..tried];
    GoneAdds(attempts, part, stuck);
    WithoutTwice(files, Gone(attempts, stuck), Gone(part, stuck));
    WithoutEmpty(left, {});
    OneMorePart(InOrder(files), attempts, selected, tried);
    if tried == 0 {
      assert part == [] && attempts + part == attempts;
    } else {
      assert (attempts + part)[|attempts + part| - 1] == selected[tried - 1];
    }
  }

  lemma GoneAdds(attempts: seq<Entry>, part: seq<Entry>, stuck: set<Entry>)
    ensures Gone(attempts + part, stuck) == Gone(attempts, stuck) + Gone(part, stuck)
    ensures part == [] ==> Gone(part, stuck) == {}
  {
  }

  lemma OneMorePart(all: seq<Entry>, attempts: seq<Entry>, selected: seq<Entry>, tried: nat)
    requires |attempts| <= |all| && attempts == all[..|attempts|] && selected == Take(all[|attempts|..], RETAINED)
    requires tried <= |selected|
    ensures |attempts| + tried <= |all| && attempts + selected[..tried] == all[..|attempts| + tried]
    ensures tried == |selected| ==> tried == RETAINED || |attempts| + tried == |all|
  {
  }
}
