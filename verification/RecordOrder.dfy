/** The order in which crash records are given up, and the sorted sequence of a directory's records. */
module RecordOrder {

  // A directory entry. `plain` is neither directory nor reparse point; `readable` opens for inspection
  // and holds a valid record of the given state.
  datatype Entry = Entry(name: string, plain: bool, readable: bool, state: nat, created: nat)

  // wcscmp on two names is negative.
  predicate NameLess(a: string, b: string)
    decreases |a|
  {
    if b == "" then false
    else if a == "" then true
    else a[0] < b[0] || (a[0] == b[0] && NameLess(a[1..], b[1..]))
  }

  predicate Older(a: Entry, b: Entry) {
    if a.state != b.state then a.state < b.state
    else a.created < b.created || (a.created == b.created && NameLess(a.name, b.name))
  }

  // The same on the fields: by state, then by creation, then by name, where a name comes first that is a
  // proper prefix of the other or has the smaller character at the first difference.
  ghost predicate NameFirst(a: string, b: string, same: nat) {
    && same <= |a| && same <= |b| && a[..same] == b[..same]
    && if same < |a| && same < |b| then a[same] < b[same] else |a| < |b|
  }

  ghost predicate GoesFirst(a: Entry, b: Entry) {
    || a.state < b.state
    || (a.state == b.state && a.created < b.created)
    || (a.state == b.state && a.created == b.created && exists same: nat :: NameFirst(a.name, b.name, same))
  }

  lemma {:induction false} NameLessIs(a: string, b: string)
    ensures NameLess(a, b) <==> exists same: nat :: NameFirst(a, b, same)
    decreases |a|
  {
    if a == "" || b == "" || a[0] != b[0] {
      if NameLess(a, b) {
        assert NameFirst(a, b, 0);
      }
    } else {
      NameLessIs(a[1..], b[1..]);
      assert a == [a[0]] + a[1..] && b == [b[0]] + b[1..];
      if same: nat :| NameFirst(a[1..], b[1..], same) {
        assert a[..same + 1] == [a[0]] + a[1..][..same] && b[..same + 1] == [b[0]] + b[1..][..same];
        assert NameFirst(a, b, same + 1);
      }
      if same: nat :| NameFirst(a, b, same) {
        assert same > 0;
        assert a[1..][..same - 1] == a[..same][1..] && b[1..][..same - 1] == b[..same][1..];
        assert NameFirst(a[1..], b[1..], same - 1);
      }
    }
  }

  lemma OlderGoesFirst(a: Entry, b: Entry)
    ensures Older(a, b) <==> GoesFirst(a, b)
  {
    NameLessIs(a.name, b.name);
    hide NameLess;
  }

  lemma {:induction false} NameOrder(a: string, b: string)
    ensures !(NameLess(a, b) && NameLess(b, a))
    ensures a == b <==> !NameLess(a, b) && !NameLess(b, a)
    decreases |a|
  {
    if a != "" && b != "" {
      NameOrder(a[1..], b[1..]);
      assert a == [a[0]] + a[1..] && b == [b[0]] + b[1..];
    }
  }

  lemma {:induction false} NameTransitive(a: string, b: string, c: string)
    requires NameLess(a, b) && NameLess(b, c)
    ensures NameLess(a, c)
    decreases |a|
  {
    if a != "" && b[0] == a[0] && c[0] == a[0] {
      NameTransitive(a[1..], b[1..], c[1..]);
    }
  }

  // A strict order, total on entries of different names.
  lemma OlderIsStrict(a: Entry, b: Entry, c: Entry)
    ensures !(Older(a, b) && Older(b, a))
    ensures Older(a, b) && Older(b, c) ==> Older(a, c)
    ensures a.name != b.name ==> Older(a, b) || Older(b, a)
  {
    NameOrder(a.name, b.name);
    if NameLess(a.name, b.name) && NameLess(b.name, c.name) {
      NameTransitive(a.name, b.name, c.name);
    }
  }

  ghost predicate Strict(s: seq<Entry>) {
    forall i, j :: 0 <= i < j < |s| ==> Older(s[i], s[j])
  }

  ghost predicate DifferentNames(s: seq<Entry>) {
    forall i, j :: 0 <= i < j < |s| ==> s[i].name != s[j].name
  }

  predicate NameFree(s: seq<Entry>, name: string) {
    forall i :: 0 <= i < |s| ==> s[i].name != name
  }

  // Before the first entry that is younger.
  function Insert(s: seq<Entry>, e: Entry): seq<Entry> {
    if s == [] then [e] else if Older(e, s[0]) then [e] + s else [s[0]] + Insert(s[1..], e)
  }

  function Sorted(s: seq<Entry>): seq<Entry> {
    if s == [] then [] else Insert(Sorted(s[..|s| - 1]), s[|s| - 1])
  }

  function Take(s: seq<Entry>, n: nat): seq<Entry> {
    if |s| <= n then s else s[..n]
  }

  lemma {:induction false} InsertMembers(s: seq<Entry>, e: Entry)
    ensures |Insert(s, e)| == |s| + 1
    ensures forall x :: x in Insert(s, e) <==> x == e || x in s
  {
    if s != [] && !Older(e, s[0]) {
      InsertMembers(s[1..], e);
      assert s == [s[0]] + s[1..];
    }
  }

  lemma {:induction false} InsertStrict(s: seq<Entry>, e: Entry)
    requires Strict(s) && NameFree(s, e.name)
    ensures Strict(Insert(s, e))
  {
    if s != [] {
      var r := Insert(s, e);
      OlderIsStrict(e, s[0], s[0]);
      if Older(e, s[0]) {
        forall j | 0 < j < |s| ensures Older(e, s[j]) {
          OlderIsStrict(e, s[0], s[j]);
        }
        assert r == [e] + s;
      } else {
        InsertStrict(s[1..], e);
        InsertMembers(s[1..], e);
        forall x | x in Insert(s[1..], e) ensures Older(s[0], x) {
        }
        assert r == [s[0]] + Insert(s[1..], e);
      }
    }
  }

  lemma {:induction false} SortedMembers(s: seq<Entry>)
    ensures |Sorted(s)| == |s|
    ensures forall x :: x in Sorted(s) <==> x in s
  {
    if s != [] {
      SortedMembers(s[..|s| - 1]);
      InsertMembers(Sorted(s[..|s| - 1]), s[|s| - 1]);
      assert s == s[..|s| - 1] + [s[|s| - 1]];
    }
  }

  lemma {:induction false} SortedStrict(s: seq<Entry>)
    requires DifferentNames(s)
    ensures Strict(Sorted(s))
  {
    if s != [] {
      var before, e := s[..|s| - 1], s[|s| - 1];
      SortedStrict(before);
      SortedMembers(before);
      forall i | 0 <= i < |Sorted(before)| ensures Sorted(before)[i].name != e.name {
        assert Sorted(before)[i] in before;
      }
      InsertStrict(Sorted(before), e);
    }
  }

  // Two strictly sorted sequences of the same entries are the same.
  lemma {:induction false} StrictUnique(s: seq<Entry>, t: seq<Entry>)
    requires Strict(s) && Strict(t) && forall x :: x in s <==> x in t
    ensures s == t
  {
    if s == [] {
      assert forall i :: 0 <= i < |t| ==> t[i] in s;
    } else {
      assert s[0] in t;
      assert t != [] && t[0] in s;
      HeadsAgree(s, t);
      StrictTail(s);
      StrictTail(t);
      hide *;
      StrictUnique(s[1..], t[1..]);
      assert s == [s[0]] + s[1..] && t == [t[0]] + t[1..];
    }
  }

  lemma HeadsAgree(s: seq<Entry>, t: seq<Entry>)
    requires Strict(s) && Strict(t) && s != [] && t != [] && s[0] in t && t[0] in s
    ensures s[0] == t[0]
  {
    var i :| 0 <= i < |t| && t[i] == s[0];
    var j :| 0 <= j < |s| && s[j] == t[0];
    OlderIsStrict(s[0], t[0], s[0]);
  }

  lemma StrictTail(s: seq<Entry>)
    requires Strict(s) && s != []
    ensures Strict(s[1..]) && forall x :: x in s[1..] <==> x in s && x != s[0]
  {
    OlderIsStrict(s[0], s[0], s[0]);
    assert s == [s[0]] + s[1..];
  }

  lemma DifferentGrows(s: seq<Entry>, t: seq<Entry>, e: Entry)
    requires DifferentNames(s + [e]) && DifferentNames(t) && forall x :: x in t ==> x in s
    ensures DifferentNames(t + [e])
  {
    forall i | 0 <= i < |t| ensures t[i].name != e.name {
      assert t[i] in s;
      var j :| 0 <= j < |s| && s[j] == t[i];
      assert (s + [e])[j] == t[i] && (s + [e])[|s|] == e;
    }
  }

  // Only the least n are needed to know the least n after another insertion.
  lemma {:induction false} TakeInsert(s: seq<Entry>, e: Entry, n: nat)
    ensures Take(Insert(Take(s, n), e), n) == Take(Insert(s, e), n)
  {
    if |s| > n {
      if n == 0 {
      } else if Older(e, s[0]) {
        assert Insert(Take(s, n), e) == [e] + s[..n];
      } else {
        TakeInsert(s[1..], e, n - 1);
        InsertMembers(s[1..], e);
        InsertMembers(s[1..][..n - 1], e);
        assert s[..n][1..] == s[1..][..n - 1];
        assert Insert(s[..n], e) == [s[0]] + Insert(s[1..][..n - 1], e);
      }
    }
  }

  // Inserting in place: at the first younger entry.
  lemma {:induction false} InsertAt(s: seq<Entry>, e: Entry, p: nat)
    requires p <= |s| && (forall i :: 0 <= i < p ==> !Older(e, s[i])) && (p < |s| ==> Older(e, s[p]))
    ensures Insert(s, e) == s[..p] + [e] + s[p..]
  {
    if p > 0 {
      InsertAt(s[1..], e, p - 1);
      assert s[..p] == [s[0]] + s[1..][..p - 1];
    }
  }
}
