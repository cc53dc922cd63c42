/** What several modules share: an optional value, the bytes of a string, and regrouping a concatenation. */
module Common {
  import opened Bits

  datatype Option<+T> = None | Some(value: T)

  // The bytes of a string without characters beyond the first 256.
  function Bytes(s: string): seq<byte> {
    if s == "" then [] else Bytes(s[..|s| - 1]) + [s[|s| - 1] as int % 256]
  }

  lemma {:induction false} BytesLength(s: string)
    ensures |Bytes(s)| == |s|
  {
    if s != "" {
      BytesLength(s[..|s| - 1]);
    }
  }

  lemma {:induction false} BytesAt(s: string, i: nat)
    requires i < |s|
    ensures |Bytes(s)| == |s| && Bytes(s)[i] == s[i] as int % 256
    decreases |s|
  {
    BytesLength(s);
    BytesLength(s[..|s| - 1]);
    if i < |s| - 1 {
      BytesAt(s[..|s| - 1], i);
    }
  }

  lemma BytesAre(s: string, bytes: seq<byte>)
    requires |s| == |bytes| && forall i :: 0 <= i < |s| ==> s[i] as int == bytes[i]
    ensures Bytes(s) == bytes
  {
    BytesLength(s);
    forall i | 0 <= i < |s|
      ensures Bytes(s)[i] == bytes[i]
    {
      BytesAt(s, i);
    }
  }

  lemma {:induction false} BytesDiffer(s: string, t: string)
    requires forall i :: 0 <= i < |s| ==> s[i] as int < 256
    requires forall i :: 0 <= i < |t| ==> t[i] as int < 256
    ensures Bytes(s) == Bytes(t) <==> s == t
  {
    BytesLength(s);
    BytesLength(t);
    if s != "" && Bytes(s) == Bytes(t) {
      var before, others := s[..|s| - 1], t[..|t| - 1];
      BytesLength(before);
      BytesLength(others);
      assert Bytes(before) == Bytes(s)[..|before|] && Bytes(others) == Bytes(t)[..|others|];
      BytesDiffer(before, others);
      assert s == before + [s[|s| - 1]] && t == others + [t[|t| - 1]];
    }
  }

  // What comes before the first b is told by the whole, and so is what comes after it.
  lemma FirstPart<T>(s: seq<T>, x: seq<T>, t: seq<T>, y: seq<T>, b: T)
    requires s + [b] + x == t + [b] + y && b !in s && b !in t
    ensures s == t && x == y
  {
    var all := s + [b] + x;
    assert all[|s|] == b && forall i :: 0 <= i < |s| ==> all[i] == s[i];
    assert (t + [b] + y)[|t|] == b && forall i :: 0 <= i < |t| ==> (t + [b] + y)[i] == t[i];
    assert |s| == |t|;
    assert s == all[..|s|] && t == all[..|t|] && x == all[|s| + 1..] && y == all[|t| + 1..];
  }

  lemma Regroup<T>(a: seq<T>, b: seq<T>, c: seq<T>)
    ensures a + b + c == a + (b + c)
  {
  }
}
