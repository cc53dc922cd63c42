/** The ZIP archive of the bug report, and a reader of such archives. */
module Zip {
  import opened Common
  import opened Bits
  import opened Crc
  import opened Inflate
  import opened Lz77
  import opened DeflateWriter

  datatype Entry = Entry(name: seq<byte>, data: seq<byte>)

  // What a reader finds of an entry: besides its name and data the versions, the time and the date,
  // the disk it starts on and its attributes.
  datatype Found = Found(
    name: seq<byte>, data: seq<byte>, madeBy: nat, needed: nat, time: nat, date: nat,
    disk: nat, internal: nat, external: nat)

  // ----- The reader: APPNOTE sections 4.3.7 (local header), 4.3.12 (directory), 4.3.16 (end record) -----

  // Two and four bytes, least significant first.
  function U16(a: seq<byte>, at: nat): nat
    requires at + 2 <= |a|
  {
    var low: int, high: int := a[at], a[at + 1];
    low + 0x100 * high
  }

  function U32(a: seq<byte>, at: nat): nat
    requires at + 4 <= |a|
  {
    U16(a, at) + 0x1_0000 * U16(a, at + 2)
  }

  // Each field at its own offset: signature, version needed, flags, method, time, date, checksum,
  // both sizes, length of the name, length of the extra field.
  function LocalRecord(a: seq<byte>, at: nat): (values: seq<nat>)
    requires at + 30 <= |a|
    ensures |values| == 11
  {
    [U32(a, at), U16(a, at + 4), U16(a, at + 6), U16(a, at + 8), U16(a, at + 10), U16(a, at + 12), U32(a, at + 14),
     U32(a, at + 18), U32(a, at + 22), U16(a, at + 26), U16(a, at + 28)]
  }

  // Signature, version made by, the ten fields of the local header after its signature, length of the
  // comment, disk, internal and external attributes, offset of the local header.
  function CentralRecord(a: seq<byte>, at: nat): (values: seq<nat>)
    requires at + 46 <= |a|
    ensures |values| == 17
  {
    [U32(a, at), U16(a, at + 4), U16(a, at + 6), U16(a, at + 8), U16(a, at + 10), U16(a, at + 12), U16(a, at + 14),
     U32(a, at + 16), U32(a, at + 20), U32(a, at + 24), U16(a, at + 28), U16(a, at + 30), U16(a, at + 32),
     U16(a, at + 34), U16(a, at + 36), U32(a, at + 38), U32(a, at + 42)]
  }

  // Signature, both disks, both counts, size and offset of the directory, length of the comment.
  function EndRecord(a: seq<byte>, at: nat): (values: seq<nat>)
    requires at + 22 <= |a|
    ensures |values| == 8
  {
    [U32(a, at), U16(a, at + 4), U16(a, at + 6), U16(a, at + 8), U16(a, at + 10), U32(a, at + 12), U32(a, at + 16),
     U16(a, at + 20)]
  }

  // The data a body stands for, by compression method, sizes and checksum.
  function Restore(method_: nat, crc: nat, size: nat, body: seq<byte>): Option<seq<byte>> {
    if method_ == 0 then
      if |body| == size && Crc32(body) == crc then Some(body) else None
    else if method_ == 8 then
      var data := Stream(body);
      if data.Got? && |data.value| == size && Crc32(data.value) == crc then Some(data.value) else None
    else None
  }

  // With what its directory record says besides.
  function FoundBy(record: seq<nat>, name: seq<byte>, data: Option<seq<byte>>): Option<Found>
    requires |record| == 17
  {
    if data.None? then None
    else
      Some(Found(name, data.value, record[1], record[2], record[5], record[6], record[13], record[14], record[15]))
  }

  // The entry behind a directory record, through its local header, which must agree with the record.
  function ReadLocal(a: seq<byte>, record: seq<nat>, name: seq<byte>): Option<Found>
    requires |record| == 17
  {
    var at := record[16];
    if at + 30 > |a| then None
    else
      var local, named := LocalRecord(a, at), at + 30;
      var start := named + local[9] + local[10];
      if local[0] != 0x04034B50 || local[1..] != record[2..12] || start + local[7] > |a| then None
      else if a[named..named + local[9]] != name then None
      else FoundBy(record, name, Restore(local[3], local[6], local[8], a[start..start + local[7]]))
  }

  function Prepend(entry: Found, others: Option<seq<Found>>): Option<seq<Found>> {
    if others.None? then None else Some([entry] + others.value)
  }

  function ReadDirectory(a: seq<byte>, at: nat, end: nat, count: nat): Option<seq<Found>>
    requires at <= end <= |a|
    decreases count
  {
    if count == 0 then if at == end then Some([]) else None
    else if at + 46 > end then None
    else
      var record, named := CentralRecord(a, at), at + 46;
      var next := named + record[10] + record[11] + record[12];
      if record[0] != 0x02014B50 || record[3] != 0 || next > end then None
      else
        var entry := ReadLocal(a, record, a[named..named + record[10]]);
        if entry.None? then None
        else Prepend(entry.value, ReadDirectory(a, next, end, count - 1))
  }

  // From the end-of-central-directory record in the last 22 bytes.
  function Read(a: seq<byte>): Option<seq<Found>> {
    if |a| < 22 then None
    else
      var at := |a| - 22;
      var end := EndRecord(a, at);
      if end[0] != 0x06054B50 || end[1] != 0 || end[2] != 0 || end[3] != end[4] || end[7] != 0 then None
      else if end[6] + end[5] != at then None
      else ReadDirectory(a, end[6], at, end[4])
  }

  // ----- The writer's fields -----

  // The low bytes of a value, least significant first.
  function Little(v: nat, width: nat): (bytes: seq<byte>)
    ensures |bytes| == width
    decreases width
  {
    if width == 0 then [] else [LowByte(v)] + Little(Shr(v, 8), width - 1)
  }

  // Fields one after the other: each value in as many bytes as its width says.
  function Encode(widths: seq<nat>, values: seq<nat>): (bytes: seq<byte>)
    requires |widths| == |values|
    ensures |bytes| == Total(widths)
  {
    if widths == [] then [] else Little(values[0], widths[0]) + Encode(widths[1..], values[1..])
  }

  function FromLittle(bytes: seq<byte>): nat {
    if bytes == [] then 0 else bytes[0] + Shl(FromLittle(bytes[1..]), 8)
  }

  function Total(widths: seq<nat>): nat {
    if widths == [] then 0 else widths[0] + Total(widths[1..])
  }

  // The fields at `at`, one after the other by their widths.
  function Decode(a: seq<byte>, at: nat, widths: seq<nat>): (values: seq<nat>)
    requires at + Total(widths) <= |a|
    ensures |values| == |widths|
    decreases |widths|
  {
    if widths == [] then []
    else [FromLittle(a[at..at + widths[0]])] + Decode(a, at + widths[0], widths[1..])
  }

  // No field is truncated: every value fits its two or four bytes.
  ghost predicate Fit(widths: seq<nat>, values: seq<nat>) {
    && |widths| == |values|
    && forall i :: 0 <= i < |values| ==>
         (widths[i] == 2 && values[i] < 0x1_0000) || (widths[i] == 4 && values[i] < 0x1_0000_0000)
  }

  lemma {:induction false} LittleInverse(v: nat, width: nat)
    requires v < Pow2(8 * width)
    ensures FromLittle(Little(v, width)) == v
    decreases width
  {
    hide Low, Shl, Shr;
    if width > 0 {
      var high := Shr(v, 8);
      SplitWord(v, 8);
      ShrBound(v, 8, 8 * (width - 1));
      LittleInverse(high, width - 1);
      assert Little(v, width)[1..] == Little(high, width - 1);
    }
  }

  lemma FieldInverse(v: nat, width: nat)
    requires (width == 2 && v < 0x1_0000) || (width == 4 && v < 0x1_0000_0000)
    ensures FromLittle(Little(v, width)) == v
  {
    Pow2Word();
    LittleInverse(v, width);
  }

  // The bytes of `part` stand at `at`.
  ghost predicate At(a: seq<byte>, at: nat, part: seq<byte>) {
    at + |part| <= |a| && a[at..at + |part|] == part
  }

  lemma Part(a: seq<byte>, at: nat, all: seq<byte>, i: nat, j: nat)
    requires i <= j <= |all| && At(a, at, all)
    ensures At(a, at + i, all[i..j])
  {
    forall t | 0 <= t < j - i
      ensures a[at + i..at + j][t] == all[i..j][t]
    {
      assert all[i + t] == a[at..at + |all|][i + t];
    }
  }

  lemma {:induction false} DecodeInvertsEncode(a: seq<byte>, at: nat, widths: seq<nat>, values: seq<nat>)
    requires Fit(widths, values)
    requires At(a, at, Encode(widths, values))
    ensures Decode(a, at, widths) == values
    decreases |widths|
  {
    hide Little, FromLittle;
    if widths != [] {
      var w, all := widths[0], Encode(widths, values);
      Part(a, at, all, 0, w);
      Part(a, at, all, w, |all|);
      assert all[..w] == Little(values[0], w) && all[w..] == Encode(widths[1..], values[1..]);
      FieldInverse(values[0], w);
      DecodeInvertsEncode(a, at + w, widths[1..], values[1..]);
      assert values == [values[0]] + values[1..];
    }
  }

  // The widths of the writer's fields.
  const LOCAL_WIDTHS: seq<nat> := [4, 2, 2, 2, 2, 2, 4, 4, 4, 2, 2]
  const CENTRAL_WIDTHS: seq<nat> := [4, 2, 2, 2, 2, 2, 2, 4, 4, 4, 2, 2, 2, 2, 2, 4, 4]
  const END_WIDTHS: seq<nat> := [4, 2, 2, 2, 2, 4, 4, 2]

  // ----- The writer's layout -----

  // One archived entry: deflated (method 8) or stored (method 0).
  datatype Packed = Packed(name: seq<byte>, data: seq<byte>, crc: nat, deflated: bool, body: seq<byte>)

  ghost predicate Faithful(p: Packed) {
    && p.crc == Crc32(p.data)
    && if p.deflated then Stream(p.body).Got? && Stream(p.body).value == p.data else p.body == p.data
  }

  function SharedFields(p: Packed, time: nat, date: nat): (values: seq<nat>)
    ensures |values| == 10
  {
    [20, 0, if p.deflated then 8 else 0, time, date, p.crc, |p.body|, |p.data|, |p.name|, 0]
  }

  function LocalHeader(p: Packed, time: nat, date: nat): (values: seq<nat>)
    ensures |values| == 11
  {
    [0x04034B50] + SharedFields(p, time, date)
  }

  function CentralHeader(p: Packed, time: nat, date: nat, offset: nat): (values: seq<nat>)
    ensures |values| == 17
  {
    [0x02014B50, 20] + SharedFields(p, time, date) + [0, 0, 0, 0, offset]
  }

  function EndHeader(count: nat, size: nat, offset: nat): (values: seq<nat>)
    ensures |values| == 8
  {
    [0x06054B50, 0, 0, count, count, size, offset, 0]
  }

  function LocalBytes(values: seq<nat>): (bytes: seq<byte>)
    requires |values| == 11
    ensures |bytes| == 30
  {
    HeaderSizes();
    Encode(LOCAL_WIDTHS, values)
  }

  function CentralBytes(values: seq<nat>): (bytes: seq<byte>)
    requires |values| == 17
    ensures |bytes| == 46
  {
    HeaderSizes();
    Encode(CENTRAL_WIDTHS, values)
  }

  function EndBytes(values: seq<nat>): (bytes: seq<byte>)
    requires |values| == 8
    ensures |bytes| == 22
  {
    HeaderSizes();
    Encode(END_WIDTHS, values)
  }

  function Local(p: Packed, time: nat, date: nat): seq<byte> {
    LocalBytes(LocalHeader(p, time, date)) + p.name + p.body
  }

  function Central(p: Packed, time: nat, date: nat, offset: nat): seq<byte> {
    CentralBytes(CentralHeader(p, time, date, offset)) + p.name
  }

  function Locals(ps: seq<Packed>, time: nat, date: nat): seq<byte> {
    if ps == [] then [] else Locals(ps[..|ps| - 1], time, date) + Local(ps[|ps| - 1], time, date)
  }

  function Directory(ps: seq<Packed>, time: nat, date: nat): seq<byte> {
    if ps == [] then []
    else
      var before := ps[..|ps| - 1];
      Directory(before, time, date) + Central(ps[|ps| - 1], time, date, |Locals(before, time, date)|)
  }

  function Archive(ps: seq<Packed>, time: nat, date: nat): seq<byte> {
    var locals, directory := Locals(ps, time, date), Directory(ps, time, date);
    locals + directory + EndBytes(EndHeader(|ps|, |directory|, |locals|))
  }

  ghost predicate Sized(p: Packed) {
    Faithful(p) && |p.name| <= 0xFFFF && |p.data| <= 0xFFFF_FFFF && |p.body| <= |p.data|
  }

  function Entries(ps: seq<Packed>): (entries: seq<Entry>)
    ensures |entries| == |ps|
  {
    seq(|ps|, i requires 0 <= i < |ps| => Entry(ps[i].name, ps[i].data))
  }

  // What is to be found of an entry: both versions are 2.0, and there are no disks and no attributes.
  function Written(e: Entry, time: nat, date: nat): Found {
    Found(e.name, e.data, 20, 20, time, date, 0, 0, 0)
  }

  function AllWritten(entries: seq<Entry>, time: nat, date: nat): (found: seq<Found>)
    ensures |found| == |entries|
  {
    seq(|entries|, i requires 0 <= i < |entries| => Written(entries[i], time, date))
  }

  // ----- The fields stand at their offsets -----

  lemma LittleIs(a: seq<byte>, at: nat)
    ensures at + 2 <= |a| ==> FromLittle(a[at..at + 2]) == U16(a, at)
    ensures at + 4 <= |a| ==> FromLittle(a[at..at + 4]) == U32(a, at)
  {
    if at + 2 <= |a| {
      TwoBytes(a[at..at + 2]);
    }
    if at + 4 <= |a| {
      FourBytes(a[at..at + 4]);
    }
  }

  lemma TwoBytes(b: seq<byte>)
    requires |b| == 2
    ensures FromLittle(b) == b[0] as int + 0x100 * b[1] as int
  {
    assert FromLittle([]) == 0;
    assert b[1..] == [b[1]] && b[1..][1..] == [];
    ShlByte(0);
    assert FromLittle(b[1..]) == b[1];
    ShlByte(b[1]);
  }

  lemma FourBytes(b: seq<byte>)
    requires |b| == 4
    ensures FromLittle(b) == b[0] as int + 0x100 * b[1] as int + 0x1_0000 * (b[2] as int + 0x100 * b[3] as int)
  {
    TwoBytes(b[2..]);
    var rest := b[1..];
    assert rest[1..] == b[2..] && rest[0] == b[1];
    ShlByte(FromLittle(b[2..]));
    ShlByte(FromLittle(rest));
  }

  lemma ShlByte(v: nat)
    ensures Shl(v, 8) == 0x100 * v
  {
    assert Shl(v, 1) == 2 * v;
    assert Shl(v, 2) == 4 * v;
    assert Shl(v, 3) == 8 * v;
    assert Shl(v, 4) == 16 * v;
    assert Shl(v, 5) == 32 * v;
    assert Shl(v, 6) == 64 * v;
    assert Shl(v, 7) == 128 * v;
  }

  lemma FirstStands(widths: seq<nat>)
    ensures Total(widths[..0]) == 0
  {
  }

  // Field i stands where the widths before it end.
  lemma {:induction false} DecodeAt(a: seq<byte>, at: nat, widths: seq<nat>, i: nat, offset: nat)
    requires at + Total(widths) <= |a| && i < |widths| && Total(widths[..i]) == offset
    ensures at + offset + widths[i] <= |a|
    ensures Decode(a, at, widths)[i] == FromLittle(a[at + offset..at + offset + widths[i]])
    decreases |widths|
  {
    hide FromLittle;
    if i > 0 {
      assert widths[..i][1..] == widths[1..][..i - 1];
      DecodeAt(a, at + widths[0], widths[1..], i - 1, offset - widths[0]);
    }
  }

  // One field, and where the next one stands.
  lemma FieldStands(a: seq<byte>, at: nat, widths: seq<nat>, i: nat, offset: nat)
    requires at + Total(widths) <= |a| && i < |widths| && Total(widths[..i]) == offset
    ensures at + offset + widths[i] <= |a|
    ensures widths[i] == 2 ==> Decode(a, at, widths)[i] == U16(a, at + offset)
    ensures widths[i] == 4 ==> Decode(a, at, widths)[i] == U32(a, at + offset)
    ensures Total(widths[..i + 1]) == offset + widths[i]
  {
    DecodeAt(a, at, widths, i, offset);
    LittleIs(a, at + offset);
    assert widths[..i + 1] == widths[..i] + [widths[i]];
    TotalAppend(widths[..i], [widths[i]]);
    assert Total([widths[i]]) == widths[i];
  }

  lemma LocalStands(a: seq<byte>, at: nat)
    requires at + 30 <= |a|
    ensures at + Total(LOCAL_WIDTHS) <= |a| && LocalRecord(a, at) == Decode(a, at, LOCAL_WIDTHS)
  {
    HeaderSizes();
    hide Total, Decode, FromLittle, U16, U32;
    FirstStands(LOCAL_WIDTHS);
    FieldStands(a, at, LOCAL_WIDTHS, 0, 0);
    FieldStands(a, at, LOCAL_WIDTHS, 1, 4);
    FieldStands(a, at, LOCAL_WIDTHS, 2, 6);
    FieldStands(a, at, LOCAL_WIDTHS, 3, 8);
    FieldStands(a, at, LOCAL_WIDTHS, 4, 10);
    FieldStands(a, at, LOCAL_WIDTHS, 5, 12);
    FieldStands(a, at, LOCAL_WIDTHS, 6, 14);
    FieldStands(a, at, LOCAL_WIDTHS, 7, 18);
    FieldStands(a, at, LOCAL_WIDTHS, 8, 22);
    FieldStands(a, at, LOCAL_WIDTHS, 9, 26);
    FieldStands(a, at, LOCAL_WIDTHS, 10, 28);
  }

  lemma CentralStandsFirst(a: seq<byte>, at: nat)
    requires at + 46 <= |a| && Total(CENTRAL_WIDTHS) == 46
    ensures CentralRecord(a, at)[..10] == Decode(a, at, CENTRAL_WIDTHS)[..10]
    ensures Total(CENTRAL_WIDTHS[..10]) == 28
  {
    hide Total, Decode, FromLittle, U16, U32;
    FirstStands(CENTRAL_WIDTHS);
    FieldStands(a, at, CENTRAL_WIDTHS, 0, 0);
    FieldStands(a, at, CENTRAL_WIDTHS, 1, 4);
    FieldStands(a, at, CENTRAL_WIDTHS, 2, 6);
    FieldStands(a, at, CENTRAL_WIDTHS, 3, 8);
    FieldStands(a, at, CENTRAL_WIDTHS, 4, 10);
    FieldStands(a, at, CENTRAL_WIDTHS, 5, 12);
    FieldStands(a, at, CENTRAL_WIDTHS, 6, 14);
    FieldStands(a, at, CENTRAL_WIDTHS, 7, 16);
    FieldStands(a, at, CENTRAL_WIDTHS, 8, 20);
    FieldStands(a, at, CENTRAL_WIDTHS, 9, 24);
  }

  lemma CentralStandsRest(a: seq<byte>, at: nat)
    requires at + 46 <= |a| && Total(CENTRAL_WIDTHS) == 46 && Total(CENTRAL_WIDTHS[..10]) == 28
    ensures CentralRecord(a, at)[10..] == Decode(a, at, CENTRAL_WIDTHS)[10..]
  {
    hide Total, Decode, FromLittle, U16, U32;
    FieldStands(a, at, CENTRAL_WIDTHS, 10, 28);
    FieldStands(a, at, CENTRAL_WIDTHS, 11, 30);
    FieldStands(a, at, CENTRAL_WIDTHS, 12, 32);
    FieldStands(a, at, CENTRAL_WIDTHS, 13, 34);
    FieldStands(a, at, CENTRAL_WIDTHS, 14, 36);
    FieldStands(a, at, CENTRAL_WIDTHS, 15, 38);
    FieldStands(a, at, CENTRAL_WIDTHS, 16, 42);
  }

  lemma CentralStands(a: seq<byte>, at: nat)
    requires at + 46 <= |a|
    ensures at + Total(CENTRAL_WIDTHS) <= |a| && CentralRecord(a, at) == Decode(a, at, CENTRAL_WIDTHS)
  {
    HeaderSizes();
    hide Total, Decode, CentralRecord;
    CentralStandsFirst(a, at);
    CentralStandsRest(a, at);
    Halves(CentralRecord(a, at), Decode(a, at, CENTRAL_WIDTHS), 10);
  }

  lemma Halves<T>(s: seq<T>, t: seq<T>, n: nat)
    requires n <= |s| && |s| == |t| && s[..n] == t[..n] && s[n..] == t[n..]
    ensures s == t
  {
    assert s == s[..n] + s[n..] && t == t[..n] + t[n..];
  }

  lemma EndStands(a: seq<byte>, at: nat)
    requires at + 22 <= |a|
    ensures at + Total(END_WIDTHS) <= |a| && EndRecord(a, at) == Decode(a, at, END_WIDTHS)
  {
    HeaderSizes();
    hide Total, Decode, FromLittle, U16, U32;
    FirstStands(END_WIDTHS);
    FieldStands(a, at, END_WIDTHS, 0, 0);
    FieldStands(a, at, END_WIDTHS, 1, 4);
    FieldStands(a, at, END_WIDTHS, 2, 6);
    FieldStands(a, at, END_WIDTHS, 3, 8);
    FieldStands(a, at, END_WIDTHS, 4, 10);
    FieldStands(a, at, END_WIDTHS, 5, 12);
    FieldStands(a, at, END_WIDTHS, 6, 16);
    FieldStands(a, at, END_WIDTHS, 7, 20);
  }

  // ----- The reader recovers the entries -----

  lemma CrcFits(data: seq<byte>)
    ensures Crc32(data) < 0x1_0000_0000
  {
    OnesFit();
    FeedBound(ONES, Unpack(data));
    XorBound(Feed(ONES, Unpack(data)), ONES, 32);
    Pow2Word();
  }

  lemma LocalRoundTrip(a: seq<byte>, at: nat, p: Packed, time: nat, date: nat)
    requires Sized(p) && time < 0x1_0000 && date < 0x1_0000
    requires At(a, at, LocalBytes(LocalHeader(p, time, date)))
    ensures LocalRecord(a, at) == LocalHeader(p, time, date)
  {
    hide Crc32, Decode, Encode, Total;
    CrcFits(p.data);
    HeaderSizes();
    assert Fit(LOCAL_WIDTHS, LocalHeader(p, time, date));
    DecodeInvertsEncode(a, at, LOCAL_WIDTHS, LocalHeader(p, time, date));
    LocalStands(a, at);
  }

  lemma CentralRoundTrip(a: seq<byte>, at: nat, p: Packed, time: nat, date: nat, offset: nat)
    requires Sized(p) && time < 0x1_0000 && date < 0x1_0000 && offset < 0x1_0000_0000
    requires At(a, at, CentralBytes(CentralHeader(p, time, date, offset)))
    ensures CentralRecord(a, at) == CentralHeader(p, time, date, offset)
  {
    hide Crc32, Decode, Encode, Total;
    CrcFits(p.data);
    HeaderSizes();
    assert Fit(CENTRAL_WIDTHS, CentralHeader(p, time, date, offset));
    DecodeInvertsEncode(a, at, CENTRAL_WIDTHS, CentralHeader(p, time, date, offset));
    CentralStands(a, at);
  }

  lemma EndRoundTrip(a: seq<byte>, at: nat, count: nat, size: nat, offset: nat)
    requires count < 0x1_0000 && size < 0x1_0000_0000 && offset < 0x1_0000_0000
    requires At(a, at, EndBytes(EndHeader(count, size, offset)))
    ensures EndRecord(a, at) == EndHeader(count, size, offset)
  {
    hide Decode, Encode, Total;
    HeaderSizes();
    assert Fit(END_WIDTHS, EndHeader(count, size, offset));
    DecodeInvertsEncode(a, at, END_WIDTHS, EndHeader(count, size, offset));
    EndStands(a, at);
  }

  lemma HeaderSizes()
    ensures Total(LOCAL_WIDTHS) == 30 && Total(CENTRAL_WIDTHS) == 46 && Total(END_WIDTHS) == 22
  {
    LocalSize();
    CentralSize();
    EndSize();
  }

  lemma LocalSize()
    ensures Total(LOCAL_WIDTHS) == 30
  {
    assert LOCAL_WIDTHS == [4, 2, 2, 2] + ([2, 2, 4, 4] + [4, 2, 2]);
    TotalAppend([4, 2, 2, 2], [2, 2, 4, 4] + [4, 2, 2]);
    TotalAppend([2, 2, 4, 4], [4, 2, 2]);
    TotalOfFour(4, 2, 2, 2);
    TotalOfFour(2, 2, 4, 4);
    TotalOfThree(4, 2, 2);
  }

  lemma CentralSize()
    ensures Total(CENTRAL_WIDTHS) == 46
  {
    assert CENTRAL_WIDTHS == [4, 2, 2] + ([2, 2, 2, 2] + ([4, 4, 4] + ([2, 2, 2, 2] + [2, 4, 4])));
    TotalAppend([4, 2, 2], [2, 2, 2, 2] + ([4, 4, 4] + ([2, 2, 2, 2] + [2, 4, 4])));
    TotalAppend([2, 2, 2, 2], [4, 4, 4] + ([2, 2, 2, 2] + [2, 4, 4]));
    TotalAppend([4, 4, 4], [2, 2, 2, 2] + [2, 4, 4]);
    TotalAppend([2, 2, 2, 2], [2, 4, 4]);
    TotalOfThree(4, 2, 2);
    TotalOfFour(2, 2, 2, 2);
    TotalOfThree(4, 4, 4);
    TotalOfThree(2, 4, 4);
  }

  lemma EndSize()
    ensures Total(END_WIDTHS) == 22
  {
    assert END_WIDTHS == [4, 2, 2, 2] + [2, 4, 4, 2];
    TotalAppend([4, 2, 2, 2], [2, 4, 4, 2]);
    TotalOfFour(4, 2, 2, 2);
    TotalOfFour(2, 4, 4, 2);
  }

  lemma TotalOfThree(a: nat, b: nat, c: nat)
    ensures Total([a, b, c]) == a + b + c
  {
    assert [a, b, c][1..] == [b, c] && [b, c][1..] == [c] && [c][1..] == [];
    assert Total([c]) == c;
    assert Total([b, c]) == b + c;
  }

  lemma TotalOfFour(a: nat, b: nat, c: nat, d: nat)
    ensures Total([a, b, c, d]) == a + b + c + d
  {
    assert [a, b, c, d][1..] == [b, c, d];
    TotalOfThree(b, c, d);
  }

  lemma {:induction false} TotalAppend(a: seq<nat>, b: seq<nat>)
    ensures Total(a + b) == Total(a) + Total(b)
  {
    if a == [] {
      assert a + b == b;
    } else {
      assert (a + b)[1..] == a[1..] + b;
      TotalAppend(a[1..], b);
    }
  }

  // ----- The reader recovers the entries -----

  lemma SameCommon(p: Packed, time: nat, date: nat, offset: nat)
    ensures CentralHeader(p, time, date, offset)[2..12] == LocalHeader(p, time, date)[1..]
  {
    hide SharedFields;
  }

  // The archive holds p's record at `at`: its local header, name and body.
  lemma LocalRead(a: seq<byte>, at: nat, p: Packed, time: nat, date: nat)
    requires Sized(p) && time < 0x1_0000 && date < 0x1_0000
    requires At(a, at, Local(p, time, date))
    ensures ReadLocal(a, CentralHeader(p, time, date, at), p.name)
         == Some(Written(Entry(p.name, p.data), time, date))
  {
    hide Crc32, Stream, LocalRecord, LocalBytes;
    var all, n := Local(p, time, date), 30 + |p.name|;
    Part(a, at, all, 0, 30);
    assert all[..30] == LocalBytes(LocalHeader(p, time, date));
    LocalRoundTrip(a, at, p, time, date);
    Part(a, at, all, 30, n);
    assert all[30..n] == p.name;
    Part(a, at, all, n, |all|);
    assert all[n..] == p.body;
    SameCommon(p, time, date, at);
  }

  // Where the k-th local header and directory record start.
  function LocalAt(ps: seq<Packed>, k: nat, time: nat, date: nat): nat
    requires k <= |ps|
  {
    |Locals(ps[..k], time, date)|
  }

  function RecordAt(ps: seq<Packed>, k: nat, time: nat, date: nat): nat
    requires k <= |ps|
  {
    |Directory(ps[..k], time, date)|
  }

  lemma {:induction false} LocalsHold(ps: seq<Packed>, k: nat, time: nat, date: nat)
    requires k < |ps|
    ensures LocalAt(ps, k + 1, time, date) == LocalAt(ps, k, time, date) + |Local(ps[k], time, date)|
    ensures At(Locals(ps, time, date), LocalAt(ps, k, time, date), Local(ps[k], time, date))
    decreases |ps|
  {
    hide Local;
    var last := |ps| - 1;
    assert ps[..k + 1][..k] == ps[..k];
    if k == last {
      assert ps[..k + 1] == ps;
    } else {
      var before := ps[..last];
      LocalsHold(before, k, time, date);
      assert before[..k] == ps[..k] && before[..k + 1] == ps[..k + 1];
    }
  }

  function RecordOf(ps: seq<Packed>, k: nat, time: nat, date: nat): seq<byte>
    requires k < |ps|
  {
    Central(ps[k], time, date, LocalAt(ps, k, time, date))
  }

  lemma {:induction false} DirectoryHolds(ps: seq<Packed>, k: nat, time: nat, date: nat)
    requires k < |ps|
    ensures RecordAt(ps, k + 1, time, date) == RecordAt(ps, k, time, date) + |RecordOf(ps, k, time, date)|
    ensures At(Directory(ps, time, date), RecordAt(ps, k, time, date), RecordOf(ps, k, time, date))
    decreases |ps|
  {
    hide Central, Locals;
    var last := |ps| - 1;
    assert ps[..k + 1][..k] == ps[..k];
    if k == last {
      assert ps[..k + 1] == ps;
    } else {
      var before := ps[..last];
      DirectoryHolds(before, k, time, date);
      assert before[..k] == ps[..k] && before[..k + 1] == ps[..k + 1];
    }
  }

  ghost predicate Fits(ps: seq<Packed>, time: nat, date: nat) {
    && time < 0x1_0000 && date < 0x1_0000
    && |ps| <= 0xFFFF && |Archive(ps, time, date)| <= 0xFFFF_FFFF
    && forall p :: p in ps ==> Sized(p)
  }

  // The directory from a place on, where that is in the archive.
  function ReadRest(a: seq<byte>, at: nat, end: nat, count: int): Option<seq<Found>> {
    if at <= end <= |a| && count >= 0 then ReadDirectory(a, at, end, count) else None
  }

  // The entries read from the k-th directory record on.
  function ReadFrom(ps: seq<Packed>, k: nat, time: nat, date: nat): Option<seq<Found>>
    requires k <= |ps|
  {
    var base := |Locals(ps, time, date)|;
    ReadRest(Archive(ps, time, date), base + RecordAt(ps, k, time, date), base + |Directory(ps, time, date)|, |ps| - k)
  }

  lemma {:induction false} DirectoryRead(ps: seq<Packed>, k: nat, time: nat, date: nat)
    requires Fits(ps, time, date) && k <= |ps|
    ensures RecordAt(ps, k, time, date) <= |Directory(ps, time, date)|
    ensures ReadFrom(ps, k, time, date) == Some(AllWritten(Entries(ps), time, date)[k..])
    decreases |ps| - k
  {
    hide *;
    if k == |ps| {
      DirectoryEnd(ps, time, date);
      assert AllWritten(Entries(ps), time, date)[k..] == [];
    } else {
      DirectoryRead(ps, k + 1, time, date);
      DirectoryHolds(ps, k, time, date);
      DirectoryStep(ps, k, time, date);
      NthEntry(ps, k, time, date);
    }
  }

  lemma NthEntry(ps: seq<Packed>, k: nat, time: nat, date: nat)
    requires k < |ps|
    ensures
      var all := AllWritten(Entries(ps), time, date);
      Prepend(Written(Entry(ps[k].name, ps[k].data), time, date), Some(all[k + 1..])) == Some(all[k..])
  {
    var all := AllWritten(Entries(ps), time, date);
    assert all[k..] == [all[k]] + all[k + 1..];
  }

  lemma DirectoryEnd(ps: seq<Packed>, time: nat, date: nat)
    ensures RecordAt(ps, |ps|, time, date) == |Directory(ps, time, date)|
    ensures ReadFrom(ps, |ps|, time, date) == Some([])
  {
    ArchiveLength(ps, time, date);
    hide Archive, Locals, Directory;
    assert ps[..|ps|] == ps;
  }

  lemma DirectoryStep(ps: seq<Packed>, k: nat, time: nat, date: nat)
    requires Fits(ps, time, date) && k < |ps|
    requires RecordAt(ps, k + 1, time, date) <= |Directory(ps, time, date)|
    ensures ReadFrom(ps, k, time, date)
         == Prepend(Written(Entry(ps[k].name, ps[k].data), time, date), ReadFrom(ps, k + 1, time, date))
  {
    hide Archive, Central, ReadDirectory, Locals, Directory, LocalAt, RecordAt, CentralHeader, Prepend, LeadsTo;
    var off, base := LocalAt(ps, k, time, date), |Locals(ps, time, date)|;
    RecordLeads(ps, k, time, date);
    DirectoryHolds(ps, k, time, date);
    ArchiveLength(ps, time, date);
    ReadStep(Archive(ps, time, date), base + RecordAt(ps, k, time, date), base + |Directory(ps, time, date)|, |ps| - k,
             off, ps[k], time, date);
  }

  lemma ArchiveLength(ps: seq<Packed>, time: nat, date: nat)
    ensures |Archive(ps, time, date)| == |Locals(ps, time, date)| + |Directory(ps, time, date)| + 22
  {
    hide Locals, Directory, EndBytes;
  }

  lemma RecordLeads(ps: seq<Packed>, k: nat, time: nat, date: nat)
    requires Fits(ps, time, date) && k < |ps|
    ensures LeadsTo(Archive(ps, time, date), |Locals(ps, time, date)| + RecordAt(ps, k, time, date),
                    CentralHeader(ps[k], time, date, LocalAt(ps, k, time, date)), ps[k], time, date)
  {
    hide Archive, Central, Local, Locals, Directory, LocalAt, RecordAt, CentralHeader, LeadsTo, Sized;
    LocalHeld(ps, k, time, date);
    RecordHeld(ps, k, time, date);
    RecordRead(Archive(ps, time, date), |Locals(ps, time, date)| + RecordAt(ps, k, time, date),
               LocalAt(ps, k, time, date), ps[k], time, date);
  }

  lemma ReadStep(a: seq<byte>, at: nat, end: nat, count: nat, off: nat, p: Packed, time: nat, date: nat)
    requires LeadsTo(a, at, CentralHeader(p, time, date, off), p, time, date)
    requires at + |Central(p, time, date, off)| <= end <= |a| && count > 0
    ensures ReadRest(a, at, end, count) ==
            Prepend(Written(Entry(p.name, p.data), time, date),
              ReadRest(a, at + |Central(p, time, date, off)|, end, count - 1))
  {
    hide CentralRecord, ReadLocal, CentralHeader, CentralBytes;
    HeaderLengths(p, time, date, off);
  }

  lemma HeaderLengths(p: Packed, time: nat, date: nat, offset: nat)
    ensures
      var header := CentralHeader(p, time, date, offset);
      header[0] == 0x02014B50 && header[3] == 0 && header[10] == |p.name| && header[11] == 0 && header[12] == 0
  {
  }

  // The archive holds the k-th local and directory records where they are looked for.
  lemma LocalHeld(ps: seq<Packed>, k: nat, time: nat, date: nat)
    requires k < |ps|
    ensures At(Archive(ps, time, date), LocalAt(ps, k, time, date), Local(ps[k], time, date))
  {
    hide Central, Local, Locals, Directory, EndBytes;
    var a, locals := Archive(ps, time, date), Locals(ps, time, date);
    LocalsHold(ps, k, time, date);
    assert At(a, 0, locals);
    Part(a, 0, locals, LocalAt(ps, k, time, date), LocalAt(ps, k + 1, time, date));
  }

  lemma RecordHeld(ps: seq<Packed>, k: nat, time: nat, date: nat)
    requires k < |ps|
    ensures At(Archive(ps, time, date), |Locals(ps, time, date)| + RecordAt(ps, k, time, date),
               Central(ps[k], time, date, LocalAt(ps, k, time, date)))
  {
    hide Central, Local, Locals, Directory, EndBytes;
    var a, locals, directory := Archive(ps, time, date), Locals(ps, time, date), Directory(ps, time, date);
    DirectoryHolds(ps, k, time, date);
    assert At(a, |locals|, directory);
    Part(a, |locals|, directory, RecordAt(ps, k, time, date), RecordAt(ps, k + 1, time, date));
  }

  // The directory record at `at` has these fields and p's name, and the reader finds p behind it.
  ghost predicate LeadsTo(a: seq<byte>, at: nat, header: seq<nat>, p: Packed, time: nat, date: nat) {
    && |header| == 17 && at + 46 <= |a| && CentralRecord(a, at) == header
    && At(a, at + 46, p.name)
    && ReadLocal(a, header, p.name) == Some(Written(Entry(p.name, p.data), time, date))
  }

  lemma RecordRead(a: seq<byte>, at: nat, off: nat, p: Packed, time: nat, date: nat)
    requires Sized(p) && time < 0x1_0000 && date < 0x1_0000 && off < 0x1_0000_0000
    requires At(a, off, Local(p, time, date)) && At(a, at, Central(p, time, date, off))
    ensures LeadsTo(a, at, CentralHeader(p, time, date, off), p, time, date)
  {
    hide Crc32, Stream, CentralRecord, CentralBytes, CentralHeader, ReadLocal, Local, Sized;
    LocalRead(a, off, p, time, date);
    var record := Central(p, time, date, off);
    Part(a, at, record, 0, 46);
    assert record[..46] == CentralBytes(CentralHeader(p, time, date, off));
    CentralRoundTrip(a, at, p, time, date, off);
    Part(a, at, record, 46, |record|);
    assert record[46..] == p.name;
  }

  // Reading back an archive whose sizes fit gives the entries, in order.
  lemma ReadInvertsArchive(ps: seq<Packed>, time: nat, date: nat)
    requires Fits(ps, time, date)
    ensures Read(Archive(ps, time, date)) == Some(AllWritten(Entries(ps), time, date))
  {
    hide EndRecord, EndBytes, ReadDirectory, Locals, Directory, RecordAt;
    var a, locals, directory := Archive(ps, time, date), Locals(ps, time, date), Directory(ps, time, date);
    var at := |locals| + |directory|;
    assert At(a, at, EndBytes(EndHeader(|ps|, |directory|, |locals|)));
    EndRoundTrip(a, at, |ps|, |directory|, |locals|);
    DirectoryRead(ps, 0, time, date);
    EmptyDirectory(ps, time, date);
    var all := AllWritten(Entries(ps), time, date);
    assert all[0..] == all;
  }

  lemma EmptyDirectory(ps: seq<Packed>, time: nat, date: nat)
    ensures RecordAt(ps, 0, time, date) == 0
  {
    assert ps[..0] == [];
  }

  // ----- The writer -----

  // An entry takes its deflated size where that is smaller than the data.
  function StoredSize(data: seq<byte>): nat {
    var packed := (|DeflateBits(data)| + 7) / 8;
    if packed < |data| then packed else |data|
  }

  function ArchiveSize(entries: seq<Entry>): nat {
    22 + RecordSizes(entries)
  }

  function RecordSizes(entries: seq<Entry>): nat {
    if entries == [] then 0
    else
      var e := entries[|entries| - 1];
      RecordSizes(entries[..|entries| - 1]) + 76 + 2 * |e.name| + StoredSize(e.data)
  }

  ghost predicate Admitted(entries: seq<Entry>) {
    && |entries| <= 0xFFFF && ArchiveSize(entries) <= 0xFFFF_FFFF
    && forall e :: e in entries ==> |e.name| <= 0xFFFF && |e.data| <= 0xFFFF_FFFF
  }

  method Pack(e: Entry) returns (p: Packed)
    ensures Faithful(p) && p.name == e.name && p.data == e.data
    ensures |p.body| == StoredSize(e.data) <= |e.data|
  {
    hide Crc32, Stream, DeflateBits;
    var crc := ZipCrc32(e.data);
    var packed := DeflateFixed(e.data);
    InflateInvertsDeflate(e.data, packed, |Unpack(packed)| - |DeflateBits(e.data)|);
    var deflated := |packed| < |e.data|;
    p := Packed(e.name, e.data, crc, deflated, if deflated then packed else e.data);
  }

  lemma EntriesOfMore(ps: seq<Packed>, p: Packed)
    ensures Entries(ps + [p]) == Entries(ps) + [Entry(p.name, p.data)]
  {
  }

  lemma LayoutOfMore(ps: seq<Packed>, p: Packed, time: nat, date: nat)
    ensures Locals(ps + [p], time, date) == Locals(ps, time, date) + Local(p, time, date)
    ensures Directory(ps + [p], time, date)
        == Directory(ps, time, date) + Central(p, time, date, |Locals(ps, time, date)|)
  {
    hide Local, Central;
    assert (ps + [p])[..|ps|] == ps;
  }

  lemma EmptyLayout(time: nat, date: nat)
    ensures Locals([], time, date) == Directory([], time, date) == []
  {
  }

  lemma RecordLengths(p: Packed, time: nat, date: nat, offset: nat)
    ensures |Local(p, time, date)| + |Central(p, time, date, offset)| == 76 + 2 * |p.name| + |p.body|
  {
    hide LocalHeader, CentralHeader, LocalBytes, CentralBytes;
  }

  lemma {:induction false} LayoutSizes(ps: seq<Packed>, time: nat, date: nat)
    requires forall p :: p in ps ==> |p.body| == StoredSize(p.data)
    ensures |Locals(ps, time, date)| + |Directory(ps, time, date)| == RecordSizes(Entries(ps))
  {
    hide StoredSize, Local, Central;
    if ps != [] {
      var before, p := ps[..|ps| - 1], ps[|ps| - 1];
      LayoutSizes(before, time, date);
      assert before + [p] == ps;
      EntriesOfMore(before, p);
      RecordLengths(p, time, date, |Locals(before, time, date)|);
      assert Entries(ps)[..|ps| - 1] == Entries(before);
    }
  }

  lemma {:induction false} RecordSizesGrow(entries: seq<Entry>, k: nat)
    requires k <= |entries|
    ensures RecordSizes(entries[..k]) <= RecordSizes(entries)
    decreases |entries|
  {
    if k == |entries| {
      assert entries[..k] == entries;
    } else {
      var before := entries[..|entries| - 1];
      assert before[..k] == entries[..k];
      RecordSizesGrow(before, k);
    }
  }

  lemma SizedOf(p: Packed)
    requires Faithful(p) && |p.name| <= 0xFFFF && |p.data| <= 0xFFFF_FFFF && |p.body| <= |p.data|
    ensures Sized(p)
  {
  }

  // The writer gives up only on entries that are not admitted.
  lemma Overflow(entries: seq<Entry>, ps: seq<Packed>, time: nat, date: nat)
    requires |ps| <= |entries| && Entries(ps) == entries[..|ps|]
    requires forall p :: p in ps ==> |p.body| == StoredSize(p.data)
    requires |Locals(ps, time, date)| > 0xFFFF_FFFF
    ensures !Admitted(entries)
  {
    hide StoredSize, Locals, Directory, RecordSizes;
    LayoutSizes(ps, time, date);
    RecordSizesGrow(entries, |ps|);
  }

  lemma Complete(entries: seq<Entry>, ps: seq<Packed>, time: nat, date: nat)
    requires time < 0x1_0000 && date < 0x1_0000
    requires |entries| <= 0xFFFF && Entries(ps) == entries
    requires forall p :: p in ps ==> Sized(p) && |p.body| == StoredSize(p.data)
    ensures |Archive(ps, time, date)| == ArchiveSize(entries) > 0
    ensures |Archive(ps, time, date)| <= 0xFFFF_FFFF <==> Admitted(entries)
    ensures |Archive(ps, time, date)| <= 0xFFFF_FFFF ==>
        Read(Archive(ps, time, date)) == Some(AllWritten(entries, time, date))
  {
    hide StoredSize, Locals, Directory, RecordSizes, EndBytes, Read, Faithful;
    LayoutSizes(ps, time, date);
    forall e | e in entries
      ensures |e.name| <= 0xFFFF && |e.data| <= 0xFFFF_FFFF
    {
      var k :| 0 <= k < |entries| && entries[k] == e;
      assert ps[k] in ps && Entries(ps)[k] == e;
    }
    if |Archive(ps, time, date)| <= 0xFFFF_FFFF {
      ReadInvertsArchive(ps, time, date);
    }
  }

  // Empty exactly when the archive would need ZIP64; otherwise it reads back as the entries.
  method ZipArchive(entries: seq<Entry>, time: nat, date: nat) returns (archive: seq<byte>)
    requires time < 0x1_0000 && date < 0x1_0000
    ensures archive != [] <==> Admitted(entries)
    ensures archive != [] ==> Read(archive) == Some(AllWritten(entries, time, date))
    ensures archive != [] ==> |archive| == ArchiveSize(entries)
  {
    hide Read, StoredSize, Locals, Directory, ArchiveSize, LocalHeader, CentralHeader, EndHeader, LocalBytes,
      CentralBytes, EndBytes, Entries, Sized, Faithful;
    var out, directory: seq<byte> := [], [];
    if |entries| > 0xFFFF {
      return [];
    }
    ghost var ps: seq<Packed> := [];
    EmptyLayout(time, date);
    for k := 0 to |entries|
      invariant |ps| == k && Entries(ps) == entries[..k]
      invariant forall p :: p in ps ==> Sized(p) && |p.body| == StoredSize(p.data)
      invariant out == Locals(ps, time, date) && directory == Directory(ps, time, date)
      invariant |out| <= 0xFFFF_FFFF
    {
      var e := entries[k];
      if |e.name| > 0xFFFF || |e.data| > 0xFFFF_FFFF {
        return [];
      }
      var p := Pack(e);
      LayoutOfMore(ps, p, time, date);
      EntriesOfMore(ps, p);
      assert Sized(p) by {
        SizedOf(p);
      }
      var offset := |out|;
      out := out + (LocalBytes(LocalHeader(p, time, date)) + p.name + p.body);
      directory := directory + (CentralBytes(CentralHeader(p, time, date, offset)) + p.name);
      ps := ps + [p];
      if |out| > 0xFFFF_FFFF {
        Overflow(entries, ps, time, date);
        return [];
      }
    }
    assert entries[..|entries|] == entries;
    Complete(entries, ps, time, date);
    archive := out + directory + EndBytes(EndHeader(|entries|, |directory|, |out|));
    if |archive| > 0xFFFF_FFFF {
      return [];
    }
  }
}
