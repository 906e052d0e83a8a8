/** Packfiles (crates/vrift-pack/src/lib.rs, `PackWriter` and `PackReader`). The index is serialised by
    a codec of which only the round trip is used; the header is its fields in order, little-endian. */
module Packfile {
  import opened Bytes

  const HEADER_SIZE := 32
  const MAGIC: Bytes := [86, 69, 76, 79, 80, 65, 67, 75]
  const VERSION := 1

  datatype Header = Header(magic: Bytes, version: nat, entryCount: nat, indexOffset: nat, dataOffset: nat)

  datatype Entry = Entry(hash: Bytes, offset: nat, length: nat)

  datatype Codec = Codec(putIndex: seq<Entry> -> Bytes, getIndex: Bytes -> Option<seq<Entry>>)

  ghost predicate RoundTrips(c: Codec) {
    forall es :: c.getIndex(c.putIndex(es)) == Some(es)
  }

  function PutHeader(h: Header): (b: Bytes)
    requires |h.magic| == 8
    ensures |b| == HEADER_SIZE
  {
    h.magic + ToLE(h.version, 4) + ToLE(h.entryCount, 4) + ToLE(h.indexOffset, 8) + ToLE(h.dataOffset, 8)
  }

  function GetHeader(b: Bytes): Header
    requires |b| == HEADER_SIZE
  {
    Header(b[..8], FromLE(b[8..12]), FromLE(b[12..16]), FromLE(b[16..24]), FromLE(b[24..32]))
  }

  lemma {:induction false} HeaderRoundTrip(h: Header)
    requires |h.magic| == 8 && h.version < Pow256(4) && h.entryCount < Pow256(4)
    requires h.indexOffset < Pow256(8) && h.dataOffset < Pow256(8)
    ensures GetHeader(PutHeader(h)) == h
  {
    LERoundTrip(h.version, 4);
    LERoundTrip(h.entryCount, 4);
    LERoundTrip(h.indexOffset, 8);
    LERoundTrip(h.dataOffset, 8);
    Fields(h.magic, ToLE(h.version, 4), ToLE(h.entryCount, 4), ToLE(h.indexOffset, 8), ToLE(h.dataOffset, 8));
  }

  lemma {:induction false} Fields(m: Bytes, v: Bytes, n: Bytes, i: Bytes, d: Bytes)
    requires |m| == 8 && |v| == 4 && |n| == 4 && |i| == 8 && |d| == 8
    ensures var b := m + v + n + i + d;
            b[..8] == m && b[8..12] == v && b[12..16] == n && b[16..24] == i && b[24..32] == d
  {
  }

  lemma {:induction false} WordSizes()
    ensures Pow256(4) == 0x1_0000_0000 && Pow256(8) == 0x1_0000_0000_0000_0000
  {
    assert Pow256(1) == 256 && Pow256(2) == 65536 && Pow256(3) == 0x100_0000;
    assert Pow256(5) == 0x100_0000_0000 && Pow256(6) == 0x1_0000_0000_0000 && Pow256(7) == 0x100_0000_0000_0000;
  }

  /** What was added, in order. */
  datatype Blob = Blob(hash: Bytes, data: Bytes)

  function Data(bs: seq<Blob>): Bytes {
    if bs == [] then [] else Data(bs[..|bs| - 1]) + bs[|bs| - 1].data
  }

  function Entries(bs: seq<Blob>): seq<Entry> {
    if bs == [] then []
    else
      var front, last := bs[..|bs| - 1], bs[|bs| - 1];
      Entries(front) + [Entry(last.hash, |Data(front)|, |last.data|)]
  }

  /** The bytes of the last blob added under a hash. */
  function LastAdded(bs: seq<Blob>, h: Bytes): Option<Bytes> {
    if bs == [] then None
    else if bs[|bs| - 1].hash == h then Some(bs[|bs| - 1].data)
    else LastAdded(bs[..|bs| - 1], h)
  }

  function HeaderFor(count: nat, index: Bytes): Header {
    Header(MAGIC, VERSION, count % 0x1_0000_0000, HEADER_SIZE, HEADER_SIZE + |index|)
  }

  function Image(c: Codec, bs: seq<Blob>): Bytes {
    PutHeader(HeaderFor(|bs|, c.putIndex(Entries(bs)))) + (c.putIndex(Entries(bs)) + Data(bs))
  }

  // ---------------------------------------------------------------- writing

  class PackWriter {
    var entries: seq<Entry>
    var data: Bytes
    ghost var added: seq<Blob>

    ghost predicate Valid()
      reads this
    {
      entries == Entries(added) && data == Data(added)
    }

    constructor ()
      ensures Valid() && added == []
    {
      entries, data := [], [];
      added := [];
    }

    method Add(hash: Bytes, bytes: Bytes)
      requires Valid()
      modifies this
      ensures Valid() && added == old(added) + [Blob(hash, bytes)]
    {
      entries := entries + [Entry(hash, |data|, |bytes|)];
      data := data + bytes;
      assert (added + [Blob(hash, bytes)])[..|added|] == added;
      added := added + [Blob(hash, bytes)];
    }

    /** The header is written last, over the space kept for it. */
    method Finish(c: Codec) returns (file: Bytes)
      requires Valid()
      ensures file == Image(c, added)
    {
      file := Zeros(HEADER_SIZE);
      var index := c.putIndex(entries);
      file := file + index;
      file := file + data;
      EntriesLength(added);
      DropHead(Zeros(HEADER_SIZE), index, data);
      file := PutHeader(HeaderFor(|entries|, index)) + file[HEADER_SIZE..];
    }
  }

  lemma {:induction false} DropHead(a: Bytes, b: Bytes, c: Bytes)
    ensures (a + b + c)[|a|..] == b + c
  {
  }

  lemma {:induction false} EntriesLength(bs: seq<Blob>)
    ensures |Entries(bs)| == |bs|
    decreases |bs|
  {
    if bs != [] {
      EntriesLength(bs[..|bs| - 1]);
    }
  }

  // ---------------------------------------------------------------- reading

  datatype Opened = Reader(file: Bytes, index: map<Bytes, Entry>, dataOffset: nat) | Invalid

  datatype Found = Bytes(slice: Bytes) | NotFound | PastEnd

  /** Collecting entries into a map, where a later one replaces an earlier one. */
  function Collect(es: seq<Entry>): map<Bytes, Entry> {
    if es == [] then map[] else Collect(es[..|es| - 1])[es[|es| - 1].hash := es[|es| - 1]]
  }

  function Open(c: Codec, file: Bytes): Opened {
    if |file| < HEADER_SIZE then Invalid
    else
      var h := GetHeader(file[..HEADER_SIZE]);
      if h.magic != MAGIC || h.version != VERSION || !(h.indexOffset <= h.dataOffset <= |file|) then Invalid
      else match c.getIndex(file[h.indexOffset..h.dataOffset])
        case None => Invalid
        case Some(es) => Reader(file, Collect(es), h.dataOffset)
  }

  function Get(r: Opened, h: Bytes): Found
    requires r.Reader?
  {
    if h !in r.index then NotFound
    else
      var start := r.dataOffset + r.index[h].offset;
      var end := start + r.index[h].length;
      if end > |r.file| then PastEnd else Bytes(r.file[start..end])
  }

  predicate PointsAt(e: Entry, data: Bytes, d: Bytes) {
    e.offset + e.length <= |data| && data[e.offset..e.offset + e.length] == d
  }

  lemma {:induction false} PointsIntoMore(e: Entry, data: Bytes, d: Bytes, more: Bytes)
    requires PointsAt(e, data, d)
    ensures PointsAt(e, data + more, d)
  {
    assert (data + more)[e.offset..e.offset + e.length] == data[e.offset..e.offset + e.length];
  }

  lemma {:induction false} PointsAtEnd(h: Bytes, data: Bytes, d: Bytes)
    ensures PointsAt(Entry(h, |data|, |d|), data + d, d)
  {
    assert (data + d)[|data|..|data| + |d|] == d;
  }

  /** The index entry of a hash is that of its last blob, and points at its bytes. */
  lemma {:induction false} EntryOfLast(bs: seq<Blob>, h: Bytes)
    ensures h in Collect(Entries(bs)) <==> LastAdded(bs, h).Some?
    ensures h in Collect(Entries(bs)) ==> PointsAt(Collect(Entries(bs))[h], Data(bs), LastAdded(bs, h).value)
    decreases |bs|
  {
    if bs != [] {
      var front, last := bs[..|bs| - 1], bs[|bs| - 1];
      EntryOfLast(front, h);
      assert Entries(bs)[..|Entries(front)|] == Entries(front);
      if last.hash == h {
        PointsAtEnd(h, Data(front), last.data);
      } else if h in Collect(Entries(front)) {
        PointsIntoMore(Collect(Entries(front))[h], Data(front), LastAdded(front, h).value, last.data);
      }
    }
  }

  /** Opening a finished pack succeeds, and every lookup answers with the bytes of the last blob added
      under the hash, never past the end, and with nothing for a hash never added. */
  lemma {:induction false} PackRoundTrip(c: Codec, bs: seq<Blob>, h: Bytes)
    requires RoundTrips(c) && HEADER_SIZE + |c.putIndex(Entries(bs))| < Pow256(8)
    ensures Open(c, Image(c, bs)).Reader?
    ensures Get(Open(c, Image(c, bs)), h) == match LastAdded(bs, h) case None => NotFound case Some(d) => Bytes(d)
  {
    OpensImage(c, bs);
    EntryOfLast(bs, h);
    GetFinds(Open(c, Image(c, bs)), Data(bs), h, LastAdded(bs, h));
  }

  lemma {:induction false} GetFinds(r: Opened, data: Bytes, h: Bytes, d: Option<Bytes>)
    requires r.Reader? && r.dataOffset <= |r.file| && r.file[r.dataOffset..] == data
    requires h in r.index <==> d.Some?
    requires d.Some? ==> PointsAt(r.index[h], data, d.value)
    ensures Get(r, h) == match d case None => NotFound case Some(x) => Bytes(x)
  {
    if d.Some? {
      SliceBehind(r.file, r.dataOffset, data, r.index[h]);
    }
  }

  lemma {:induction false} SliceBehind(file: Bytes, at: nat, data: Bytes, e: Entry)
    requires at <= |file| && file[at..] == data && e.offset + e.length <= |data|
    ensures at + e.offset + e.length <= |file|
    ensures file[at + e.offset..at + e.offset + e.length] == data[e.offset..e.offset + e.length]
  {
  }

  lemma {:induction false} OpensImage(c: Codec, bs: seq<Blob>)
    requires RoundTrips(c) && HEADER_SIZE + |c.putIndex(Entries(bs))| < Pow256(8)
    ensures Open(c, Image(c, bs)) == Reader(Image(c, bs), Collect(Entries(bs)), HEADER_SIZE + |c.putIndex(Entries(bs))|)
    ensures Image(c, bs)[HEADER_SIZE + |c.putIndex(Entries(bs))|..] == Data(bs)
  {
    var index := c.putIndex(Entries(bs));
    var h := HeaderFor(|bs|, index);
    WordSizes();
    HeaderRoundTrip(h);
    Parts(PutHeader(h), index, Data(bs));
  }

  lemma {:induction false} Parts(a: Bytes, b: Bytes, c: Bytes)
    ensures var s := a + (b + c);
            s[..|a|] == a && s[|a|..|a| + |b|] == b && s[|a| + |b|..] == c
  {
  }

  lemma {:induction false} LastIsFound(bs: seq<Blob>, i: nat)
    requires i < |bs| && forall j :: i < j < |bs| ==> bs[j].hash != bs[i].hash
    ensures LastAdded(bs, bs[i].hash) == Some(bs[i].data)
    decreases |bs|
  {
    if i < |bs| - 1 {
      LastIsFound(bs[..|bs| - 1], i);
    }
  }

  lemma {:induction false} AbsentIsNotFound(bs: seq<Blob>, h: Bytes)
    requires forall j :: 0 <= j < |bs| ==> bs[j].hash != h
    ensures LastAdded(bs, h) == None
    decreases |bs|
  {
    if bs != [] {
      AbsentIsNotFound(bs[..|bs| - 1], h);
    }
  }

  /** What a pack written by any sequence of additions answers: for a hash its last bytes, for a hash that
      was not added that it is not there. */
  method WriteAndGet(c: Codec, bs: seq<Blob>, h: Bytes) returns (r: Found)
    requires RoundTrips(c) && HEADER_SIZE + |c.putIndex(Entries(bs))| < Pow256(8)
    ensures (forall j :: 0 <= j < |bs| ==> bs[j].hash != h) ==> r == NotFound
    ensures forall i :: 0 <= i < |bs| && bs[i].hash == h && (forall j :: i < j < |bs| ==> bs[j].hash != h)
                        ==> r == Bytes(bs[i].data)
  {
    var w := new PackWriter();
    for i := 0 to |bs|
      invariant w.Valid() && w.added == bs[..i] && fresh(w)
    {
      w.Add(bs[i].hash, bs[i].data);
    }
    assert bs[..|bs|] == bs;
    var file := w.Finish(c);
    PackRoundTrip(c, bs, h);
    r := Get(Open(c, file), h);
    if forall j :: 0 <= j < |bs| ==> bs[j].hash != h {
      AbsentIsNotFound(bs, h);
    }
    forall i | 0 <= i < |bs| && bs[i].hash == h && (forall j :: i < j < |bs| ==> bs[j].hash != h)
      ensures r == Bytes(bs[i].data)
    {
      LastIsFound(bs, i);
    }
  }

  /** Where everything in a finished pack stands. */
  lemma {:induction false} ImageLaidOut(c: Codec, bs: seq<Blob>)
    requires 32 + |c.putIndex(Entries(bs))| < 0x1_0000_0000_0000_0000
    ensures var index, file := c.putIndex(Entries(bs)), Image(c, bs);
            && file[..8] == [86, 69, 76, 79, 80, 65, 67, 75] && FromLE(file[8..12]) == 1
            && FromLE(file[12..16]) == |bs| % 0x1_0000_0000 && FromLE(file[16..24]) == 32
            && FromLE(file[24..32]) == 32 + |index| && file[32..32 + |index|] == index
            && file[32 + |index|..] == Data(bs)
  {
    var index, file := c.putIndex(Entries(bs)), Image(c, bs);
    var h := HeaderFor(|bs|, index);
    WordSizes();
    HeaderRoundTrip(h);
    Parts(PutHeader(h), index, Data(bs));
    InHead(file, PutHeader(h));
  }

  lemma {:induction false} InHead(file: Bytes, head: Bytes)
    requires |head| == 32 <= |file| && file[..32] == head
    ensures file[..8] == head[..8] && file[8..12] == head[8..12] && file[12..16] == head[12..16]
    ensures file[16..24] == head[16..24] && file[24..32] == head[24..32]
  {
  }

  /** Which files open: the header's magic and version are right, the index range lies in the file and
      the index decodes. */
  lemma {:induction false} OpensExactly(c: Codec, file: Bytes)
    ensures Open(c, file).Reader? <==>
            && |file| >= 32 && file[..8] == [86, 69, 76, 79, 80, 65, 67, 75] && FromLE(file[8..12]) == 1
            && FromLE(file[16..24]) <= FromLE(file[24..32]) <= |file|
            && c.getIndex(file[FromLE(file[16..24])..FromLE(file[24..32])]).Some?
  {
    if |file| >= 32 {
      InHead(file, file[..32]);
    }
  }
}
