/** The framed protocol between shim and daemon (crates/vrift-ipc/src/lib.rs, `IpcHeader` and
    `frame_sync`; crates/vrift-inception-layer/src/raw_context.rs, `write_all` and `read_exact`).

    The serialisation of messages is a pair of functions of which only the round trip is used. */
module Frames {
  import opened Bytes

  const HEADER_SIZE := 12
  const MAX_LENGTH := 32 * 1024 * 1024
  const VERSION := 4
  const U32 := 0x1_0000_0000

  datatype FrameType = Request | Response | Heartbeat

  datatype Header = Header(magic: Bytes, typeVer: byte, flags: byte, length: nat, seqId: nat)

  datatype Codec<!T> = Codec(encode: T -> Bytes, decode: Bytes -> Option<T>)

  ghost predicate RoundTrips<T(!new)>(c: Codec<T>) {
    forall x :: c.decode(c.encode(x)) == Some(x)
  }

  // ---------------------------------------------------------------- headers

  function TypeCode(t: FrameType): byte {
    match t case Request => 0 case Response => 1 case Heartbeat => 2
  }

  function NewHeader(t: FrameType, length: nat, seqId: nat): Header {
    Header([86, 82], TypeCode(t) * 16 + 4, 0, length, seqId)
  }

  function FrameTypeOf(h: Header): Option<FrameType> {
    var code := h.typeVer as nat / 16;
    if code == 0 then Some(Request)
    else if code == 1 then Some(Response)
    else if code == 2 then Some(Heartbeat)
    else None
  }

  predicate IsValid(h: Header) {
    h.magic == [86, 82] && h.typeVer as nat % 16 == VERSION && FrameTypeOf(h).Some?
  }

  function ToBytes(h: Header): (b: Bytes)
    requires |h.magic| == 2
    ensures |b| == HEADER_SIZE
  {
    h.magic + [h.typeVer, h.flags] + ToLE(h.length, 4) + ToLE(h.seqId, 4)
  }

  function FromBytes(b: Bytes): Header
    requires |b| == HEADER_SIZE
  {
    Header(b[0..2], b[2], b[3], FromLE(b[4..8]), FromLE(b[8..12]))
  }

  lemma {:induction false} U32IsFourBytes()
    ensures Pow256(4) == U32
  {
    assert Pow256(0) == 1 && Pow256(1) == 256 && Pow256(2) == 65536 && Pow256(3) == 16777216;
  }

  /** A header whose numbers fit 32 bits is read back as it was written. */
  lemma {:induction false} HeaderRoundTrip(h: Header)
    requires |h.magic| == 2 && h.length < U32 && h.seqId < U32
    ensures FromBytes(ToBytes(h)) == h
  {
    U32IsFourBytes();
    LERoundTrip(h.length, 4);
    LERoundTrip(h.seqId, 4);
    var b := ToBytes(h);
    assert b[0..2] == h.magic && b[4..8] == ToLE(h.length, 4) && b[8..12] == ToLE(h.seqId, 4);
  }

  // ---------------------------------------------------------------- frames on values

  /** What a peer puts on the stream. */
  datatype Sent<T> = Message(body: T, seqId: nat) | Beat(seqId: nat)

  predicate Sendable<T>(c: Codec<T>, m: Sent<T>) {
    m.seqId < U32 && (m.Message? ==> |c.encode(m.body)| <= MAX_LENGTH)
  }

  predicate AllSendable<T>(c: Codec<T>, ms: seq<Sent<T>>) {
    forall i | 0 <= i < |ms| :: Sendable(c, ms[i])
  }

  function Frame<T>(c: Codec<T>, t: FrameType, m: Sent<T>): Bytes {
    match m
    case Beat(n) => ToBytes(NewHeader(Heartbeat, 0, n))
    case Message(x, n) => ToBytes(NewHeader(t, |c.encode(x)|, n)) + c.encode(x)
  }

  function Wire<T>(c: Codec<T>, t: FrameType, ms: seq<Sent<T>>): Bytes {
    if ms == [] then [] else Frame(c, t, ms[0]) + Wire(c, t, ms[1..])
  }

  datatype ReadError = Eof | BadMagic | BadVersion | BadType | Unexpected | BadPayload

  datatype Parsed<T> = Got(seqId: nat, body: T, rest: Bytes) | Failed(error: ReadError)

  function CheckHeader(h: Header): Option<ReadError> {
    if IsValid(h) then None
    else if h.magic != [86, 82] then Some(BadMagic)
    else if h.typeVer as nat % 16 != VERSION then Some(BadVersion)
    else Some(BadType)
  }

  /** The next message of the expected type, past any heartbeats. */
  function Parse<T>(c: Codec<T>, t: FrameType, s: Bytes): Parsed<T>
    decreases |s|
  {
    if |s| < HEADER_SIZE then Failed(Eof)
    else
      var h, rest := FromBytes(s[..HEADER_SIZE]), s[HEADER_SIZE..];
      match CheckHeader(h)
      case Some(e) => Failed(e)
      case None =>
        if FrameTypeOf(h) == Some(Heartbeat) then Parse(c, t, rest)
        else if FrameTypeOf(h) != Some(t) then Failed(Unexpected)
        else if |rest| < h.length then Failed(Eof)
        else match c.decode(rest[..h.length])
          case None => Failed(BadPayload)
          case Some(x) => Got(h.seqId, x, rest[h.length..])
  }

  lemma {:induction false} NewHeaderIsValid(t: FrameType, length: nat, seqId: nat)
    ensures IsValid(NewHeader(t, length, seqId)) && FrameTypeOf(NewHeader(t, length, seqId)) == Some(t)
  {
  }

  /** The header at the front of a stream. */
  lemma {:induction false} HeaderInFront(h: Header, tail: Bytes)
    requires |h.magic| == 2 && h.length < U32 && h.seqId < U32
    ensures (ToBytes(h) + tail)[..HEADER_SIZE] == ToBytes(h) && (ToBytes(h) + tail)[HEADER_SIZE..] == tail
    ensures FromBytes((ToBytes(h) + tail)[..HEADER_SIZE]) == h
  {
    HeaderRoundTrip(h);
    assert (ToBytes(h) + tail)[..HEADER_SIZE] == ToBytes(h);
  }

  lemma {:induction false} ParseBeat<T>(c: Codec<T>, t: FrameType, n: nat, tail: Bytes)
    requires n < U32
    ensures Parse(c, t, Frame(c, t, Beat(n)) + tail) == Parse(c, t, tail)
  {
    var h := NewHeader(Heartbeat, 0, n);
    HeaderInFront(h, tail);
    NewHeaderIsValid(Heartbeat, 0, n);
  }

  lemma {:induction false} ParseMessage<T(!new)>(c: Codec<T>, t: FrameType, x: T, n: nat, tail: Bytes)
    requires RoundTrips(c) && t != Heartbeat && Sendable(c, Message(x, n))
    ensures Parse(c, t, Frame(c, t, Message(x, n)) + tail) == Got(n, x, tail)
  {
    var payload := c.encode(x);
    var h := NewHeader(t, |payload|, n);
    var s := Frame(c, t, Message(x, n)) + tail;
    assert s == ToBytes(h) + (payload + tail);
    HeaderInFront(h, payload + tail);
    NewHeaderIsValid(t, |payload|, n);
    assert (payload + tail)[..|payload|] == payload && (payload + tail)[|payload|..] == tail;
  }

  /** The messages of a list, without the heartbeats. */
  function Messages<T>(ms: seq<Sent<T>>): seq<Sent<T>> {
    if ms == [] then [] else if ms[0].Message? then [ms[0]] + Messages(ms[1..]) else Messages(ms[1..])
  }

  /** Reading until the stream has no further message. */
  function ParseAll<T>(c: Codec<T>, t: FrameType, s: Bytes): (seq<Sent<T>>, ReadError)
    decreases |s|
  {
    match Parse(c, t, s)
    case Failed(e) => ([], e)
    case Got(n, x, rest) =>
      RestIsShorter(c, t, s);
      var (ms, e) := ParseAll(c, t, rest);
      ([Message(x, n)] + ms, e)
  }

  lemma {:induction false} RestIsShorter<T>(c: Codec<T>, t: FrameType, s: Bytes)
    ensures Parse(c, t, s).Got? ==> |Parse(c, t, s).rest| < |s|
    decreases |s|
  {
    if |s| >= HEADER_SIZE {
      var h := FromBytes(s[..HEADER_SIZE]);
      if CheckHeader(h).None? && FrameTypeOf(h) == Some(Heartbeat) {
        RestIsShorter(c, t, s[HEADER_SIZE..]);
      }
    }
  }

  /** Any list of messages with any heartbeats between them is read back as those messages, with
      their sequence numbers, in order, and the stream is then at its end. */
  lemma {:induction false} StreamRoundTrip<T(!new)>(c: Codec<T>, t: FrameType, ms: seq<Sent<T>>)
    requires RoundTrips(c) && t != Heartbeat && AllSendable(c, ms)
    ensures ParseAll(c, t, Wire(c, t, ms)) == (Messages(ms), Eof)
    decreases |ms|
  {
    if ms != [] {
      var tail := Wire(c, t, ms[1..]);
      StreamRoundTrip(c, t, ms[1..]);
      assert Sendable(c, ms[0]);
      match ms[0]
      case Beat(n) => BeatIsSkipped(c, t, n, tail);
      case Message(x, n) => ParseMessage(c, t, x, n, tail);
    }
  }

  lemma {:induction false} BeatIsSkipped<T>(c: Codec<T>, t: FrameType, n: nat, tail: Bytes)
    requires n < U32
    ensures ParseAll(c, t, Frame(c, t, Beat(n)) + tail) == ParseAll(c, t, tail)
  {
    ParseBeat(c, t, n, tail);
  }

  /** One read takes exactly the frames up to and including the first message: what follows is left. */
  lemma {:induction false} ReadTakesOneMessage<T(!new)>(c: Codec<T>, t: FrameType, beats: seq<Sent<T>>, x: T, n: nat,
                                                        tail: Bytes)
    requires RoundTrips(c) && t != Heartbeat && Sendable(c, Message(x, n))
    requires AllSendable(c, beats) && forall i | 0 <= i < |beats| :: beats[i].Beat?
    ensures Parse(c, t, Wire(c, t, beats) + Frame(c, t, Message(x, n)) + tail) == Got(n, x, tail)
    decreases |beats|
  {
    var m := Frame(c, t, Message(x, n));
    if beats == [] {
      assert Wire(c, t, beats) + m + tail == m + tail;
      ParseMessage(c, t, x, n, tail);
    } else {
      assert Sendable(c, beats[0]);
      ReadTakesOneMessage(c, t, beats[1..], x, n, tail);
      Regroup(Frame(c, t, beats[0]), Wire(c, t, beats[1..]), m, tail);
      ParseBeat(c, t, beats[0].seqId, Wire(c, t, beats[1..]) + m + tail);
    }
  }

  lemma {:induction false} Regroup(a: Bytes, b: Bytes, m: Bytes, tail: Bytes)
    ensures (a + b) + m + tail == a + (b + m + tail)
  {
  }

  // ---------------------------------------------------------------- short reads and writes

  /** A byte stream: what was written and not yet read. */
  class Stream {
    var data: Bytes

    constructor ()
      ensures data == []
    {
      data := [];
    }
  }

  /** The sending side: `send_request` and `send_response` differ in the type and in whether the
      sequence number is drawn here or echoed. */
  class Sender {
    const stream: Stream
    var nextSeq: nat

    ghost predicate Valid()
      reads this
    {
      nextSeq < U32
    }

    constructor (stream: Stream)
      ensures Valid() && this.stream == stream && nextSeq == 1
    {
      this.stream := stream;
      nextSeq := 1;
    }

    method NextSeqId() returns (n: nat)
      requires Valid()
      modifies this
      ensures Valid() && n == old(nextSeq) && nextSeq == (n + 1) % U32
    {
      n := nextSeq;
      nextSeq := (nextSeq + 1) % U32;
    }

    /** An oversized message is refused before anything is written or counted. */
    method SendRequest<T>(c: Codec<T>, x: T) returns (r: Option<nat>)
      requires Valid()
      modifies this, stream
      ensures Valid() && (r.Some? <==> |c.encode(x)| <= MAX_LENGTH)
      ensures r.Some? ==> Sendable(c, Message(x, r.value))
      ensures r.Some? ==> stream.data == old(stream.data) + Frame(c, Request, Message(x, r.value))
      ensures r.Some? ==> r.value == old(nextSeq) && nextSeq == (r.value + 1) % U32
      ensures r.None? ==> stream.data == old(stream.data) && nextSeq == old(nextSeq)
    {
      var payload := c.encode(x);
      if |payload| > MAX_LENGTH {
        return None;
      }
      var n := NextSeqId();
      stream.data := stream.data + ToBytes(NewHeader(Request, |payload|, n));
      stream.data := stream.data + payload;
      return Some(n);
    }

    method SendHeartbeat<T>(c: Codec<T>) returns (n: nat)
      requires Valid()
      modifies this, stream
      ensures Valid() && n == old(nextSeq) && nextSeq == (n + 1) % U32 && Sendable(c, Beat(n))
      ensures stream.data == old(stream.data) + Frame(c, Request, Beat(n))
    {
      n := NextSeqId();
      stream.data := stream.data + ToBytes(NewHeader(Heartbeat, 0, n));
    }
  }

  method ReadHeader(stream: Stream) returns (r: Option<Header>, e: ReadError)
    modifies stream
    ensures r.None? ==> e == if |old(stream.data)| < HEADER_SIZE then Eof else Fault(old(stream.data))
    ensures stream.data == if |old(stream.data)| < HEADER_SIZE then [] else old(stream.data)[HEADER_SIZE..]
    ensures r.Some? ==> |old(stream.data)| >= HEADER_SIZE
    ensures r.Some? ==> r.value == FromBytes(old(stream.data)[..HEADER_SIZE]) && CheckHeader(r.value).None?
    ensures r.None? && |old(stream.data)| >= HEADER_SIZE
            ==> CheckHeader(FromBytes(old(stream.data)[..HEADER_SIZE])).Some?
  {
    e := Eof;
    if |stream.data| < HEADER_SIZE {
      stream.data := [];
      return None, Eof;
    }
    var h := FromBytes(stream.data[..HEADER_SIZE]);
    stream.data := stream.data[HEADER_SIZE..];
    if !IsValid(h) {
      if h.magic != [86, 82] {
        return None, BadMagic;
      }
      if h.typeVer as nat % 16 != VERSION {
        return None, BadVersion;
      }
      return None, BadType;
    }
    return Some(h), Eof;
  }

  function Fault(s: Bytes): ReadError
    requires |s| >= HEADER_SIZE
  {
    match CheckHeader(FromBytes(s[..HEADER_SIZE])) case Some(e) => e case None => Eof
  }

  /** `read_request` and `read_response`. */
  method ReadMessage<T>(stream: Stream, c: Codec<T>, t: FrameType) returns (r: Parsed<T>)
    modifies stream
    ensures r == Parse(c, t, old(stream.data))
    ensures r.Got? ==> stream.data == r.rest
  {
    while true
      invariant Parse(c, t, stream.data) == Parse(c, t, old(stream.data))
      decreases |stream.data|
    {
      var h, e := ReadHeader(stream);
      if h.None? {
        return Failed(e);
      }
      if FrameTypeOf(h.value) == Some(Heartbeat) {
        continue;
      }
      if FrameTypeOf(h.value) != Some(t) {
        return Failed(Unexpected);
      }
      if |stream.data| < h.value.length {
        return Failed(Eof);
      }
      var payload := stream.data[..h.value.length];
      stream.data := stream.data[h.value.length..];
      match c.decode(payload) {
        case None => return Failed(BadPayload);
        case Some(x) => return Got(h.value.seqId, x, stream.data);
      }
    }
  }

  /** One system call asked for `want` bytes and allowed `allowed`, which may be an error. */
  function Granted(allowed: int, want: nat): int {
    if allowed < want then allowed else want
  }

  /** What the first `n` calls allow together. */
  function Total(calls: nat -> int, n: nat): int {
    if n == 0 then 0 else Total(calls, n - 1) + calls(n - 1)
  }

  ghost predicate AllPositive(calls: nat -> int, n: nat) {
    forall i: nat | i < n :: calls(i) > 0
  }

  /** After `n` calls that made progress, together at least `size` bytes; or fewer, and the next call makes none. */
  ghost predicate Transfers(calls: nat -> int, n: nat, size: nat, ok: bool) {
    AllPositive(calls, n) && if ok then Total(calls, n) >= size else 0 <= Total(calls, n) < size && calls(n) <= 0
  }

  /** The `i`-th call is allowed `calls(i)` bytes: all is written exactly when calls that make progress allow
      it together, and otherwise what they allow. */
  method WriteAll(stream: Stream, data: Bytes, calls: nat -> int) returns (ok: bool)
    modifies stream
    ensures exists n: nat :: Transfers(calls, n, |data|, ok)
                             && stream.data == old(stream.data) + if ok then data else data[..Total(calls, n)]
  {
    var written: nat := 0;
    var i: nat := 0;
    assert data[..0] == [];
    while written < |data|
      invariant written <= |data| && stream.data == old(stream.data) + data[..written]
      invariant AllPositive(calls, i)
      invariant if written < |data| then written == Total(calls, i) else Total(calls, i) >= |data|
      decreases |data| - written
    {
      var n := Granted(calls(i), |data| - written);
      if n <= 0 {
        assert Transfers(calls, i, |data|, false);
        return false;
      }
      stream.data := stream.data + data[written..written + n];
      assert data[..written + n] == data[..written] + data[written..written + n];
      written := written + n;
      i := i + 1;
    }
    assert data[..|data|] == data;
    assert Transfers(calls, i, |data|, true);
    return true;
  }

  /** The buffer is filled exactly when the stream has enough and calls that make progress allow it together. */
  method ReadExact(stream: Stream, buf: array<byte>, calls: nat -> int) returns (ok: bool)
    modifies stream, buf
    ensures exists k: nat ::
              && k <= buf.Length && k <= |old(stream.data)| && stream.data == old(stream.data)[k..]
              && (forall x | 0 <= x < k :: buf[x] == old(stream.data)[x])
              && (forall x | k <= x < buf.Length :: buf[x] == old(buf[x]))
              && (ok <==> k == buf.Length)
    ensures ok ==> exists n: nat :: Transfers(calls, n, buf.Length, true)
    ensures !ok ==> |stream.data| == 0 || exists n: nat :: Transfers(calls, n, buf.Length, false)
  {
    var read: nat := 0;
    var i: nat := 0;
    while read < buf.Length
      invariant read <= buf.Length && read <= |old(stream.data)| && stream.data == old(stream.data)[read..]
      invariant forall x | 0 <= x < read :: buf[x] == old(stream.data)[x]
      invariant forall x | read <= x < buf.Length :: buf[x] == old(buf[x])
      invariant AllPositive(calls, i)
      invariant read < buf.Length && stream.data != [] ==> read == Total(calls, i)
      invariant read == buf.Length ==> Total(calls, i) >= buf.Length
      decreases buf.Length - read
    {
      var n := Granted(Granted(calls(i), buf.Length - read), |stream.data|);
      if n <= 0 {
        assert stream.data == [] || Transfers(calls, i, buf.Length, false);
        return false;
      }
      Copy(stream.data[..n], buf, read);
      stream.data := stream.data[n..];
      read := read + n;
      i := i + 1;
    }
    assert Transfers(calls, i, buf.Length, true);
    return true;
  }

  method Copy(src: Bytes, buf: array<byte>, at: nat)
    requires at + |src| <= buf.Length
    modifies buf
    ensures forall x | 0 <= x < at :: buf[x] == old(buf[x])
    ensures forall x | at <= x < at + |src| :: buf[x] == src[x - at]
    ensures forall x | at + |src| <= x < buf.Length :: buf[x] == old(buf[x])
  {
    for j := 0 to |src|
      invariant forall x | 0 <= x < at :: buf[x] == old(buf[x])
      invariant forall x | at <= x < at + j :: buf[x] == src[x - at]
      invariant forall x | at + j <= x < buf.Length :: buf[x] == old(buf[x])
    {
      buf[at + j] := src[j];
    }
  }

  // ---------------------------------------------------------------- a whole exchange

  datatype Outgoing<T> = Ask(body: T) | Ping

  /** What a sender whose next number is `n` puts on the stream: requests that are too long are refused
      and draw no number. */
  function Numbered<T>(c: Codec<T>, out: seq<Outgoing<T>>, n: nat): seq<Sent<T>> {
    if out == [] then []
    else match out[0]
      case Ping => [Beat(n)] + Numbered(c, out[1..], (n + 1) % U32)
      case Ask(x) =>
        if |c.encode(x)| > MAX_LENGTH then Numbered(c, out[1..], n)
        else [Message(x, n)] + Numbered(c, out[1..], (n + 1) % U32)
  }

  lemma {:induction false} NumberedSendable<T>(c: Codec<T>, out: seq<Outgoing<T>>, n: nat)
    requires n < U32
    ensures AllSendable(c, Numbered(c, out, n))
    decreases |out|
  {
    if out != [] {
      NumberedSendable(c, out[1..], n);
      NumberedSendable(c, out[1..], (n + 1) % U32);
    }
  }

  lemma {:induction false} WireFirst<T>(c: Codec<T>, t: FrameType, m: Sent<T>, ms: seq<Sent<T>>)
    ensures Wire(c, t, [m] + ms) == Frame(c, t, m) + Wire(c, t, ms)
  {
    assert ([m] + ms)[1..] == ms;
  }

  /** One frame after another: the stream of a list and one more message. */
  lemma {:induction false} WireAppend<T>(c: Codec<T>, t: FrameType, ms: seq<Sent<T>>, m: Sent<T>)
    ensures Wire(c, t, ms + [m]) == Wire(c, t, ms) + Frame(c, t, m)
    decreases |ms|
  {
    if ms == [] {
      assert ms + [m] == [m] + [];
      WireFirst(c, t, m, []);
      EmptyEnds(Frame(c, t, m));
    } else {
      WireAppend(c, t, ms[1..], m);
      HeadFirst(ms, m);
      WireFirst(c, t, ms[0], ms[1..] + [m]);
      Associates(Frame(c, t, ms[0]), Wire(c, t, ms[1..]), Frame(c, t, m));
    }
  }

  lemma {:induction false} HeadFirst<T>(ms: seq<T>, m: T)
    requires ms != []
    ensures ms + [m] == [ms[0]] + (ms[1..] + [m])
  {
  }

  lemma {:induction false} EmptyEnds(a: Bytes)
    ensures a + [] == a && [] + a == a
  {
  }

  lemma {:induction false} Associates(a: Bytes, b: Bytes, c: Bytes)
    ensures (a + b) + c == a + (b + c)
  {
  }

  /** With the first `i` sent as `sent`, the next number and the rest give the whole list. */
  ghost predicate SentSoFar<T>(c: Codec<T>, out: seq<Outgoing<T>>, i: nat, n: nat, sent: seq<Sent<T>>,
                               all: seq<Sent<T>>)
    requires i <= |out|
  {
    all == sent + Numbered(c, out[i..], n)
  }

  lemma {:induction false} NumberedNext<T>(c: Codec<T>, out: seq<Outgoing<T>>, i: nat, n: nat, sent: seq<Sent<T>>,
                                           all: seq<Sent<T>>)
    requires i < |out| && SentSoFar(c, out, i, n, sent, all)
    ensures out[i].Ping? ==> SentSoFar(c, out, i + 1, (n + 1) % U32, sent + [Beat(n)], all)
    ensures out[i].Ask? && |c.encode(out[i].body)| <= MAX_LENGTH
            ==> SentSoFar(c, out, i + 1, (n + 1) % U32, sent + [Message(out[i].body, n)], all)
    ensures out[i].Ask? && |c.encode(out[i].body)| > MAX_LENGTH ==> SentSoFar(c, out, i + 1, n, sent, all)
  {
    assert out[i..][1..] == out[i + 1..];
    var rest := Numbered(c, out[i + 1..], (n + 1) % U32);
    Moved(sent, Beat(n), rest);
    if out[i].Ask? {
      Moved(sent, Message(out[i].body, n), rest);
    }
  }

  lemma {:induction false} Moved<T>(a: seq<T>, x: T, b: seq<T>)
    ensures a + ([x] + b) == (a + [x]) + b
  {
  }

  lemma {:induction false} FrameAppended<T>(c: Codec<T>, t: FrameType, start: Bytes, ms: seq<Sent<T>>, m: Sent<T>)
    ensures start + Wire(c, t, ms) + Frame(c, t, m) == start + Wire(c, t, ms + [m])
  {
    WireAppend(c, t, ms, m);
    Associates(start, Wire(c, t, ms), Frame(c, t, m));
  }

  /** The stream behind `start` holds the frames of `sent`, and `sent` with the rest gives the whole list. */
  ghost predicate Progress<T>(c: Codec<T>, out: seq<Outgoing<T>>, i: nat, n: nat, start: Bytes, data: Bytes,
                              sent: seq<Sent<T>>, all: seq<Sent<T>>)
    requires i <= |out|
  {
    SentSoFar(c, out, i, n, sent, all) && data == start + Wire(c, Request, sent)
  }

  lemma {:induction false} FrameSent<T>(c: Codec<T>, out: seq<Outgoing<T>>, i: nat, n: nat, start: Bytes, data: Bytes,
                                        sent: seq<Sent<T>>, all: seq<Sent<T>>, m: Sent<T>)
    requires i < |out| && Progress(c, out, i, n, start, data, sent, all)
    requires match out[i] case Ping => m == Beat(n)
                          case Ask(x) => m == Message(x, n) && |c.encode(x)| <= MAX_LENGTH
    ensures Progress(c, out, i + 1, (n + 1) % U32, start, data + Frame(c, Request, m), sent + [m], all)
  {
    NumberedNext(c, out, i, n, sent, all);
    FrameAppended(c, Request, start, sent, m);
  }

  method SendNext<T>(sender: Sender, c: Codec<T>, out: seq<Outgoing<T>>, i: nat, ghost start: Bytes,
                     ghost sent: seq<Sent<T>>, ghost all: seq<Sent<T>>) returns (ghost sent': seq<Sent<T>>)
    requires sender.Valid() && i < |out|
    requires Progress(c, out, i, sender.nextSeq, start, sender.stream.data, sent, all)
    modifies sender, sender.stream
    ensures sender.Valid() && Progress(c, out, i + 1, sender.nextSeq, start, sender.stream.data, sent', all)
  {
    ghost var n0, data := sender.nextSeq, sender.stream.data;
    match out[i] {
      case Ping =>
        var n := sender.SendHeartbeat(c);
        FrameSent(c, out, i, n0, start, data, sent, all, Beat(n));
        sent' := sent + [Beat(n)];
      case Ask(x) =>
        var r := sender.SendRequest(c, x);
        if r.Some? {
          FrameSent(c, out, i, n0, start, data, sent, all, Message(x, r.value));
          sent' := sent + [Message(x, r.value)];
        } else {
          NumberedNext(c, out, i, n0, sent, all);
          sent' := sent;
        }
    }
  }

  /** A run of requests and heartbeats puts exactly its numbered frames on the stream. */
  method SendAll<T>(sender: Sender, c: Codec<T>, out: seq<Outgoing<T>>)
    requires sender.Valid()
    modifies sender, sender.stream
    ensures sender.Valid()
    ensures sender.stream.data
         == old(sender.stream.data) + Wire(c, Request, Numbered(c, out, old(sender.nextSeq)))
  {
    ghost var start := sender.stream.data;
    ghost var sent: seq<Sent<T>> := [];
    ghost var all := Numbered(c, out, sender.nextSeq);
    assert out[0..] == out && sent + all == all;
    for i := 0 to |out|
      invariant sender.Valid() && Progress(c, out, i, sender.nextSeq, start, sender.stream.data, sent, all)
    {
      sent := SendNext(sender, c, out, i, start, sent, all);
    }
    assert sent + [] == sent;
  }

  /** After reading `got`, with `data` left, the whole stream gives `all`. */
  ghost predicate ReadSoFar<T>(c: Codec<T>, t: FrameType, data: Bytes, got: seq<Sent<T>>,
                               all: (seq<Sent<T>>, ReadError))
  {
    all.0 == got + ParseAll(c, t, data).0 && all.1 == ParseAll(c, t, data).1
  }

  lemma {:induction false} ReadNext<T>(c: Codec<T>, t: FrameType, data: Bytes, got: seq<Sent<T>>,
                                       all: (seq<Sent<T>>, ReadError))
    requires ReadSoFar(c, t, data, got, all)
    ensures match Parse(c, t, data)
            case Failed(e) => all == (got, e)
            case Got(n, x, rest) => |rest| < |data| && ReadSoFar(c, t, rest, got + [Message(x, n)], all)
  {
    match Parse(c, t, data)
    case Failed(e) => assert got + [] == got;
    case Got(n, x, rest) =>
      RestIsShorter(c, t, data);
      Moved(got, Message(x, n), ParseAll(c, t, rest).0);
  }

  /** Reading until a read fails. */
  method ReadAll<T>(stream: Stream, c: Codec<T>, t: FrameType) returns (got: seq<Sent<T>>, e: ReadError)
    modifies stream
    ensures (got, e) == ParseAll(c, t, old(stream.data))
  {
    got := [];
    ghost var all := ParseAll(c, t, stream.data);
    assert [] + all.0 == all.0;
    while true
      invariant ReadSoFar(c, t, stream.data, got, all)
      decreases |stream.data|
    {
      ReadNext(c, t, stream.data, got, all);
      var r := ReadMessage(stream, c, t);
      match r {
        case Failed(error) => return got, error;
        case Got(n, x, rest) => got := got + [Message(x, n)];
      }
    }
  }

  /** Whatever mix of requests and heartbeats is sent, the peer reads exactly the requests that were not
      refused, with their numbers and in order, and then the end of the stream. */
  method Exchange<T(!new)>(sender: Sender, c: Codec<T>, out: seq<Outgoing<T>>) returns (got: seq<Sent<T>>, e: ReadError)
    requires sender.Valid() && sender.stream.data == [] && RoundTrips(c)
    modifies sender, sender.stream
    ensures got == Messages(Numbered(c, out, old(sender.nextSeq))) && e == Eof
  {
    ghost var n := sender.nextSeq;
    SendAll(sender, c, out);
    NumberedSendable(c, out, n);
    StreamRoundTrip(c, Request, Numbered(c, out, n));
    assert [] + Wire(c, Request, Numbered(c, out, n)) == Wire(c, Request, Numbered(c, out, n));
    got, e := ReadAll(sender.stream, c, Request);
  }

  /** What is not refused, in order. */
  function Accepted<T>(c: Codec<T>, out: seq<Outgoing<T>>): seq<Outgoing<T>> {
    if out == [] then []
    else if out[0].Ask? && |c.encode(out[0].body)| > 32 * 1024 * 1024 then Accepted(c, out[1..])
    else [out[0]] + Accepted(c, out[1..])
  }

  function As<T>(o: Outgoing<T>, n: nat): Sent<T> {
    match o case Ping => Beat(n) case Ask(x) => Message(x, n)
  }

  /** The `k`-th frame sent is that of the `k`-th request or heartbeat not refused and carries the `k`-th
      number after `n`, so no two of 2^32 in a row carry the same. */
  lemma {:induction false} NumbersInTurn<T>(c: Codec<T>, out: seq<Outgoing<T>>, n: nat, k: nat)
    requires n < U32 && k < |Numbered(c, out, n)|
    ensures |Numbered(c, out, n)| == |Accepted(c, out)|
    ensures Numbered(c, out, n)[k] == As(Accepted(c, out)[k], (n + k) % 0x1_0000_0000)
    decreases |out|
  {
    SameCount(c, out, n);
    if out[0].Ask? && |c.encode(out[0].body)| > MAX_LENGTH {
      NumbersInTurn(c, out[1..], n, k);
    } else if k > 0 {
      NumbersInTurn(c, out[1..], (n + 1) % U32, k - 1);
      NextNumber(n, k);
    }
  }

  lemma {:induction false} NextNumber(n: nat, k: nat)
    requires n < U32 && k > 0
    ensures ((n + 1) % U32 + (k - 1)) % U32 == (n + k) % U32
  {
  }

  lemma {:induction false} SameCount<T>(c: Codec<T>, out: seq<Outgoing<T>>, n: nat)
    ensures |Numbered(c, out, n)| == |Accepted(c, out)|
    decreases |out|
  {
    if out != [] {
      SameCount(c, out[1..], n);
      SameCount(c, out[1..], (n + 1) % U32);
    }
  }

  // ---------------------------------------------------------------- the bytes on the wire

  /** The four bytes at an offset, the least significant first. */
  function U32At(b: Bytes, at: nat): nat
    requires at + 4 <= |b|
  {
    b[at] as nat + 0x100 * b[at + 1] as nat + 0x1_0000 * b[at + 2] as nat + 0x100_0000 * b[at + 3] as nat
  }

  lemma {:induction false} FourBytes(b: Bytes, at: nat)
    requires at + 4 <= |b|
    ensures FromLE(b[at..at + 4]) == U32At(b, at)
  {
    var s := b[at..at + 4];
    assert s[1..][1..][1..][1..] == [];
    assert FromLE(s[1..][1..][1..]) == b[at + 3] as nat;
    assert FromLE(s[1..][1..]) == b[at + 2] as nat + 256 * b[at + 3] as nat;
  }

  /** Type and version share a byte. */
  function CodeByte(t: FrameType): byte {
    match t case Request => 0x04 case Response => 0x14 case Heartbeat => 0x24
  }

  /** Where everything in a frame stands. */
  lemma {:induction false} FrameLaidOut<T>(c: Codec<T>, t: FrameType, m: Sent<T>)
    requires Sendable(c, m)
    ensures var b := Frame(c, t, m);
            var payload := if m.Message? then c.encode(m.body) else [];
            && |b| == 12 + |payload| && b[12..] == payload
            && b[0] == 86 && b[1] == 82 && b[3] == 0
            && b[2] == (if m.Message? then CodeByte(t) else CodeByte(Heartbeat))
            && U32At(b, 4) == |payload| && U32At(b, 8) == m.seqId
  {
    var payload := if m.Message? then c.encode(m.body) else [];
    var h := NewHeader(if m.Message? then t else Heartbeat, |payload|, m.seqId);
    var b := Frame(c, t, m);
    assert b == ToBytes(h) + payload;
    HeaderInFront(h, payload);
    FourBytes(b, 4);
    FourBytes(b, 8);
    assert b[..HEADER_SIZE][4..8] == b[4..8] && b[..HEADER_SIZE][8..12] == b[8..12];
  }

  /** What a read makes of every stream, byte by byte. */
  lemma {:induction false} ParsesExactly<T>(c: Codec<T>, t: FrameType, s: Bytes)
    ensures var r := Parse(c, t, s);
            if |s| < 12 then r == Failed(Eof)
            else if s[0] != 86 || s[1] != 82 then r == Failed(BadMagic)
            else if s[2] % 16 != 4 then r == Failed(BadVersion)
            else if s[2] / 16 > 2 then r == Failed(BadType)
            else if s[2] == CodeByte(Heartbeat) then r == Parse(c, t, s[12..])
            else if s[2] != CodeByte(t) then r == Failed(Unexpected)
            else if |s| < 12 + U32At(s, 4) then r == Failed(Eof)
            else match c.decode(s[12..12 + U32At(s, 4)])
              case None => r == Failed(BadPayload)
              case Some(x) => r == Got(U32At(s, 8), x, s[12 + U32At(s, 4)..])
  {
    if |s| >= 12 {
      FourBytes(s, 4);
      FourBytes(s, 8);
      var head := s[..12];
      assert head[0..2] == [s[0], s[1]] && head[4..8] == s[4..8] && head[8..12] == s[8..12];
      var n := U32At(s, 4);
      if |s| >= 12 + n {
        assert s[12..][..n] == s[12..12 + n] && s[12..][n..] == s[12 + n..];
      }
    }
  }
}
