/** Frames on a byte stream: a 40-byte header, then exactly as many payload bytes as it announces. */
module Framing {
  import opened Wrappers
  import opened Bytes
  import opened Errors
  import opened Header
  import opened Messages

  const MAX_PAYLOAD_LEN: u32 := 67_108_864

  /** A reliable, ordered stream: a writer appends at the end, a reader consumes from the front. */
  class ByteStream {
    var bytes: seq<byte>

    constructor (bytes: seq<byte>)
      ensures this.bytes == bytes
    {
      this.bytes := bytes;
    }

    method WriteAll(data: seq<byte>)
      modifies this
      ensures bytes == old(bytes) + data
    {
      bytes := bytes + data;
    }

    /** Fills `buf`, or reports the end of the stream after draining it. */
    method ReadExact(buf: array<byte>) returns (ok: bool)
      modifies this, buf
      ensures ok == (buf.Length <= |old(bytes)|)
      ensures ok ==> buf[..] == old(bytes)[..buf.Length] && bytes == old(bytes)[buf.Length..]
      ensures !ok ==> bytes == []
    {
      var n := buf.Length;
      if |bytes| < n {
        bytes := [];
        return false;
      }
      var source := bytes;
      for i := 0 to n
        invariant buf[..i] == source[..i]
        invariant bytes == source
      {
        buf[i] := source[i];
      }
      bytes := bytes[n..];
      return true;
    }
  }

  predicate Sendable(m: Msg) {
    WellFormed(m) && m.header.payloadLen <= MAX_PAYLOAD_LEN
  }

  function FrameBytes(m: Msg): seq<byte> {
    HeaderBytes(m.header) + m.payload
  }

  /** What `write_frame` reports, in the order of its checks. */
  function WriteVerdict(m: Msg): Result<Unit, LaicError> {
    if m.header.payloadLen > MAX_PAYLOAD_LEN then Err(FramingError(m.header.payloadLen))
    else match CheckFields(m.header) case None => Ok(Unit) case Some(e) => Err(e)
  }

  datatype Reading = Reading(result: Result<Msg, LaicError>, rest: seq<byte>)

  /** What `read_frame` returns on a stream that holds `s`, and what it leaves unread. */
  function ReadOutcome(s: seq<byte>): (r: Reading)
    ensures r.result.Ok? ==> |r.rest| + HEADER_SIZE <= |s|
  {
    if |s| < HEADER_SIZE then Reading(Err(ReceiveFailed), [])
    else
      var rest := s[HEADER_SIZE..];
      match DecodeHeader(s[..HEADER_SIZE])
      case Err(e) => Reading(Err(e), rest)
      case Ok(h) =>
        if h.payloadLen > MAX_PAYLOAD_LEN then Reading(Err(FramingError(h.payloadLen)), rest)
        else if |rest| < h.payloadLen then Reading(Err(ReceiveFailed), [])
        else
          var m := Msg(h, rest[..h.payloadLen]);
          match CheckParts(m)
          case Some(e) => Reading(Err(e), rest[h.payloadLen..])
          case None => Reading(Ok(m), rest[h.payloadLen..])
  }

  /** A rejected write leaves the stream as it was. */
  method WriteFrame(writer: ByteStream, msg: Message) returns (r: Result<Unit, LaicError>)
    modifies writer
    ensures r == WriteVerdict(msg.Value())
    ensures writer.bytes == if r.Ok? then old(writer.bytes) + FrameBytes(msg.Value()) else old(writer.bytes)
  {
    if msg.header.payloadLen > MAX_PAYLOAD_LEN {
      return Err(FramingError(msg.header.payloadLen));
    }
    var headerBuf := new byte[HEADER_SIZE](_ => 0);
    r := Encode(msg.header, headerBuf);
    if r.Err? {
      return;
    }
    assert headerBuf[..] == HeaderBytes(msg.header);
    writer.WriteAll(headerBuf[..]);
    writer.WriteAll(msg.payload);
  }

  method ReadFrame(reader: ByteStream) returns (r: Result<Message, LaicError>)
    modifies reader
    ensures var expected := ReadOutcome(old(reader.bytes));
      && reader.bytes == expected.rest
      && match expected.result
         case Ok(m) => r.Ok? && fresh(r.value) && r.value.Valid() && r.value.Value() == m
         case Err(e) => r == Err(e)
  {
    var headerBuf := new byte[HEADER_SIZE](_ => 0);
    var ok := reader.ReadExact(headerBuf);
    if !ok {
      return Err(ReceiveFailed);
    }
    var decoded := DecodeHeader(headerBuf[..]);
    if decoded.Err? {
      return Err(decoded.error);
    }
    var header := decoded.value;
    if header.payloadLen > MAX_PAYLOAD_LEN {
      return Err(FramingError(header.payloadLen));
    }
    var payload := new byte[header.payloadLen](_ => 0);
    if header.payloadLen > 0 {
      ok := reader.ReadExact(payload);
      if !ok {
        return Err(ReceiveFailed);
      }
    }
    r := Message.FromParts(header, payload[..]);
  }

  /** One frame, with anything at all behind it. */
  lemma ReadInvertsWrite(m: Msg, rest: seq<byte>)
    requires Sendable(m)
    ensures ReadOutcome(FrameBytes(m) + rest) == Reading(Ok(m), rest)
    ensures WriteVerdict(m).Ok?
  {
    var s := FrameBytes(m) + rest;
    assert s[..HEADER_SIZE] == HeaderBytes(m.header) + [];
    DecodeInvertsEncode(m.header, []);
    assert s[HEADER_SIZE..] == m.payload + rest;
    assert (m.payload + rest)[..|m.payload|] == m.payload;
    assert (m.payload + rest)[|m.payload|..] == rest;
  }

  /** A message is written exactly if its payload is at most 64 MiB, and what is written reads back; what is not
      written, a reader would refuse with the same error. */
  lemma WritesExactlyTheReadable(m: Msg, rest: seq<byte>)
    requires WellFormed(m)
    ensures WriteVerdict(m).Ok? <==> |m.payload| <= 67_108_864
    ensures ReadOutcome(FrameBytes(m) + rest).result == match WriteVerdict(m) case Ok(_) => Ok(m) case Err(e) => Err(e)
  {
    if WriteVerdict(m).Ok? {
      ReadInvertsWrite(m, rest);
    } else {
      var s := FrameBytes(m) + rest;
      assert s[..HEADER_SIZE] == HeaderBytes(m.header) + [];
      DecodeInvertsEncode(m.header, []);
    }
  }

  /** Any frame the reader accepts is the unique encoding of the message it returns. */
  lemma WriteInvertsRead(s: seq<byte>)
    requires ReadOutcome(s).result.Ok?
    ensures var Reading(result, rest) := ReadOutcome(s);
      && Sendable(result.value) && FrameBytes(result.value) + rest == s
  {
    var h := DecodeHeader(s[..HEADER_SIZE]).value;
    EncodeInvertsDecode(s[..HEADER_SIZE]);
    assert s[..HEADER_SIZE][..HEADER_SIZE] == s[..HEADER_SIZE];
    var rest := s[HEADER_SIZE..];
    assert rest == rest[..h.payloadLen] + rest[h.payloadLen..];
    assert s == s[..HEADER_SIZE] + rest;
  }

  /** A read succeeds exactly at the front of a frame. */
  lemma ReadsExactlyFrames(s: seq<byte>)
    ensures ReadOutcome(s).result.Ok? <==> exists m, rest :: Sendable(m) && s == FrameBytes(m) + rest
  {
    if ReadOutcome(s).result.Ok? {
      WriteInvertsRead(s);
      assert s == FrameBytes(ReadOutcome(s).result.value) + ReadOutcome(s).rest;
    }
    if m, rest :| Sendable(m) && s == FrameBytes(m) + rest {
      ReadInvertsWrite(m, rest);
    }
  }

  /** A failed read has consumed the header and no more, if the header is at fault, and the whole stream if the
      stream was too short. */
  lemma FailedReads(s: seq<byte>)
    ensures match ReadOutcome(s).result
            case Ok(_) => true
            case Err(ReceiveFailed) =>
              && ReadOutcome(s).rest == []
              && (|s| < 40 || (DecodeHeader(s[..40]).Ok? && |s| < 40 + DecodeHeader(s[..40]).value.payloadLen))
            case Err(FramingError(n)) =>
              |s| >= 40 && ReadOutcome(s).rest == s[40..] && DecodeHeader(s[..40]).Ok? && n == DecodeHeader(s[..40]).value.payloadLen > 67_108_864
            case Err(e) => |s| >= 40 && ReadOutcome(s).rest == s[40..] && DecodeHeader(s[..40]) == Err(e)
  {
    if |s| >= HEADER_SIZE && DecodeHeader(s[..HEADER_SIZE]).Ok? {
      EncodeInvertsDecode(s[..HEADER_SIZE]);
    }
  }

  /** A frame cut short anywhere reads as an unexpected end of stream, never as another message. */
  lemma StrictPrefixFails(m: Msg, k: nat)
    requires Sendable(m) && k < |FrameBytes(m)|
    ensures ReadOutcome(FrameBytes(m)[..k]).result == Err(ReceiveFailed)
  {
    if k >= HEADER_SIZE {
      var s := FrameBytes(m)[..k];
      assert s[..HEADER_SIZE] == HeaderBytes(m.header) + [];
      DecodeInvertsEncode(m.header, []);
    }
  }

  // Whole streams

  function StreamBytes(ms: seq<Msg>): seq<byte> {
    if ms == [] then [] else FrameBytes(ms[0]) + StreamBytes(ms[1..])
  }

  /** Reads until the stream is used up or a read fails. */
  function ReadAll(s: seq<byte>): (seq<Msg>, Option<LaicError>)
    decreases |s|
  {
    if s == [] then ([], None)
    else
      var Reading(result, rest) := ReadOutcome(s);
      match result
      case Err(e) => ([], Some(e))
      case Ok(m) =>
        var (more, end) := ReadAll(rest);
        ([m] + more, end)
  }

  ghost predicate AllSendable(ms: seq<Msg>) {
    forall i :: 0 <= i < |ms| ==> Sendable(ms[i])
  }

  lemma ReadAllStep(m: Msg, rest: seq<byte>)
    requires Sendable(m)
    ensures ReadAll(FrameBytes(m) + rest) == ([m] + ReadAll(rest).0, ReadAll(rest).1)
  {
    ReadInvertsWrite(m, rest);
  }

  lemma ReadAllCut(m: Msg, k: nat)
    requires Sendable(m) && 0 < k < |FrameBytes(m)|
    ensures ReadAll(FrameBytes(m)[..k]) == ([], Some(ReceiveFailed))
  {
    StrictPrefixFails(m, k);
  }

  /** Reading back any sequence of written messages returns that sequence. */
  lemma {:induction false} ReadAllInvertsStream(ms: seq<Msg>)
    requires AllSendable(ms)
    ensures ReadAll(StreamBytes(ms)) == (ms, None)
  {
    if ms != [] {
      ReadAllStep(ms[0], StreamBytes(ms[1..]));
      ReadAllInvertsStream(ms[1..]);
      assert ms == [ms[0]] + ms[1..];
    }
  }

  /** Any stream that reads to its end without an error is the encoding of what was read. */
  lemma {:induction false} StreamInvertsReadAll(s: seq<byte>)
    requires ReadAll(s).1 == None
    ensures AllSendable(ReadAll(s).0) && StreamBytes(ReadAll(s).0) == s
    decreases |s|
  {
    if s != [] {
      var Reading(result, rest) := ReadOutcome(s);
      WriteInvertsRead(s);
      StreamInvertsReadAll(rest);
      assert ReadAll(s).0[1..] == ReadAll(rest).0;
    }
  }

  /** `got` is what a stream of `ms` delivers when it is cut after `k` bytes: the messages written in
      full before the cut, and an error unless the cut falls between two frames. */
  ghost predicate DeliversUpTo(ms: seq<Msg>, k: nat, got: seq<Msg>, end: Option<LaicError>) {
    && got <= ms
    && |StreamBytes(got)| <= k
    && (got == ms || k < |StreamBytes(ms[..|got| + 1])|)
    && end == (if k == |StreamBytes(got)| then None else Some(ReceiveFailed))
  }

  lemma StreamBytesPrepend(m: Msg, ms: seq<Msg>)
    ensures StreamBytes([m] + ms) == FrameBytes(m) + StreamBytes(ms)
  {
    assert ([m] + ms)[1..] == ms;
  }

  lemma DeliversOneMore(m: Msg, ms: seq<Msg>, k: nat, got: seq<Msg>, end: Option<LaicError>)
    requires DeliversUpTo(ms, k, got, end)
    ensures DeliversUpTo([m] + ms, |FrameBytes(m)| + k, [m] + got, end)
  {
    StreamBytesPrepend(m, got);
    if got != ms {
      StreamBytesPrepend(m, ms[..|got| + 1]);
      assert ([m] + ms)[..|[m] + got| + 1] == [m] + ms[..|got| + 1];
    }
  }

  /** Reading the first `k` bytes of a stream delivers the messages written in full before the cut. */
  ghost predicate DeliversCut(ms: seq<Msg>, k: nat)
    requires k <= |StreamBytes(ms)|
  {
    var (got, end) := ReadAll(StreamBytes(ms)[..k]);
    DeliversUpTo(ms, k, got, end)
  }

  lemma CutInFirst(m: Msg, ms: seq<Msg>, k: nat)
    requires Sendable(m) && k < |FrameBytes(m)|
    ensures k <= |StreamBytes([m] + ms)| && DeliversCut([m] + ms, k)
  {
    StreamBytesPrepend(m, ms);
    assert StreamBytes([m] + ms)[..k] == FrameBytes(m)[..k];
    if k > 0 {
      ReadAllCut(m, k);
    }
    StreamBytesPrepend(m, []);
    assert ([m] + ms)[..1] == [m] + [];
  }

  lemma CutBytes(m: Msg, ms: seq<Msg>, k: nat, n: nat)
    requires n <= |StreamBytes(ms)| && k == |FrameBytes(m)| + n
    ensures k <= |StreamBytes([m] + ms)|
    ensures StreamBytes([m] + ms)[..k] == FrameBytes(m) + StreamBytes(ms)[..n]
  {
    StreamBytesPrepend(m, ms);
  }

  lemma CutBehindFirst(m: Msg, ms: seq<Msg>, k: nat, n: nat)
    requires Sendable(m) && n <= |StreamBytes(ms)| && DeliversCut(ms, n) && k == |FrameBytes(m)| + n
    ensures k <= |StreamBytes([m] + ms)| && DeliversCut([m] + ms, k)
  {
    var rest := StreamBytes(ms)[..n];
    CutBytes(m, ms, k, n);
    ReadAllStep(m, rest);
    DeliversOneMore(m, ms, n, ReadAll(rest).0, ReadAll(rest).1);
  }

  lemma LengthsAdd(m: Msg, ms: seq<Msg>)
    ensures |StreamBytes([m] + ms)| == |FrameBytes(m)| + |StreamBytes(ms)|
  {
    StreamBytesPrepend(m, ms);
  }

  /** Truncation never invents, reorders or alters a message. */
  lemma {:induction false} TruncatedStream(ms: seq<Msg>, k: nat)
    requires AllSendable(ms) && k <= |StreamBytes(ms)|
    ensures DeliversCut(ms, k)
  {
    if ms != [] {
      var m, rest := ms[0], ms[1..];
      assert [m] + rest == ms;
      LengthsAdd(m, rest);
      if k < |FrameBytes(m)| {
        CutInFirst(m, rest, k);
      } else {
        TruncatedStream(rest, k - |FrameBytes(m)|);
        CutBehindFirst(m, rest, k, k - |FrameBytes(m)|);
      }
    }
  }
}
