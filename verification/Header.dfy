/** The fixed 40-byte message header and its little-endian codec. */
module Header {
  import opened Wrappers
  import opened Bytes
  import opened Errors

  const MAGIC: u32 := 0x4C41_4943
  const VERSION: u16 := 1
  const HEADER_SIZE: nat := 40

  type Reserved = s: seq<byte> | |s| == 4 witness [0, 0, 0, 0]

  datatype MessageHeader = MessageHeader(
    magic: u32,
    version: u16,
    msgType: u16,
    msgId: u64,
    correlationId: u64,
    payloadLen: u32,
    payloadFormat: byte,
    qos: byte,
    creditGrant: u16,
    flags: u32,
    reserved: Reserved)

  /** The closed sets checked by `PayloadFormat::from_u8` and `Qos::from_u8`. */
  predicate KnownFormat(b: byte) {
    b <= 2
  }

  predicate KnownQos(b: byte) {
    b <= 2
  }

  /** The field checks shared by `encode` and `from_parts`, in the order the source makes them. */
  function CheckFields(h: MessageHeader): Option<LaicError> {
    if h.magic != MAGIC then Some(InvalidMagic(h.magic))
    else if h.version != VERSION then Some(UnsupportedVersion(h.version))
    else if !KnownFormat(h.payloadFormat) then Some(InvalidPayloadFormat(h.payloadFormat))
    else if !KnownQos(h.qos) then Some(InvalidQos(h.qos))
    else None
  }

  /** The 40 bytes of the wire layout. */
  function HeaderBytes(h: MessageHeader): (b: seq<byte>)
    ensures |b| == HEADER_SIZE
  {
    ToLe(h.magic, 4) + ToLe(h.version, 2) + ToLe(h.msgType, 2) + ToLe(h.msgId, 8)
    + ToLe(h.correlationId, 8) + ToLe(h.payloadLen, 4) + [h.payloadFormat] + [h.qos]
    + ToLe(h.creditGrant, 2) + ToLe(h.flags, 4) + h.reserved
  }

  /** Reads a number of the given width; the bound is what makes the machine cast lossless. */
  function Word(b: seq<byte>, width: nat): (n: nat)
    requires |b| == width
    ensures n < Pow256(width)
  {
    ToLeInvertsFromLe(b);
    FromLe(b)
  }

  function DecodeHeader(buf: seq<byte>): Result<MessageHeader, LaicError> {
    if |buf| < HEADER_SIZE then Err(BufferTooShort(|buf|, HEADER_SIZE))
    else
      Widths();
      var magic := Word(buf[0..4], 4);
      if magic != MAGIC then Err(InvalidMagic(magic))
      else
        var version := Word(buf[4..6], 2);
        if version != VERSION then Err(UnsupportedVersion(version))
        else
          var payloadFormat := buf[28];
          if !KnownFormat(payloadFormat) then Err(InvalidPayloadFormat(payloadFormat))
          else
            var qos := buf[29];
            if !KnownQos(qos) then Err(InvalidQos(qos))
            else
              Ok(MessageHeader(
                magic,
                version,
                Word(buf[6..8], 2),
                Word(buf[8..16], 8),
                Word(buf[16..24], 8),
                Word(buf[24..28], 4),
                payloadFormat,
                qos,
                Word(buf[30..32], 2),
                Word(buf[32..36], 4),
                buf[36..40]))
  }

  /** The bytes of a header, cut at the offsets `decode` reads. */
  lemma HeaderSlices(h: MessageHeader)
    ensures var b := HeaderBytes(h);
      && b[0..4] == ToLe(h.magic, 4) && b[4..6] == ToLe(h.version, 2)
      && b[6..8] == ToLe(h.msgType, 2) && b[8..16] == ToLe(h.msgId, 8)
      && b[16..24] == ToLe(h.correlationId, 8) && b[24..28] == ToLe(h.payloadLen, 4)
      && b[28] == h.payloadFormat && b[29] == h.qos
      && b[30..32] == ToLe(h.creditGrant, 2) && b[32..36] == ToLe(h.flags, 4)
      && b[36..40] == h.reserved
  {
  }

  /** The same cuts in a longer buffer. */
  lemma BufferSlices(h: MessageHeader, rest: seq<byte>)
    ensures var b := HeaderBytes(h) + rest;
      && b[0..4] == ToLe(h.magic, 4) && b[4..6] == ToLe(h.version, 2)
      && b[6..8] == ToLe(h.msgType, 2) && b[8..16] == ToLe(h.msgId, 8)
      && b[16..24] == ToLe(h.correlationId, 8) && b[24..28] == ToLe(h.payloadLen, 4)
      && b[28] == h.payloadFormat && b[29] == h.qos
      && b[30..32] == ToLe(h.creditGrant, 2) && b[32..36] == ToLe(h.flags, 4)
      && b[36..40] == h.reserved
  {
    var b := HeaderBytes(h);
    var buf := b + rest;
    HeaderSlices(h);
    assert buf[0..4] == b[0..4] && buf[4..6] == b[4..6] && buf[6..8] == b[6..8];
    assert buf[8..16] == b[8..16] && buf[16..24] == b[16..24] && buf[24..28] == b[24..28];
    assert buf[30..32] == b[30..32] && buf[32..36] == b[32..36] && buf[36..40] == b[36..40];
  }

  lemma WordsInvert(h: MessageHeader)
    ensures Word(ToLe(h.magic, 4), 4) == h.magic && Word(ToLe(h.version, 2), 2) == h.version
    ensures Word(ToLe(h.msgType, 2), 2) == h.msgType && Word(ToLe(h.msgId, 8), 8) == h.msgId
    ensures Word(ToLe(h.correlationId, 8), 8) == h.correlationId && Word(ToLe(h.payloadLen, 4), 4) == h.payloadLen
    ensures Word(ToLe(h.creditGrant, 2), 2) == h.creditGrant && Word(ToLe(h.flags, 4), 4) == h.flags
  {
    Widths();
    FromLeInvertsToLe(h.magic, 4);
    FromLeInvertsToLe(h.version, 2);
    FromLeInvertsToLe(h.msgType, 2);
    FromLeInvertsToLe(h.msgId, 8);
    FromLeInvertsToLe(h.correlationId, 8);
    FromLeInvertsToLe(h.payloadLen, 4);
    FromLeInvertsToLe(h.creditGrant, 2);
    FromLeInvertsToLe(h.flags, 4);
  }

  /** Decoding the layout of any header reports exactly what the sender's own checks report: the
      same header when they pass, and the same error when they do not. */
  lemma DecodeInvertsEncode(h: MessageHeader, rest: seq<byte>)
    ensures DecodeHeader(HeaderBytes(h) + rest) ==
            match CheckFields(h) case None => Ok(h) case Some(e) => Err(e)
  {
    Widths();
    BufferSlices(h, rest);
    WordsInvert(h);
  }

  /** Whatever `decode` accepts, `encode` accepts and writes back byte for byte. */
  lemma EncodeInvertsDecode(buf: seq<byte>)
    requires DecodeHeader(buf).Ok?
    ensures CheckFields(DecodeHeader(buf).value).None?
    ensures HeaderBytes(DecodeHeader(buf).value) == buf[..HEADER_SIZE]
  {
    ToLeInvertsFromLe(buf[0..4]);
    ToLeInvertsFromLe(buf[4..6]);
    ToLeInvertsFromLe(buf[6..8]);
    ToLeInvertsFromLe(buf[8..16]);
    ToLeInvertsFromLe(buf[16..24]);
    ToLeInvertsFromLe(buf[24..28]);
    ToLeInvertsFromLe(buf[30..32]);
    ToLeInvertsFromLe(buf[32..36]);
    assert buf[..40] == buf[0..4] + buf[4..6] + buf[6..8] + buf[8..16] + buf[16..24] + buf[24..28]
                        + [buf[28]] + [buf[29]] + buf[30..32] + buf[32..36] + buf[36..40];
  }

  lemma MagicBytes()
    ensures ToLe(MAGIC, 4) == [0x43, 0x49, 0x41, 0x4C] && ToLe(VERSION, 2) == [1, 0]
  {
    assert ToLe(0x4C41_4943, 4) == [0x43] + ToLe(0x4C_4149, 3);
    assert ToLe(0x4C_4149, 3) == [0x49] + ToLe(0x4C41, 2);
    assert ToLe(0x4C41, 2) == [0x41] + ToLe(0x4C, 1);
    assert ToLe(1, 2) == [1] + ToLe(0, 1);
  }

  /** Decoding accepts exactly the buffers of forty bytes and more that start with `CIAL` and version one, and
      whose payload format and quality of service are known; and each error is the first of these that fails. */
  lemma DecodesExactly(buf: seq<byte>)
    ensures match DecodeHeader(buf)
            case Ok(h) =>
              && |buf| >= 40 && buf[..4] == [0x43, 0x49, 0x41, 0x4C] && buf[4..6] == [1, 0] && buf[28] <= 2 && buf[29] <= 2
              && h.payloadFormat == buf[28] && h.qos == buf[29]
            case Err(BufferTooShort(has, needs)) => has == |buf| < needs == 40
            case Err(InvalidMagic(_)) => |buf| >= 40 && buf[..4] != [0x43, 0x49, 0x41, 0x4C]
            case Err(UnsupportedVersion(_)) =>
              |buf| >= 40 && buf[..4] == [0x43, 0x49, 0x41, 0x4C] && buf[4..6] != [1, 0]
            case Err(InvalidPayloadFormat(f)) =>
              |buf| >= 40 && buf[..4] == [0x43, 0x49, 0x41, 0x4C] && buf[4..6] == [1, 0] && f == buf[28] > 2
            case Err(InvalidQos(q)) =>
              |buf| >= 40 && buf[..4] == [0x43, 0x49, 0x41, 0x4C] && buf[4..6] == [1, 0] && buf[28] <= 2 && q == buf[29] > 2
            case Err(_) => false
  {
    Widths();
    MagicBytes();
    if |buf| >= HEADER_SIZE {
      ToLeInvertsFromLe(buf[0..4]);
      ToLeInvertsFromLe(buf[4..6]);
      FromLeInvertsToLe(MAGIC, 4);
      FromLeInvertsToLe(VERSION, 2);
      assert buf[..4] == buf[0..4];
    }
  }

  /** `buf[at..at + src.len()].copy_from_slice(src)`. */
  method CopyFromSlice(buf: array<byte>, at: nat, src: seq<byte>)
    requires at + |src| <= buf.Length
    modifies buf
    ensures buf[..at + |src|] == old(buf[..at]) + src
    ensures forall j :: at + |src| <= j < buf.Length ==> buf[j] == old(buf[j])
  {
    for i := 0 to |src|
      invariant buf[..at] == old(buf[..at])
      invariant buf[at..at + i] == src[..i]
      invariant forall j :: at + i <= j < buf.Length ==> buf[j] == old(buf[j])
    {
      buf[at + i] := src[i];
    }
    assert buf[..at + |src|] == buf[..at] + buf[at..at + |src|];
  }

  /** The first half of the layout. */
  method WriteFront(h: MessageHeader, buf: array<byte>)
    requires buf.Length >= HEADER_SIZE
    modifies buf
    ensures buf[..24] == ToLe(h.magic, 4) + ToLe(h.version, 2) + ToLe(h.msgType, 2) + ToLe(h.msgId, 8) + ToLe(h.correlationId, 8)
    ensures buf[24..] == old(buf[24..])
  {
    CopyFromSlice(buf, 0, ToLe(h.magic, 4));
    CopyFromSlice(buf, 4, ToLe(h.version, 2));
    CopyFromSlice(buf, 6, ToLe(h.msgType, 2));
    CopyFromSlice(buf, 8, ToLe(h.msgId, 8));
    CopyFromSlice(buf, 16, ToLe(h.correlationId, 8));
    assert forall j :: 24 <= j < buf.Length ==> buf[j] == old(buf[j]);
  }

  /** The second half, behind it. */
  method WriteBack(h: MessageHeader, buf: array<byte>)
    requires buf.Length >= HEADER_SIZE
    modifies buf
    ensures buf[..HEADER_SIZE] == old(buf[..24]) + ToLe(h.payloadLen, 4) + [h.payloadFormat, h.qos]
                                  + ToLe(h.creditGrant, 2) + ToLe(h.flags, 4) + h.reserved
    ensures buf[HEADER_SIZE..] == old(buf[HEADER_SIZE..])
  {
    CopyFromSlice(buf, 24, ToLe(h.payloadLen, 4));
    ghost var front := buf[..28];
    buf[28] := h.payloadFormat;
    buf[29] := h.qos;
    assert buf[..30] == front + [h.payloadFormat, h.qos];
    CopyFromSlice(buf, 30, ToLe(h.creditGrant, 2));
    CopyFromSlice(buf, 32, ToLe(h.flags, 4));
    CopyFromSlice(buf, 36, h.reserved);
  }

  /** Writes the header over the first 40 bytes of `buf`, or leaves `buf` alone and says why not. */
  method Encode(h: MessageHeader, buf: array<byte>) returns (r: Result<Unit, LaicError>)
    modifies buf
    ensures r == if buf.Length < HEADER_SIZE then Err(BufferTooShort(buf.Length, HEADER_SIZE))
                 else match CheckFields(h) case None => Ok(Unit) case Some(e) => Err(e)
    ensures r.Err? ==> buf[..] == old(buf[..])
    ensures r.Ok? ==> buf[..] == HeaderBytes(h) + old(buf[HEADER_SIZE..])
  {
    if buf.Length < HEADER_SIZE {
      return Err(BufferTooShort(buf.Length, HEADER_SIZE));
    }
    if h.magic != MAGIC {
      return Err(InvalidMagic(h.magic));
    }
    if h.version != VERSION {
      return Err(UnsupportedVersion(h.version));
    }
    if !KnownFormat(h.payloadFormat) {
      return Err(InvalidPayloadFormat(h.payloadFormat));
    }
    if !KnownQos(h.qos) {
      return Err(InvalidQos(h.qos));
    }
    WriteFront(h, buf);
    assert buf[HEADER_SIZE..] == old(buf[HEADER_SIZE..]) by {
      assert forall j :: 24 <= j < buf.Length ==> buf[j] == buf[24..][j - 24];
    }
    WriteBack(h, buf);
    assert buf[..HEADER_SIZE] == HeaderBytes(h);
    assert buf[..] == buf[..HEADER_SIZE] + buf[HEADER_SIZE..];
    return Ok(Unit);
  }
}
