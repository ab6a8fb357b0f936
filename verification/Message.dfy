/** Complete messages: a header, a payload, and the invariants the public API keeps. */
module Messages {
  import opened Wrappers
  import opened Bytes
  import opened Bits
  import opened Errors
  import opened Header

  const FLAG_END_OF_STREAM: u32 := 8
  const FLAG_HAS_CREDIT_GRANT: u32 := 16
  const END_OF_STREAM_BIT: nat := 3
  const CREDIT_GRANT_BIT: nat := 4

  /** A message as a value, with no identity. */
  datatype Msg = Msg(header: MessageHeader, payload: seq<byte>)

  /** What `from_parts` checks: the protocol fields, then the length. */
  function CheckParts(m: Msg): Option<LaicError> {
    match CheckFields(m.header)
    case Some(e) => Some(e)
    case None =>
      if m.header.payloadLen != |m.payload| then Some(PayloadLengthMismatch(m.header.payloadLen, |m.payload|))
      else None
  }

  predicate WellFormed(m: Msg) {
    CheckParts(m).None?
  }

  /** The lengths are compared only where the header is right, and their error names both. */
  lemma LengthsAreCheckedLast(m: Msg)
    ensures match CheckParts(m)
            case None => CheckFields(m.header).None? && m.header.payloadLen == |m.payload|
            case Some(PayloadLengthMismatch(announced, actual)) =>
              CheckFields(m.header).None? && announced == m.header.payloadLen != actual == |m.payload|
            case Some(e) => CheckFields(m.header) == Some(e)
  {
  }

  lemma FlagBits(k: nat)
    ensures Bit(FLAG_END_OF_STREAM, k) <==> k == END_OF_STREAM_BIT
    ensures Bit(FLAG_HAS_CREDIT_GRANT, k) <==> k == CREDIT_GRANT_BIT
  {
    assert Pow2(2) == 2 * Pow2(1);
    assert Pow2(4) == 2 * (2 * Pow2(2));
    assert Pow2(3) == 2 * Pow2(2);
    BitOfPow2(3, k);
    BitOfPow2(4, k);
  }

  function SetFlag(flags: u32, mask: u32): u32 {
    FitsU32(flags, mask);
    Or(flags, mask)
  }

  function ClearFlag(flags: u32, mask: u32): u32 {
    AndNotBound(flags, mask);
    AndNot(flags, mask)
  }

  lemma FitsU32(a: u32, b: u32)
    ensures Or(a, b) < 0x1_0000_0000
  {
    assert Pow2(32) == 0x1_0000_0000 by {
      assert Pow2(4) == 16 * Pow2(0);
      assert Pow2(8) == 16 * Pow2(4);
      assert Pow2(12) == 16 * Pow2(8);
      assert Pow2(16) == 16 * Pow2(12);
      assert Pow2(20) == 16 * Pow2(16);
      assert Pow2(24) == 16 * Pow2(20);
      assert Pow2(28) == 16 * Pow2(24);
      assert Pow2(32) == 16 * Pow2(28);
    }
    OrBound(a, b, 32);
  }

  // The setters as functions on values; the class below is proved to perform exactly these.

  datatype Setter = CreditGrant(credits: u16) | CorrelationId(id: u64) | EndOfStream | NotEndOfStream

  function NewMsg(msgType: u16, msgId: u64, format: byte, qos: byte, payload: seq<byte>): Msg
    requires |payload| < 0x1_0000_0000
  {
    Msg(MessageHeader(MAGIC, VERSION, msgType, msgId, 0, |payload|, format, qos, 0, 0, [0, 0, 0, 0]), payload)
  }

  function Apply(m: Msg, s: Setter): Msg {
    match s
    case CreditGrant(credits) =>
      var flags := if credits > 0 then SetFlag(m.header.flags, FLAG_HAS_CREDIT_GRANT)
                   else ClearFlag(m.header.flags, FLAG_HAS_CREDIT_GRANT);
      m.(header := m.header.(creditGrant := credits, flags := flags))
    case CorrelationId(id) => m.(header := m.header.(correlationId := id))
    case EndOfStream => m.(header := m.header.(flags := SetFlag(m.header.flags, FLAG_END_OF_STREAM)))
    case NotEndOfStream => m.(header := m.header.(flags := ClearFlag(m.header.flags, FLAG_END_OF_STREAM)))
  }

  function ApplyAll(m: Msg, setters: seq<Setter>): Msg {
    if setters == [] then m
    else Apply(ApplyAll(m, setters[..|setters| - 1]), setters[|setters| - 1])
  }

  /** The value the last setter of each kind left behind, read off the history alone. */
  function LastCredits(setters: seq<Setter>): u16 {
    if setters == [] then 0
    else
      var s := setters[|setters| - 1];
      if s.CreditGrant? then s.credits else LastCredits(setters[..|setters| - 1])
  }

  function LastCorrelation(setters: seq<Setter>): u64 {
    if setters == [] then 0
    else
      var s := setters[|setters| - 1];
      if s.CorrelationId? then s.id else LastCorrelation(setters[..|setters| - 1])
  }

  predicate LastEndOfStream(setters: seq<Setter>) {
    if setters == [] then false
    else
      var s := setters[|setters| - 1];
      if s.EndOfStream? then true
      else if s.NotEndOfStream? then false
      else LastEndOfStream(setters[..|setters| - 1])
  }

  /** Every message reachable from `new` by any history of setters passes `from_parts` and `encode`, and still
      has what it was made of. Correlation, grant and the two flag bits say exactly what the history says; the
      other thirty flag bits are never touched. */
  lemma {:induction false} ReachableMessages(msgType: u16, msgId: u64, format: byte, qos: byte, payload: seq<byte>,
                                             setters: seq<Setter>)
    requires |payload| < 0x1_0000_0000 && KnownFormat(format) && KnownQos(qos)
    ensures var m := ApplyAll(NewMsg(msgType, msgId, format, qos, payload), setters);
      && WellFormed(m) && CheckFields(m.header).None? && m.payload == payload
      && m.header.msgType == msgType && m.header.msgId == msgId && m.header.payloadLen == |payload|
      && m.header.payloadFormat == format && m.header.qos == qos && m.header.reserved == [0, 0, 0, 0]
      && m.header.correlationId == LastCorrelation(setters)
      && m.header.creditGrant == LastCredits(setters)
      && (Bit(m.header.flags, CREDIT_GRANT_BIT) <==> LastCredits(setters) > 0)
      && (Bit(m.header.flags, END_OF_STREAM_BIT) <==> LastEndOfStream(setters))
      && forall k: nat :: k != CREDIT_GRANT_BIT && k != END_OF_STREAM_BIT ==> !Bit(m.header.flags, k)
  {
    if setters == [] {
      forall k: nat ensures !Bit(0, k) {
        ZeroHasNoBits(k);
      }
    } else {
      var before := setters[..|setters| - 1];
      ReachableMessages(msgType, msgId, format, qos, payload, before);
      var flags := ApplyAll(NewMsg(msgType, msgId, format, qos, payload), before).header.flags;
      forall k: nat
        ensures Bit(SetFlag(flags, FLAG_HAS_CREDIT_GRANT), k) <==> Bit(flags, k) || k == CREDIT_GRANT_BIT
        ensures Bit(ClearFlag(flags, FLAG_HAS_CREDIT_GRANT), k) <==> Bit(flags, k) && k != CREDIT_GRANT_BIT
        ensures Bit(SetFlag(flags, FLAG_END_OF_STREAM), k) <==> Bit(flags, k) || k == END_OF_STREAM_BIT
        ensures Bit(ClearFlag(flags, FLAG_END_OF_STREAM), k) <==> Bit(flags, k) && k != END_OF_STREAM_BIT
      {
        FlagBits(k);
        BitOfOr(flags, FLAG_HAS_CREDIT_GRANT, k);
        BitOfAndNot(flags, FLAG_HAS_CREDIT_GRANT, k);
        BitOfOr(flags, FLAG_END_OF_STREAM, k);
        BitOfAndNot(flags, FLAG_END_OF_STREAM, k);
      }
    }
  }

  /** A message object: private fields in the source, kept consistent by every public operation. */
  class Message {
    var header: MessageHeader
    var payload: seq<byte>

    function Value(): Msg
      reads this
    {
      Msg(header, payload)
    }

    predicate Valid()
      reads this
    {
      WellFormed(Value())
    }

    constructor New(msgType: u16, msgId: u64, format: byte, qos: byte, payload: seq<byte>)
      requires |payload| < 0x1_0000_0000 && KnownFormat(format) && KnownQos(qos)
      ensures Valid() && Value() == NewMsg(msgType, msgId, format, qos, payload)
    {
      this.header :=
        MessageHeader(MAGIC, VERSION, msgType, msgId, 0, |payload|, format, qos, 0, 0, [0, 0, 0, 0]);
      this.payload := payload;
    }

    constructor Assemble(header: MessageHeader, payload: seq<byte>)
      requires WellFormed(Msg(header, payload))
      ensures Valid() && Value() == Msg(header, payload)
    {
      this.header := header;
      this.payload := payload;
    }

    static method FromParts(header: MessageHeader, payload: seq<byte>) returns (r: Result<Message, LaicError>)
      ensures match CheckParts(Msg(header, payload))
              case None => r.Ok? && fresh(r.value) && r.value.Valid() && r.value.Value() == Msg(header, payload)
              case Some(e) => r == Err(e)
    {
      if header.magic != MAGIC {
        return Err(InvalidMagic(header.magic));
      }
      if header.version != VERSION {
        return Err(UnsupportedVersion(header.version));
      }
      if !KnownFormat(header.payloadFormat) {
        return Err(InvalidPayloadFormat(header.payloadFormat));
      }
      if !KnownQos(header.qos) {
        return Err(InvalidQos(header.qos));
      }
      if header.payloadLen != |payload| {
        return Err(PayloadLengthMismatch(header.payloadLen, |payload|));
      }
      var m := new Message.Assemble(header, payload);
      return Ok(m);
    }

    method SetCreditGrant(credits: u16)
      modifies this
      ensures Value() == Apply(old(Value()), CreditGrant(credits))
      ensures old(Valid()) ==> Valid()
    {
      header := header.(creditGrant := credits);
      if credits > 0 {
        header := header.(flags := SetFlag(header.flags, FLAG_HAS_CREDIT_GRANT));
      } else {
        header := header.(flags := ClearFlag(header.flags, FLAG_HAS_CREDIT_GRANT));
      }
    }

    method SetCorrelationId(id: u64)
      modifies this
      ensures Value() == Apply(old(Value()), CorrelationId(id))
      ensures old(Valid()) ==> Valid()
    {
      header := header.(correlationId := id);
    }

    method SetEndOfStream()
      modifies this
      ensures Value() == Apply(old(Value()), EndOfStream)
      ensures old(Valid()) ==> Valid()
    {
      header := header.(flags := SetFlag(header.flags, FLAG_END_OF_STREAM));
    }

    method ClearEndOfStream()
      modifies this
      ensures Value() == Apply(old(Value()), NotEndOfStream)
      ensures old(Valid()) ==> Valid()
    {
      header := header.(flags := ClearFlag(header.flags, FLAG_END_OF_STREAM));
    }
  }
}
