/** The trust-domain handshake: one hello, one acknowledgement, and the checks on both sides.

    A control payload is modelled at the level of protobuf fields: one record of the seven fields of an
    acknowledgement, of which a hello sets the first three. A field that a message does not set, or does
    not know, takes its default or is skipped when the payload is decoded as that message. */
module Handshake {
  import opened Wrappers
  import opened Bytes
  import opened Tokens

  const CONTROL: u16 := 2
  const PROTOBUF: byte := 1
  const RAW: byte := 2

  datatype HandshakeError =
    | ReceiveFailed
    | InvalidPayloadFormat(format: byte)
    | UnexpectedMessageType(actual: u16)
    | UnexpectedPayloadFormat(actualFormat: byte)
    | UnsupportedHandshakeVersion(expectedVersion: u16, actualVersion: u16)
    | TrustDomainMismatch(expectedDomain: string, actualDomain: string)
    | HandshakeNonceMismatch
    | InvalidHandshakePayload

  /** Stable error codes; the transport's own receive error keeps its transport code. */
  function Code(e: HandshakeError): u32 {
    match e
    case ReceiveFailed => 0x0105
    case InvalidPayloadFormat(_) => 0x0304
    case UnexpectedMessageType(_) => 0x0307
    case UnsupportedHandshakeVersion(_, _) => 0x0308
    case TrustDomainMismatch(_, _) => 0x0309
    case HandshakeNonceMismatch => 0x030A
    case InvalidHandshakePayload => 0x030B
    case UnexpectedPayloadFormat(_) => 0x030C
  }

  datatype Wire = Wire(
    protocolVersion: u32,
    trustDomain: string,
    clientNonce: seq<byte>,
    serverNonce: seq<byte>,
    sessionId: seq<byte>,
    rejectionCode: u32,
    rejectedExpected: Option<string>)

  /** A framed control message; `body` is `None` when the payload is not valid protobuf. */
  datatype Envelope = Envelope(msgType: u16, payloadFormat: byte, body: Option<Wire>)

  datatype Config = Config(localDomain: string, expectedRemote: Option<string>, version: u16)

  datatype Session = Session(
    version: u16,
    localDomain: string,
    remoteDomain: string,
    clientNonce: Token,
    serverNonce: Token,
    sessionId: Token)

  type Verdict = Result<Unit, HandshakeError>
  type Outcome = Result<Session, HandshakeError>

  function Control(w: Wire): Envelope {
    Envelope(CONTROL, PROTOBUF, Some(w))
  }

  function HelloWire(config: Config, nonce: Token): Wire {
    Wire(config.version, config.localDomain, nonce, [], [], 0, None)
  }

  function AckWire(config: Config, clientNonce: Token, serverNonce: Token, sessionId: Token): Wire {
    Wire(config.version, config.localDomain, clientNonce, serverNonce, sessionId, 0, None)
  }

  function RefusalWire(config: Config, clientNonce: Token, e: HandshakeError): Wire {
    Wire(config.version, config.localDomain, clientNonce, [], [], Code(e),
         if e.TrustDomainMismatch? then Some(e.expectedDomain) else None)
  }

  function DecodeControl(e: Envelope): Result<Wire, HandshakeError> {
    if e.msgType != CONTROL then Err(UnexpectedMessageType(e.msgType))
    else if e.payloadFormat > RAW then Err(InvalidPayloadFormat(e.payloadFormat))
    else if e.payloadFormat != PROTOBUF then Err(UnexpectedPayloadFormat(e.payloadFormat))
    else match e.body case None => Err(InvalidHandshakePayload) case Some(w) => Ok(w)
  }

  function DecodeToken(bytes: seq<byte>): Result<Token, HandshakeError> {
    if |bytes| != HANDSHAKE_TOKEN_LEN then Err(InvalidHandshakePayload) else Ok(bytes)
  }

  function ValidateTrustDomain(value: string): Verdict {
    if value == "" then Err(InvalidHandshakePayload) else Ok(Unit)
  }

  function ValidateProtocolVersion(expected: u16, actual: u32): Verdict {
    if actual > U16_MAX then Err(InvalidHandshakePayload)
    else if actual != expected then Err(UnsupportedHandshakeVersion(expected, actual))
    else Ok(Unit)
  }

  function ValidateExpectedDomain(expected: Option<string>, actual: string): Verdict {
    if expected.Some? && expected.value != actual then Err(TrustDomainMismatch(expected.value, actual)) else Ok(Unit)
  }

  function ValidatePeerHello(config: Config, hello: Wire): Verdict {
    var _ :- ValidateTrustDomain(hello.trustDomain);
    var _ :- ValidateProtocolVersion(config.version, hello.protocolVersion);
    ValidateExpectedDomain(config.expectedRemote, hello.trustDomain)
  }

  function ValidateAckShape(ack: Wire): Verdict {
    if ack.rejectionCode == 0 then
      if ack.rejectedExpected.Some? then Err(InvalidHandshakePayload)
      else
        var _ :- DecodeToken(ack.serverNonce);
        var _ :- DecodeToken(ack.sessionId);
        Ok(Unit)
    else if ack.serverNonce != [] then Err(InvalidHandshakePayload)
    else if ack.sessionId != [] then Err(InvalidHandshakePayload)
    else Ok(Unit)
  }

  function ValidateAckRejection(config: Config, ack: Wire): Verdict {
    var _ :- ValidateAckShape(ack);
    if ack.rejectionCode == 0 then Ok(Unit)
    else if ack.rejectionCode == 0x0308 then
      if ack.protocolVersion > U16_MAX then Err(InvalidHandshakePayload)
      else if ack.protocolVersion == config.version then Err(InvalidHandshakePayload)
      else Err(UnsupportedHandshakeVersion(config.version, ack.protocolVersion))
    else if ack.rejectionCode == 0x0309 then
      match ack.rejectedExpected
      case None => Err(InvalidHandshakePayload)
      case Some(expected) => Err(TrustDomainMismatch(expected, config.localDomain))
    else Err(InvalidHandshakePayload)
  }

  /** What the client concludes from the message it receives after its hello. */
  function ClientConclusion(config: Config, nonce: Token, reply: Envelope): Outcome {
    var ack :- DecodeControl(reply);
    var _ :- ValidateProtocolVersion(config.version, ack.protocolVersion);
    var _ :- ValidateTrustDomain(ack.trustDomain);
    var _ :- ValidateExpectedDomain(config.expectedRemote, ack.trustDomain);
    var _ :- ValidateAckRejection(config, ack);
    var echoed :- DecodeToken(ack.clientNonce);
    if echoed != nonce then Err(HandshakeNonceMismatch)
    else
      var serverNonce :- DecodeToken(ack.serverNonce);
      var sessionId :- DecodeToken(ack.sessionId);
      Ok(Session(config.version, config.localDomain, ack.trustDomain, nonce, serverNonce, sessionId))
  }

  /** What the server sends back, if anything, and concludes; the two tokens are drawn only on success. */
  datatype Reaction = Reaction(reply: Option<Envelope>, outcome: Outcome)

  function ServerReaction(config: Config, hello: Envelope, serverNonce: Token, sessionId: Token): Reaction {
    match ValidateTrustDomain(config.localDomain)
    case Err(e) => Reaction(None, Err(e))
    case Ok(_) =>
      match DecodeControl(hello)
      case Err(e) => Reaction(None, Err(e))
      case Ok(w) =>
        match DecodeToken(w.clientNonce)
        case Err(e) => Reaction(None, Err(e))
        case Ok(nonce) =>
          match ValidatePeerHello(config, w)
          case Err(e) => Reaction(Some(Control(RefusalWire(config, nonce, e))), Err(e))
          case Ok(_) =>
            Reaction(Some(Control(AckWire(config, nonce, serverNonce, sessionId))),
                     Ok(Session(config.version, config.localDomain, w.trustDomain, nonce, serverNonce, sessionId)))
  }

  // The two procedures over a connection

  /** An established connection: what has been sent on it, and what its peer's stream will deliver. */
  class Connection {
    var sent: seq<Envelope>
    var inbox: seq<Envelope>

    constructor (inbox: seq<Envelope>)
      ensures sent == [] && this.inbox == inbox
    {
      sent, this.inbox := [], inbox;
    }

    method Send(e: Envelope)
      modifies this
      ensures sent == old(sent) + [e] && inbox == old(inbox)
    {
      sent := sent + [e];
    }

    method Receive() returns (r: Result<Envelope, HandshakeError>)
      modifies this
      ensures sent == old(sent)
      ensures old(inbox) == [] ==> r == Err(ReceiveFailed) && inbox == []
      ensures old(inbox) != [] ==> r == Ok(old(inbox)[0]) && inbox == old(inbox)[1..]
    {
      if inbox == [] {
        return Err(ReceiveFailed);
      }
      r := Ok(inbox[0]);
      inbox := inbox[1..];
    }
  }

  method ClientHandshake(conn: Connection, tokens: HandshakeCounter, config: Config, clock: Option<u128>) returns (r: Outcome)
    requires tokens.Valid()
    modifies conn, tokens
    ensures tokens.Valid()
    ensures var nonce := TokenOf(CounterAt(old(tokens.draws)), Nanos(clock));
            if config.localDomain == "" then
              r == Err(InvalidHandshakePayload) && conn.sent == old(conn.sent) && tokens.draws == old(tokens.draws)
            else
              && conn.sent == old(conn.sent) + [Control(HelloWire(config, nonce))]
              && tokens.draws == old(tokens.draws) + 1
              && r == (if old(conn.inbox) == [] then Err(ReceiveFailed)
                       else ClientConclusion(config, nonce, old(conn.inbox)[0]))
  {
    if config.localDomain == "" {
      return Err(InvalidHandshakePayload);
    }
    var nonce := tokens.NextToken(clock);
    conn.Send(Control(HelloWire(config, nonce)));
    var reply := conn.Receive();
    if reply.Err? {
      return Err(reply.error);
    }
    r := ClientConclusion(config, nonce, reply.value);
  }

  method ServerHandshake(conn: Connection, tokens: HandshakeCounter, config: Config, clock1: Option<u128>, clock2: Option<u128>)
    returns (r: Outcome)
    requires tokens.Valid()
    modifies conn, tokens
    ensures tokens.Valid()
    ensures config.localDomain == "" || old(conn.inbox) == [] ==>
              r.Err? && conn.sent == old(conn.sent) && tokens.draws == old(tokens.draws)
    ensures config.localDomain != "" && old(conn.inbox) != [] ==>
              var d := old(tokens.draws);
              var reaction := ServerReaction(config, old(conn.inbox)[0],
                                             TokenOf(CounterAt(d), Nanos(clock1)), TokenOf(CounterAt(d + 1), Nanos(clock2)));
              && r == reaction.outcome
              && conn.sent == old(conn.sent) + (if reaction.reply.Some? then [reaction.reply.value] else [])
              && tokens.draws == d + if r.Ok? then 2 else 0
  {
    if config.localDomain == "" {
      return Err(InvalidHandshakePayload);
    }
    var message := conn.Receive();
    if message.Err? {
      return Err(message.error);
    }
    var hello := DecodeControl(message.value);
    if hello.Err? {
      return Err(hello.error);
    }
    var clientNonce := DecodeToken(hello.value.clientNonce);
    if clientNonce.Err? {
      return Err(clientNonce.error);
    }
    match ValidatePeerHello(config, hello.value) {
      case Ok(_) =>
        var serverNonce := tokens.NextToken(clock1);
        var sessionId := tokens.NextToken(clock2);
        conn.Send(Control(AckWire(config, clientNonce.value, serverNonce, sessionId)));
        return Ok(Session(config.version, config.localDomain, hello.value.trustDomain,
                          clientNonce.value, serverNonce, sessionId));
      case Err(e) =>
        conn.Send(Control(RefusalWire(config, clientNonce.value, e)));
        return Err(e);
    }
  }

  // What a single handshake guarantees

  /** A session is accepted only from an acknowledgement that echoes this client's nonce and carries
      session material; everything in the session comes from that acknowledgement or the config. */
  lemma AcceptedAck(config: Config, nonce: Token, reply: Envelope)
    requires ClientConclusion(config, nonce, reply).Ok?
    ensures reply.body.Some?
    ensures var w := reply.body.value;
            && reply == Control(w)
            && w.protocolVersion == config.version && w.rejectionCode == 0
            && w.clientNonce == nonce
            && |w.serverNonce| == HANDSHAKE_TOKEN_LEN && |w.sessionId| == HANDSHAKE_TOKEN_LEN
            && w.trustDomain != "" && (config.expectedRemote.Some? ==> w.trustDomain == config.expectedRemote.value)
            && ClientConclusion(config, nonce, reply)
               == Ok(Session(config.version, config.localDomain, w.trustDomain, nonce, w.serverNonce, w.sessionId))
  {
  }

  predicate Expects(expected: Option<string>, domain: string) {
    expected.None? || expected.value == domain
  }

  /** A control message in protobuf that could be decoded. */
  predicate Readable(e: Envelope) {
    e.msgType == CONTROL && e.payloadFormat == PROTOBUF && e.body.Some?
  }

  /** The client accepts exactly an acknowledgement of its own version that rejects nothing, echoes its nonce,
      carries session material and names a domain, the expected one if one is expected. */
  lemma ClientAcceptsExactly(config: Config, nonce: Token, reply: Envelope)
    ensures ClientConclusion(config, nonce, reply).Ok? <==>
      && Readable(reply)
      && var w := reply.body.value;
      && w.protocolVersion == config.version && w.rejectionCode == 0 && w.rejectedExpected.None? && w.clientNonce == nonce
      && |w.serverNonce| == HANDSHAKE_TOKEN_LEN && |w.sessionId| == HANDSHAKE_TOKEN_LEN
      && w.trustDomain != "" && Expects(config.expectedRemote, w.trustDomain)
  {
  }

  /** The envelope can be answered: by a server with a domain of its own, for a nonce of sixteen bytes. */
  predicate Answerable(config: Config, hello: Envelope) {
    config.localDomain != "" && Readable(hello) && |hello.body.value.clientNonce| == HANDSHAKE_TOKEN_LEN
  }

  /** The server accepts exactly an answerable hello of its own version that names a domain, the expected one if
      one is expected. */
  lemma ServerAcceptsExactly(config: Config, hello: Envelope, serverNonce: Token, sessionId: Token)
    ensures var outcome := ServerReaction(config, hello, serverNonce, sessionId).outcome;
      && (outcome.Ok? <==>
            && Answerable(config, hello)
            && var w := hello.body.value;
               w.protocolVersion == config.version && w.trustDomain != "" && Expects(config.expectedRemote, w.trustDomain))
      && (outcome.Ok? ==>
            var w := hello.body.value;
            outcome.value == Session(config.version, config.localDomain, w.trustDomain, w.clientNonce, serverNonce, sessionId))
  {
  }

  /** The server answers exactly the answerable, and every answer echoes the nonce, names the server's version
      and domain, and says what the server concluded. */
  lemma ServerAnswersExactly(config: Config, hello: Envelope, serverNonce: Token, sessionId: Token)
    ensures var r := ServerReaction(config, hello, serverNonce, sessionId);
      && (r.reply.Some? <==> Answerable(config, hello))
      && (r.reply.Some? ==>
            && Readable(r.reply.value)
            && var a := r.reply.value.body.value;
            && a.clientNonce == hello.body.value.clientNonce
            && a.protocolVersion == config.version && a.trustDomain == config.localDomain
            && match r.outcome
               case Ok(_) => a.rejectionCode == 0 && a.serverNonce == serverNonce && a.sessionId == sessionId
               case Err(e) =>
                 && a.rejectionCode == Code(e) && a.rejectionCode != 0 && a.serverNonce == [] && a.sessionId == []
                 && (a.rejectedExpected.Some? <==> e.TrustDomainMismatch?)
                 && (e.TrustDomainMismatch? ==> a.rejectedExpected == config.expectedRemote))
  {
  }

  /** Every error of the server is true of the hello; a version is found fault with only where there is a
      domain, and a domain only where the version is right. */
  lemma ServerErrorsAreTrue(config: Config, hello: Envelope, serverNonce: Token, sessionId: Token)
    ensures match ServerReaction(config, hello, serverNonce, sessionId).outcome
            case Ok(_) => true
            case Err(UnexpectedMessageType(t)) => config.localDomain != "" && t == hello.msgType != CONTROL
            case Err(InvalidPayloadFormat(f)) => hello.msgType == CONTROL && f == hello.payloadFormat > RAW
            case Err(UnexpectedPayloadFormat(f)) => hello.msgType == CONTROL && f == hello.payloadFormat != PROTOBUF && f <= RAW
            case Err(UnsupportedHandshakeVersion(expected, actual)) =>
              && Answerable(config, hello) && hello.body.value.trustDomain != ""
              && expected == config.version && actual == hello.body.value.protocolVersion && actual != expected
            case Err(TrustDomainMismatch(expected, actual)) =>
              && Answerable(config, hello) && hello.body.value.protocolVersion == config.version
              && config.expectedRemote == Some(expected) && actual == hello.body.value.trustDomain && actual != expected && actual != ""
            case Err(InvalidHandshakePayload) =>
              || config.localDomain == ""
              || (hello.msgType == CONTROL && hello.payloadFormat == PROTOBUF
                  && (hello.body.None? || |hello.body.value.clientNonce| != HANDSHAKE_TOKEN_LEN
                      || hello.body.value.trustDomain == "" || hello.body.value.protocolVersion > U16_MAX))
            case Err(_) => false
  {
  }

  /** Every error of the client is true of what it received. A nonce is found fault with only where nothing else
      is wrong, and a mismatch of domains is either side's. */
  lemma ClientErrorsAreTrue(config: Config, nonce: Token, reply: Envelope)
    ensures match ClientConclusion(config, nonce, reply)
            case Ok(_) => true
            case Err(UnexpectedMessageType(t)) => t == reply.msgType != CONTROL
            case Err(InvalidPayloadFormat(f)) => reply.msgType == CONTROL && f == reply.payloadFormat > RAW
            case Err(UnexpectedPayloadFormat(f)) => reply.msgType == CONTROL && f == reply.payloadFormat != PROTOBUF && f <= RAW
            case Err(UnsupportedHandshakeVersion(expected, actual)) =>
              Readable(reply) && expected == config.version && actual == reply.body.value.protocolVersion && actual != expected
            case Err(TrustDomainMismatch(expected, actual)) =>
              && Readable(reply)
              && var w := reply.body.value;
              && w.protocolVersion == config.version && w.trustDomain != ""
              && if Expects(config.expectedRemote, w.trustDomain)
                 then w.rejectionCode == 0x0309 && w.rejectedExpected == Some(expected) && actual == config.localDomain
                 else config.expectedRemote == Some(expected) && actual == w.trustDomain
            case Err(HandshakeNonceMismatch) =>
              && Readable(reply) && reply.body.value.clientNonce != nonce
              && ClientConclusion(config, reply.body.value.clientNonce, reply).Ok?
            case Err(InvalidHandshakePayload) =>
              && reply.msgType == CONTROL && reply.payloadFormat == PROTOBUF
              && (reply.body.None?
                  || var w := reply.body.value;
                  || w.protocolVersion > U16_MAX || w.trustDomain == "" || |w.clientNonce| != HANDSHAKE_TOKEN_LEN
                  || if w.rejectionCode == 0
                     then w.rejectedExpected.Some? || |w.serverNonce| != HANDSHAKE_TOKEN_LEN || |w.sessionId| != HANDSHAKE_TOKEN_LEN
                     else w.serverNonce != [] || w.sessionId != [] || w.rejectionCode != 0x0309 || w.rejectedExpected.None?)
            case Err(_) => false
  {
  }

  /** A hello delivered in place of an acknowledgement is never accepted, although it decodes as one. */
  lemma HelloIsNotAnAck(config: Config, nonce: Token, other: Config, otherNonce: Token)
    ensures ClientConclusion(config, nonce, Control(HelloWire(other, otherNonce))).Err?
  {
  }

  /** Every acknowledgement a server sends has the shape a client asks for. */
  lemma RepliesAreWellShaped(config: Config, hello: Envelope, serverNonce: Token, sessionId: Token)
    requires ServerReaction(config, hello, serverNonce, sessionId).reply.Some?
    ensures var reply := ServerReaction(config, hello, serverNonce, sessionId).reply.value;
            && DecodeControl(reply).Ok?
            && ValidateAckShape(DecodeControl(reply).value).Ok?
            && (DecodeControl(reply).value.rejectionCode == 0
                <==> ServerReaction(config, hello, serverNonce, sessionId).outcome.Ok?)
  {
  }

  /** The version error inside the rejection check cannot surface from the client procedure: the
      client reports an unsupported version exactly when the earlier version check found one. */
  lemma VersionErrorsComeFromTheVersionCheck(config: Config, nonce: Token, reply: Envelope)
    ensures var c := ClientConclusion(config, nonce, reply);
            (c.Err? && c.error.UnsupportedHandshakeVersion?)
            <==> DecodeControl(reply).Ok?
                 && (var v := DecodeControl(reply).value.protocolVersion; v <= U16_MAX && v != config.version)
    ensures DecodeControl(reply).Ok? && ValidateProtocolVersion(config.version, DecodeControl(reply).value.protocolVersion).Ok?
            ==> (var r := ValidateAckRejection(config, DecodeControl(reply).value);
                 !(r.Err? && r.error.UnsupportedHandshakeVersion?))
  {
  }

  /** An undisturbed handshake between two properly configured peers. */
  function HonestServer(client: Config, server: Config, nonce: Token, serverNonce: Token, sessionId: Token): Reaction {
    ServerReaction(server, Control(HelloWire(client, nonce)), serverNonce, sessionId)
  }

  /** The complete outcome table of an undisturbed handshake. The two sides agree, with the same code
      when they fail, except in one case: the server accepts and the client does not expect its domain. */
  lemma HonestOutcomes(client: Config, server: Config, nonce: Token, serverNonce: Token, sessionId: Token)
    requires client.localDomain != "" && server.localDomain != ""
    ensures var s := HonestServer(client, server, nonce, serverNonce, sessionId);
      && s.reply.Some?
      && var c := ClientConclusion(client, nonce, s.reply.value);
      && (s.outcome.Ok? <==> client.version == server.version && Expects(server.expectedRemote, client.localDomain))
      && (c.Ok? <==> s.outcome.Ok? && Expects(client.expectedRemote, server.localDomain))
      && (s.outcome.Err? ==> c.Err? && Code(c.error) == Code(s.outcome.error)
                             && Code(c.error) == if client.version != server.version then 0x0308 else 0x0309)
      && (s.outcome.Ok? && c.Err? ==> c.error == TrustDomainMismatch(client.expectedRemote.value, server.localDomain))
      && (c.Ok? ==> s.outcome.value == c.value.(localDomain := c.value.remoteDomain, remoteDomain := c.value.localDomain))
  {
  }
}
