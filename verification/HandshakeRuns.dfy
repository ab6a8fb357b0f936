/** Any number of interleaved handshakes over a channel that may replay, but not forge, messages. */
module HandshakeRuns {
  import opened Wrappers
  import opened Bytes
  import opened Tokens
  import opened Handshake

  /** One draw from the counter of one process, with the clock it saw. */
  datatype Ticket = Ticket(process: nat, draw: nat, nanos: u128)

  function TokenFor(t: Ticket): Token {
    TokenOf(CounterAt(t.draw), t.nanos)
  }

  datatype Progress = Waiting | Done(heard: nat, outcome: Outcome)
  datatype Client = Client(config: Config, ticket: Ticket, progress: Progress)
  datatype Server = Server(config: Config, heard: nat, nonceTicket: Ticket, idTicket: Ticket, session: Session)

  /** A server that has accepted a hello and drawn its nonce, but not yet the session id. */
  datatype Pending = Pending(config: Config, heard: nat, nonceTicket: Ticket)

  /** `origin` is history: which session sent the message, or which domain refused. */
  datatype Origin = HelloOf(client: nat) | AckOf(server: nat) | Refusal(domain: string)
  datatype Packet = Packet(envelope: Envelope, origin: Origin)

  /** `net` holds every message ever sent; any of them may be delivered, any number of times. */
  datatype World = World(net: seq<Packet>, clients: seq<Client>, pending: seq<Option<Pending>>, servers: seq<Server>,
                         draws: map<nat, nat>)

  /** A server's two draws are two actions, so that other sessions of its process may draw in between. */
  datatype Action =
    | SendHello(process: nat, config: Config, nanos: u128)
    | Respond(process: nat, config: Config, packet: nat, nanos: u128)
    | Answer(index: nat, nanos: u128)
    | Conclude(client: nat, packet: nat)

  const QUIET := World([], [], [], [], map[])

  function Draws(w: World, process: nat): nat {
    if process in w.draws then w.draws[process] else 0
  }

  function Act(w: World, a: Action): World {
    match a
    case SendHello(process, config, nanos) =>
      if config.localDomain == "" then w
      else
        var d := Draws(w, process);
        var ticket := Ticket(process, d, nanos);
        w.(net := w.net + [Packet(Control(HelloWire(config, TokenFor(ticket))), HelloOf(|w.clients|))],
           clients := w.clients + [Client(config, ticket, Waiting)],
           draws := w.draws[process := d + 1])
    case Respond(process, config, packet, nanos) =>
      if packet >= |w.net| then w
      else
        var d := Draws(w, process);
        var ticket := Ticket(process, d, nanos);
        var reaction := ServerReaction(config, w.net[packet].envelope, TokenFor(ticket), TokenFor(ticket));
        if reaction.reply.None? then w
        else if reaction.outcome.Err? then
          w.(net := w.net + [Packet(reaction.reply.value, Refusal(config.localDomain))])
        else w.(pending := w.pending + [Some(Pending(config, packet, ticket))], draws := w.draws[process := d + 1])
    case Answer(index, nanos) =>
      if index >= |w.pending| || w.pending[index].None? || w.pending[index].value.heard >= |w.net| then w
      else
        var p := w.pending[index].value;
        var process := p.nonceTicket.process;
        var d := Draws(w, process);
        var ticket := Ticket(process, d, nanos);
        var reaction := ServerReaction(p.config, w.net[p.heard].envelope, TokenFor(p.nonceTicket), TokenFor(ticket));
        if reaction.outcome.Err? then w
        else
          w.(net := w.net + [Packet(reaction.reply.value, AckOf(|w.servers|))],
             pending := w.pending[index := None],
             servers := w.servers + [Server(p.config, p.heard, p.nonceTicket, ticket, reaction.outcome.value)],
             draws := w.draws[process := d + 1])
    case Conclude(client, packet) =>
      if client >= |w.clients| || packet >= |w.net| || w.clients[client].progress.Done? then w
      else
        var c := w.clients[client];
        var outcome := ClientConclusion(c.config, TokenFor(c.ticket), w.net[packet].envelope);
        w.(clients := w.clients[client := c.(progress := Done(packet, outcome))])
  }

  function Run(actions: seq<Action>): World {
    if actions == [] then QUIET else Act(Run(actions[..|actions| - 1]), actions[|actions| - 1])
  }

  // The invariant of every run

  /** No message is forged: each is what its origin sent. */
  ghost predicate Sent(w: World, p: Packet) {
    match p.origin
    case HelloOf(i) =>
      i < |w.clients| && p.envelope == Control(HelloWire(w.clients[i].config, TokenFor(w.clients[i].ticket)))
    case AckOf(j) =>
      && j < |w.servers|
      && var s := w.servers[j];
      p.envelope == Control(AckWire(s.config, s.session.clientNonce, s.session.serverNonce, s.session.sessionId))
    case Refusal(domain) =>
      && p.envelope.body.Some?
      && p.envelope.body.value.rejectionCode != 0 && p.envelope.body.value.trustDomain == domain
  }

  ghost predicate ServerRecord(w: World, s: Server) {
    && s.heard < |w.net|
    && DecodeControl(w.net[s.heard].envelope).Ok?
    && var hello := DecodeControl(w.net[s.heard].envelope).value;
    && hello.protocolVersion == s.config.version
    && |hello.clientNonce| == HANDSHAKE_TOKEN_LEN
    && s.config.localDomain != "" && hello.trustDomain != "" && Expects(s.config.expectedRemote, hello.trustDomain)
    && s.session == Session(s.config.version, s.config.localDomain, hello.trustDomain, hello.clientNonce,
                            TokenFor(s.nonceTicket), TokenFor(s.idTicket))
  }

  ghost predicate ClientRecord(w: World, c: Client) {
    && c.config.localDomain != ""
    && (c.progress.Done? ==>
          && c.progress.heard < |w.net|
          && c.progress.outcome == ClientConclusion(c.config, TokenFor(c.ticket), w.net[c.progress.heard].envelope))
  }

  /** Draws of one process are used once. */
  ghost predicate FreshTickets(w: World) {
    FreshNonces(w) && FreshIds(w)
  }

  ghost predicate FreshNonces(w: World) {
    && (forall i :: 0 <= i < |w.clients| ==> w.clients[i].ticket.draw < Draws(w, w.clients[i].ticket.process))
    && (forall i, j :: 0 <= i < j < |w.clients| && w.clients[i].ticket.process == w.clients[j].ticket.process
          ==> w.clients[i].ticket.draw < w.clients[j].ticket.draw)
  }

  ghost predicate FreshIds(w: World) {
    && (forall i :: 0 <= i < |w.servers| ==> w.servers[i].idTicket.draw < Draws(w, w.servers[i].idTicket.process))
    && (forall i, j :: 0 <= i < j < |w.servers| && w.servers[i].idTicket.process == w.servers[j].idTicket.process
          ==> w.servers[i].idTicket.draw < w.servers[j].idTicket.draw)
  }

  ghost predicate Consistent(w: World) {
    && (forall k :: 0 <= k < |w.net| ==> Sent(w, w.net[k]))
    && (forall j :: 0 <= j < |w.servers| ==> ServerRecord(w, w.servers[j]))
    && (forall i :: 0 <= i < |w.clients| ==> ClientRecord(w, w.clients[i]))
  }

  /** Facts about messages and sessions survive anything that only adds to the world. */
  ghost predicate Extends(v: World, w: World) {
    && v.net <= w.net && v.servers <= w.servers && |v.clients| <= |w.clients|
    && forall i :: 0 <= i < |v.clients| ==>
         v.clients[i].config == w.clients[i].config && v.clients[i].ticket == w.clients[i].ticket
  }

  lemma SentSurvives(v: World, w: World)
    requires Extends(v, w) && Consistent(v)
    ensures forall k :: 0 <= k < |v.net| ==> Sent(w, w.net[k])
    ensures forall j :: 0 <= j < |v.servers| ==> ServerRecord(w, w.servers[j])
    ensures forall i :: 0 <= i < |v.clients| ==> ClientRecord(w, v.clients[i])
  {
    forall k | 0 <= k < |v.net| ensures Sent(w, w.net[k]) {
      assert Sent(v, v.net[k]);
    }
    forall j | 0 <= j < |v.servers| ensures ServerRecord(w, w.servers[j]) {
      assert ServerRecord(v, v.servers[j]);
    }
    forall i | 0 <= i < |v.clients| ensures ClientRecord(w, v.clients[i]) {
      assert ClientRecord(v, v.clients[i]);
    }
  }

  lemma ReactionSends(w: World, config: Config, packet: nat, t1: Ticket, t2: Ticket)
    requires packet < |w.net|
    ensures var reaction := ServerReaction(config, w.net[packet].envelope, TokenFor(t1), TokenFor(t2));
      && (reaction.outcome.Ok? ==>
            && var s := Server(config, packet, t1, t2, reaction.outcome.value);
            && ServerRecord(w, s)
            && reaction.reply == Some(Control(AckWire(config, s.session.clientNonce, s.session.serverNonce, s.session.sessionId))))
      && (reaction.reply.Some? && reaction.outcome.Err? ==>
            && reaction.reply.value.body.Some?
            && reaction.reply.value.body.value.rejectionCode != 0
            && reaction.reply.value.body.value.trustDomain == config.localDomain)
  {
  }

  lemma ActKeepsConsistent(w: World, a: Action)
    requires Consistent(w)
    ensures Consistent(Act(w, a))
  {
    var v := Act(w, a);
    SentSurvives(w, v);
    if a.Respond? && a.packet < |w.net| {
      var ticket := Ticket(a.process, Draws(w, a.process), a.nanos);
      ReactionSends(w, a.config, a.packet, ticket, ticket);
      assert forall k :: |w.net| <= k < |v.net| ==> Sent(v, v.net[k]);
    } else if a.Answer? && a.index < |w.pending| && w.pending[a.index].Some? && w.pending[a.index].value.heard < |w.net| {
      var p := w.pending[a.index].value;
      var process := p.nonceTicket.process;
      ReactionSends(w, p.config, p.heard, p.nonceTicket, Ticket(process, Draws(w, process), a.nanos));
      assert forall k :: |w.net| <= k < |v.net| ==> Sent(v, v.net[k]);
    }
  }

  lemma ActKeepsFreshNonces(w: World, a: Action)
    requires FreshNonces(w)
    ensures FreshNonces(Act(w, a))
  {
  }

  lemma ActKeepsFreshIds(w: World, a: Action)
    requires FreshIds(w)
    ensures FreshIds(Act(w, a))
  {
  }

  lemma {:induction false} RunIsConsistent(actions: seq<Action>)
    ensures Consistent(Run(actions)) && FreshTickets(Run(actions))
  {
    if actions != [] {
      RunIsConsistent(actions[..|actions| - 1]);
      ActKeepsConsistent(Run(actions[..|actions| - 1]), actions[|actions| - 1]);
      ActKeepsFreshNonces(Run(actions[..|actions| - 1]), actions[|actions| - 1]);
      ActKeepsFreshIds(Run(actions[..|actions| - 1]), actions[|actions| - 1]);
    }
  }

  ghost predicate KnowsPeer(config: Config, session: Session) {
    && session.version == config.version && session.localDomain == config.localDomain != ""
    && session.remoteDomain != "" && Expects(config.expectedRemote, session.remoteDomain)
  }

  /** In every run, each session on either side names both domains, and the remote one is the expected one. */
  lemma SessionsKnowTheirPeers(actions: seq<Action>)
    ensures var w := Run(actions);
      && (forall s <- w.servers :: KnowsPeer(s.config, s.session))
      && forall c <- w.clients :: c.progress.Done? && c.progress.outcome.Ok? ==> KnowsPeer(c.config, c.progress.outcome.value)
  {
    var w := Run(actions);
    RunIsConsistent(actions);
    forall s <- w.servers ensures KnowsPeer(s.config, s.session) {
      assert ServerRecord(w, s);
    }
    forall c <- w.clients | c.progress.Done? && c.progress.outcome.Ok? ensures KnowsPeer(c.config, c.progress.outcome.value) {
      assert ClientRecord(w, c);
      AcceptedAck(c.config, TokenFor(c.ticket), w.net[c.progress.heard].envelope);
    }
  }

  // Agreement

  predicate Succeeded(w: World, i: nat) {
    i < |w.clients| && w.clients[i].progress.Done? && w.clients[i].progress.outcome.Ok?
  }

  function SessionOf(w: World, i: nat): Session
    requires Succeeded(w, i)
  {
    w.clients[i].progress.outcome.value
  }

  /** Client session `i` and server session `j` hold the same version, nonces and session id, and the
      client names the server's own domain. */
  predicate Agrees(w: World, i: nat, j: nat) {
    && Succeeded(w, i) && j < |w.servers|
    && var c, s := SessionOf(w, i), w.servers[j].session;
    && c.version == s.version && c.clientNonce == s.clientNonce && c.serverNonce == s.serverNonce
    && c.sessionId == s.sessionId && c.remoteDomain == s.localDomain
  }

  /** The client's own domain is the one the server recorded. */
  predicate Crossed(w: World, i: nat, j: nat)
    requires Agrees(w, i, j)
  {
    w.servers[j].session.remoteDomain == SessionOf(w, i).localDomain
  }

  predicate HeardHello(w: World, j: nat)
    requires j < |w.servers|
  {
    w.servers[j].heard < |w.net| && w.net[w.servers[j].heard].origin.HelloOf?
  }

  /** What the server of session `j` took for a hello. */
  function Heard(w: World, j: nat): Envelope
    requires j < |w.servers| && w.servers[j].heard < |w.net|
  {
    w.net[w.servers[j].heard].envelope
  }

  /** Neither rejected nor answered: something a server can check before it replies. */
  predicate HelloShaped(e: Envelope) {
    e.body.Some? && e.body.value.rejectionCode == 0 && e.body.value.serverNonce == []
  }

  /** The domain that a message comes from. */
  function Speaker(w: World, p: Packet): string
    requires p.origin.HelloOf? ==> p.origin.client < |w.clients|
    requires p.origin.AckOf? ==> p.origin.server < |w.servers|
  {
    match p.origin
    case HelloOf(i) => w.clients[i].config.localDomain
    case AckOf(j) => w.servers[j].config.localDomain
    case Refusal(domain) => domain
  }

  predicate NoncesDistinct(w: World) {
    forall i, j :: 0 <= i < j < |w.clients| ==> TokenFor(w.clients[i].ticket) != TokenFor(w.clients[j].ticket)
  }

  predicate SessionIdsDistinct(w: World) {
    forall i, j :: 0 <= i < j < |w.servers| ==> w.servers[i].session.sessionId != w.servers[j].session.sessionId
  }

  lemma PartnerExists(w: World, i: nat) returns (j: nat)
    requires Consistent(w) && Succeeded(w, i)
    ensures Agrees(w, i, j)
  {
    var c := w.clients[i];
    assert ClientRecord(w, c);
    var p := w.net[c.progress.heard];
    AcceptedAck(c.config, TokenFor(c.ticket), p.envelope);
    assert Sent(w, p);
    match p.origin {
      case AckOf(server) =>
        j := server;
        assert ServerRecord(w, w.servers[j]);
      case HelloOf(_) =>
        assert false;
      case Refusal =>
        assert false;
    }
  }

  lemma PartnerHeardTheClient(w: World, i: nat, j: nat)
    requires Consistent(w) && NoncesDistinct(w) && Agrees(w, i, j) && HeardHello(w, j)
    ensures w.net[w.servers[j].heard].origin == HelloOf(i) && Crossed(w, i, j)
  {
    var s := w.servers[j];
    assert ServerRecord(w, s);
    assert Sent(w, w.net[s.heard]);
    assert ClientRecord(w, w.clients[i]);
    AcceptedAck(w.clients[i].config, TokenFor(w.clients[i].ticket), w.net[w.clients[i].progress.heard].envelope);
    var k := w.net[s.heard].origin.client;
    assert TokenFor(w.clients[k].ticket) == TokenFor(w.clients[i].ticket);
    assert k == i;
  }

  /** Since nothing is forged, the shape of a message tells whether a client sent it as a hello. */
  lemma ShapeTellsOrigin(w: World, j: nat)
    requires Consistent(w) && j < |w.servers|
    ensures w.servers[j].heard < |w.net|
    ensures HeardHello(w, j) <==> HelloShaped(Heard(w, j))
  {
    assert ServerRecord(w, w.servers[j]);
    assert Sent(w, w.net[w.servers[j].heard]);
    match w.net[w.servers[j].heard].origin {
      case HelloOf(_) =>
      case AckOf(k) => assert |w.servers[k].session.serverNonce| == HANDSHAKE_TOKEN_LEN;
      case Refusal(_) =>
    }
  }

  predicate CrossedIff(w: World, i: nat, j: nat)
    requires Agrees(w, i, j)
  {
    && w.servers[j].heard < |w.net|
    && var p := w.net[w.servers[j].heard];
    && (p.origin.HelloOf? ==> p.origin.client < |w.clients|)
    && (p.origin.AckOf? ==> p.origin.server < |w.servers|)
    && (Crossed(w, i, j) <==> HelloShaped(Heard(w, j)) || Speaker(w, p) == SessionOf(w, i).localDomain)
  }

  /** The domains of an agreeing pair are crossed exactly if the server heard a hello, or else heard
      something from the client's own domain. */
  lemma CrossedExactly(w: World, i: nat, j: nat)
    requires Consistent(w) && NoncesDistinct(w) && Agrees(w, i, j)
    ensures CrossedIff(w, i, j)
  {
    var s := w.servers[j];
    ShapeTellsOrigin(w, j);
    assert ServerRecord(w, s) && Sent(w, w.net[s.heard]);
    if HeardHello(w, j) {
      PartnerHeardTheClient(w, i, j);
    }
  }

  /** Injective agreement: in every run in which client nonces are distinct, each successful client
      session agrees with a server session, no server session serves two clients, and the domains are
      crossed exactly if that server session began from a hello or from a message of the client's own
      domain. If session ids are distinct as well, the server session is unique. */
  lemma InjectiveAgreement(actions: seq<Action>)
    requires NoncesDistinct(Run(actions))
    ensures Consistent(Run(actions))
    ensures var w := Run(actions);
      && (forall i: nat | Succeeded(w, i) :: exists j: nat :: Agrees(w, i, j))
      && (forall i: nat, k: nat, j: nat | Agrees(w, i, j) && Agrees(w, k, j) :: i == k)
      && (forall i: nat, j: nat | Agrees(w, i, j) :: CrossedIff(w, i, j))
      && (SessionIdsDistinct(w) ==> forall i: nat, j: nat, k: nat | Agrees(w, i, j) && Agrees(w, i, k) :: j == k)
  {
    var w := Run(actions);
    RunIsConsistent(actions);
    forall i: nat | Succeeded(w, i) ensures exists j: nat :: Agrees(w, i, j) {
      var j := PartnerExists(w, i);
    }
    forall i: nat, k: nat, j: nat | Agrees(w, i, j) && Agrees(w, k, j) ensures i == k {
      NonceOfSession(w, i);
      NonceOfSession(w, k);
    }
    forall i: nat, j: nat | Agrees(w, i, j) ensures CrossedIff(w, i, j) {
      CrossedExactly(w, i, j);
    }
  }

  // Domains that run only clients or only servers

  predicate RunsServer(actions: seq<Action>, domain: string) {
    exists k :: 0 <= k < |actions| && actions[k].Respond? && actions[k].config.localDomain == domain
  }

  predicate RunsClient(actions: seq<Action>, domain: string) {
    exists k :: 0 <= k < |actions| && actions[k].SendHello? && actions[k].config.localDomain == domain
  }

  ghost predicate DomainsApart(actions: seq<Action>) {
    forall domain :: !(RunsClient(actions, domain) && RunsServer(actions, domain))
  }

  /** Every domain in the world comes from an action. */
  ghost predicate Inhabited(w: World, actions: seq<Action>) {
    && (forall i :: 0 <= i < |w.clients| ==> RunsClient(actions, w.clients[i].config.localDomain))
    && (forall i :: 0 <= i < |w.pending| && w.pending[i].Some? ==> RunsServer(actions, w.pending[i].value.config.localDomain))
    && (forall j :: 0 <= j < |w.servers| ==> RunsServer(actions, w.servers[j].config.localDomain))
    && (forall k :: 0 <= k < |w.net| && w.net[k].origin.Refusal? ==> RunsServer(actions, w.net[k].origin.domain))
  }

  lemma DomainsSurvive(w: World, actions: seq<Action>, a: Action)
    requires Inhabited(w, actions)
    ensures Inhabited(w, actions + [a])
    ensures a.Respond? ==> RunsServer(actions + [a], a.config.localDomain)
    ensures a.SendHello? ==> RunsClient(actions + [a], a.config.localDomain)
  {
    var more := actions + [a];
    assert more[|actions|] == a;
    forall domain | RunsServer(actions, domain) ensures RunsServer(more, domain) {
      var k :| 0 <= k < |actions| && actions[k].Respond? && actions[k].config.localDomain == domain;
      assert more[k] == actions[k];
    }
    forall domain | RunsClient(actions, domain) ensures RunsClient(more, domain) {
      var k :| 0 <= k < |actions| && actions[k].SendHello? && actions[k].config.localDomain == domain;
      assert more[k] == actions[k];
    }
  }

  lemma ActKeepsInhabited(w: World, actions: seq<Action>, a: Action)
    requires Inhabited(w, actions)
    ensures Inhabited(Act(w, a), actions + [a])
  {
    DomainsSurvive(w, actions, a);
  }

  lemma {:induction false} RunIsInhabited(actions: seq<Action>)
    ensures Inhabited(Run(actions), actions)
  {
    if actions != [] {
      var before := actions[..|actions| - 1];
      RunIsInhabited(before);
      ActKeepsInhabited(Run(before), before, actions[|actions| - 1]);
      assert before + [actions[|actions| - 1]] == actions;
    }
  }

  /** If no domain runs both clients and servers, a test of the message decides. */
  lemma CrossedByShape(actions: seq<Action>, i: nat, j: nat)
    requires NoncesDistinct(Run(actions)) && DomainsApart(actions) && Agrees(Run(actions), i, j)
    ensures var w := Run(actions);
            w.servers[j].heard < |w.net| && (Crossed(w, i, j) <==> HelloShaped(Heard(w, j)))
  {
    var w := Run(actions);
    RunIsConsistent(actions);
    RunIsInhabited(actions);
    CrossedExactly(w, i, j);
    ShapeTellsOrigin(w, j);
    NonceOfSession(w, i);
    assert RunsClient(actions, w.clients[i].config.localDomain);
    assert Sent(w, w.net[w.servers[j].heard]);
  }

  lemma NonceOfSession(w: World, i: nat)
    requires Consistent(w) && Succeeded(w, i)
    ensures SessionOf(w, i).clientNonce == TokenFor(w.clients[i].ticket)
    ensures SessionOf(w, i).localDomain == w.clients[i].config.localDomain
  {
    assert ClientRecord(w, w.clients[i]);
    AcceptedAck(w.clients[i].config, TokenFor(w.clients[i].ticket), w.net[w.clients[i].progress.heard].envelope);
  }

  predicate DrawnBy(t: Ticket, process: nat) {
    t.process == process && t.nanos < TWO_64
  }

  /** Within one process the hypotheses are facts, for up to 2^64 draws and clocks of 64 bits. */
  lemma OneProcessIsEnough(actions: seq<Action>, process: nat)
    requires Draws(Run(actions), process) <= TWO_64
    ensures var w := Run(actions);
      && ((forall c <- w.clients :: DrawnBy(c.ticket, process)) ==> NoncesDistinct(w))
      && ((forall s <- w.servers :: DrawnBy(s.idTicket, process)) ==> SessionIdsDistinct(w))
  {
    var w := Run(actions);
    RunIsConsistent(actions);
    if forall c <- w.clients :: DrawnBy(c.ticket, process) {
      forall i, j | 0 <= i < j < |w.clients|
        ensures TokenFor(w.clients[i].ticket) != TokenFor(w.clients[j].ticket)
      {
        var t, u := w.clients[i].ticket, w.clients[j].ticket;
        DrawsAreDistinct(t.draw, t.nanos, u.draw, u.nanos);
      }
    }
    if forall s <- w.servers :: DrawnBy(s.idTicket, process) {
      forall i, j | 0 <= i < j < |w.servers|
        ensures w.servers[i].session.sessionId != w.servers[j].session.sessionId
      {
        var t, u := w.servers[i].idTicket, w.servers[j].idTicket;
        assert ServerRecord(w, w.servers[i]) && ServerRecord(w, w.servers[j]);
        DrawsAreDistinct(t.draw, t.nanos, u.draw, u.nanos);
      }
    }
  }

  /** An acknowledgement of any other client's hello always fails the nonce check or an earlier one. */
  lemma OthersAcksAreRefused(actions: seq<Action>, i: nat, k: nat, packet: nat)
    requires NoncesDistinct(Run(actions))
    requires i < |Run(actions).clients| && k < |Run(actions).clients| && i != k
    requires packet < |Run(actions).net| && Run(actions).net[packet].origin.AckOf?
    requires var j := Run(actions).net[packet].origin.server;
             j < |Run(actions).servers| && Run(actions).servers[j].session.clientNonce == TokenFor(Run(actions).clients[k].ticket)
    ensures var c := Run(actions).clients[i];
            ClientConclusion(c.config, TokenFor(c.ticket), Run(actions).net[packet].envelope).Err?
  {
    var w := Run(actions);
    RunIsConsistent(actions);
    assert Sent(w, w.net[packet]);
    var c := w.clients[i];
    if ClientConclusion(c.config, TokenFor(c.ticket), w.net[packet].envelope).Ok? {
      AcceptedAck(c.config, TokenFor(c.ticket), w.net[packet].envelope);
      assert false;
    }
  }

  // Both hypotheses are needed

  lemma RunSnoc(actions: seq<Action>, a: Action)
    ensures Run(actions + [a]) == Act(Run(actions), a)
  {
    assert (actions + [a])[..|actions|] == actions;
  }

  lemma RunFive(a: Action, b: Action, c: Action, d: Action, e: Action)
    ensures Run([a, b, c, d, e]) == Act(Act(Act(Act(Act(QUIET, a), b), c), d), e)
  {
    assert [] + [a] == [a] && [a] + [b] == [a, b] && [a, b] + [c] == [a, b, c];
    assert [a, b, c] + [d] == [a, b, c, d] && [a, b, c, d] + [e] == [a, b, c, d, e];
    RunSnoc([], a);
    RunSnoc([a], b);
    RunSnoc([a, b], c);
    RunSnoc([a, b, c], d);
    RunSnoc([a, b, c, d], e);
  }

  function Peer(domain: string): Config {
    Config(domain, None, 1)
  }

  /** Both actions of a server without delay. */
  function Serve(w: World, process: nat, domain: string, packet: nat, n1: u128, n2: u128): World {
    Act(Act(w, Respond(process, Peer(domain), packet, n1)), Answer(|w.pending|, n2))
  }

  /** A server without expectations answers any well-formed payload of its own version. */
  lemma OpenServerAnswers(w: World, process: nat, domain: string, packet: nat, n1: u128, n2: u128)
    requires domain != "" && packet < |w.net|
    requires DecodeControl(w.net[packet].envelope).Ok?
    requires var hello := DecodeControl(w.net[packet].envelope).value;
             hello.protocolVersion == 1 && hello.trustDomain != "" && |hello.clientNonce| == HANDSHAKE_TOKEN_LEN
    ensures var hello := DecodeControl(w.net[packet].envelope).value;
            var v := Serve(w, process, domain, packet, n1, n2);
      && v.clients == w.clients && |v.pending| == |w.pending| + 1 && |v.servers| == |w.servers| + 1 && |v.net| == |w.net| + 1
      && v.net[..|w.net|] == w.net && v.servers[..|w.servers|] == w.servers
      && var s := v.servers[|w.servers|];
      && s.heard == packet
      && s.session.version == 1 && s.session.localDomain == domain && s.session.remoteDomain == hello.trustDomain
      && s.session.clientNonce == hello.clientNonce
      && v.net[|w.net|].envelope
         == Control(AckWire(Peer(domain), s.session.clientNonce, s.session.serverNonce, s.session.sessionId))
  {
  }

  /** A client without expectations accepts any answer to its nonce. */
  lemma OpenClientAccepts(config: Config, nonce: Token, domain: string, serverNonce: Token, sessionId: Token)
    requires config.version == 1 && config.expectedRemote.None? && domain != ""
    ensures ClientConclusion(config, nonce, Control(AckWire(Peer(domain), nonce, serverNonce, sessionId)))
            == Ok(Session(1, config.localDomain, domain, nonce, serverNonce, sessionId))
  {
  }

  /** Two client processes that draw at the same count and the same nanosecond share a nonce. The server
      hears the second client, and the first one concludes with the server's answer. */
  lemma SharedNonceConfusesPeers(n: u128, n1: u128, n2: u128)
    ensures var w := Run([SendHello(0, Peer("a"), n), SendHello(1, Peer("b"), n), Respond(2, Peer("s"), 1, n1), Answer(0, n2),
                          Conclude(0, 2)]);
            Agrees(w, 0, 0) && HeardHello(w, 0) && !Crossed(w, 0, 0)
  {
    var a, b, c := SendHello(0, Peer("a"), n), SendHello(1, Peer("b"), n), Respond(2, Peer("s"), 1, n1);
    var d, e := Answer(0, n2), Conclude(0, 2);
    RunFive(a, b, c, d, e);
    var w2 := Act(Act(QUIET, a), b);
    assert |w2.net| == |w2.clients| == 2 && w2.servers == [] && w2.pending == [];
    var nonce := TokenFor(w2.clients[0].ticket);
    assert w2.net[1] == Packet(Control(HelloWire(Peer("b"), nonce)), HelloOf(1));
    OpenServerAnswers(w2, 2, "s", 1, n1, n2);
    var s := Serve(w2, 2, "s", 1, n1, n2).servers[0].session;
    OpenClientAccepts(Peer("a"), nonce, "s", s.serverNonce, s.sessionId);
  }

  /** The only client concludes with the second server's answer. */
  lemma SwappedPairAgrees(w: World, domain: string)
    requires |w.clients| == 1 && |w.net| == 3 && |w.servers| == 2 && w.clients[0].config == Peer("a") && w.clients[0].progress.Waiting?
    requires w.servers[1].heard == 1 && w.net[1].origin.AckOf?
    requires var t := w.servers[1].session;
             && t.version == 1 && t.localDomain == "t" && t.remoteDomain == domain && t.clientNonce == TokenFor(w.clients[0].ticket)
             && w.net[2].envelope == Control(AckWire(Peer("t"), t.clientNonce, t.serverNonce, t.sessionId))
    ensures var v := Act(w, Conclude(0, 2));
            NoncesDistinct(v) && Agrees(v, 0, 1) && !HeardHello(v, 1) && (Crossed(v, 0, 1) <==> domain == "a")
  {
    var t := w.servers[1].session;
    OpenClientAccepts(Peer("a"), t.clientNonce, "t", t.serverNonce, t.sessionId);
  }

  /** An answer also decodes as a hello. A server that is handed another server's answer in place of a
      hello records that server's domain as its client's, which is wrong unless the two domains are one. */
  lemma SwappedRolesConfusePeers(domain: string, n: u128, n1: u128, n2: u128)
    requires domain != ""
    ensures var w := Run([SendHello(0, Peer("a"), n), Respond(1, Peer(domain), 0, n1), Answer(0, n2),
                          Respond(2, Peer("t"), 1, n1), Answer(1, n2), Conclude(0, 2)]);
            NoncesDistinct(w) && Agrees(w, 0, 1) && !HeardHello(w, 1) && (Crossed(w, 0, 1) <==> domain == "a")
  {
    var a, b, c := SendHello(0, Peer("a"), n), Respond(1, Peer(domain), 0, n1), Answer(0, n2);
    var d, e, f := Respond(2, Peer("t"), 1, n1), Answer(1, n2), Conclude(0, 2);
    assert [a, b, c, d, e] + [f] == [a, b, c, d, e, f];
    RunSnoc([a, b, c, d, e], f);
    RunFive(a, b, c, d, e);
    var w1 := OneClient(a);
    AnswerTheAnswer(w1, domain, Peer("a"), TokenFor(w1.clients[0].ticket), n1, n2);
    SwappedPairAgrees(Serve(Serve(w1, 1, domain, 0, n1, n2), 2, "t", 1, n1, n2), domain);
  }

  lemma OneClient(a: Action) returns (w: World)
    requires a.SendHello? && a.config == Peer("a")
    ensures w == Act(QUIET, a) && |w.net| == |w.clients| == 1 && w.servers == [] && w.pending == []
    ensures w.clients[0].config == Peer("a") && w.clients[0].progress.Waiting?
    ensures w.net[0].envelope == Control(HelloWire(Peer("a"), TokenFor(w.clients[0].ticket)))
  {
    w := Act(QUIET, a);
  }

  lemma AnswerTheAnswer(w1: World, domain: string, config: Config, nonce: Token, n1: u128, n2: u128)
    requires |w1.net| == 1 && w1.servers == [] && w1.pending == [] && w1.net[0].envelope == Control(HelloWire(config, nonce))
    requires config.version == 1 && config.localDomain != "" && domain != ""
    ensures var w3 := Serve(Serve(w1, 1, domain, 0, n1, n2), 2, "t", 1, n1, n2);
      && w3.clients == w1.clients && |w3.net| == 3 && |w3.servers| == 2 && |w3.pending| == 2
      && |Serve(w1, 1, domain, 0, n1, n2).pending| == 1
      && var t := w3.servers[1].session;
      && w3.servers[1].heard == 1 && w3.net[1].origin.AckOf?
      && t.version == 1 && t.localDomain == "t" && t.remoteDomain == domain && t.clientNonce == nonce
      && w3.net[2].envelope == Control(AckWire(Peer("t"), nonce, t.serverNonce, t.sessionId))
  {
    OpenServerAnswers(w1, 1, domain, 0, n1, n2);
    var w2 := Serve(w1, 1, domain, 0, n1, n2);
    assert w2.net[1].envelope.body.value.clientNonce == nonce;
    OpenServerAnswers(w2, 2, "t", 1, n1, n2);
  }
}
