/** The shared-memory transport: fixed-size frames, and a subscriber buffer that replaces its oldest
    unread frame when it is full. */
module IpcQueue {
  import opened Wrappers
  import opened Bytes
  import opened Errors
  import opened Header
  import opened Messages

  const MAX_IPC_PAYLOAD_LEN: nat := 65_536
  const SUBSCRIBER_BUFFER_SIZE: nat := 16

  datatype IpcFrame = IpcFrame(header: seq<byte>, payload: seq<byte>)

  /** The buffer with safe overflow: a full buffer gives up its oldest entry. */
  function Push<T>(slots: seq<T>, x: T): seq<T> {
    if |slots| < SUBSCRIBER_BUFFER_SIZE then slots + [x] else slots[1..] + [x]
  }

  /** What the shared-memory publisher may answer; it is outside this model. */
  datatype Publishing = Published | ExceedsMaxLoans | LoanFailed | NotSent

  function FrameOf(m: Msg): IpcFrame
    requires |m.payload| <= MAX_IPC_PAYLOAD_LEN
  {
    IpcFrame(HeaderBytes(m.header), m.payload + seq(MAX_IPC_PAYLOAD_LEN - |m.payload|, _ => 0))
  }

  function SendVerdict(closed: bool, m: Msg, publishing: Publishing): Result<Unit, LaicError> {
    if closed then Err(ShuttingDown)
    else if |m.payload| > MAX_IPC_PAYLOAD_LEN then Err(FramingError(|m.payload|))
    else
      match CheckFields(m.header)
      case Some(e) => Err(e)
      case None =>
        match publishing
        case Published => Ok(Unit)
        case ExceedsMaxLoans => Err(BackpressureFull)
        case LoanFailed => Err(SendFailed)
        case NotSent => Err(SendFailed)
  }

  /** How a received frame is turned back into a message. */
  function FrameMessage(f: IpcFrame): Result<Msg, LaicError>
    requires |f.payload| == MAX_IPC_PAYLOAD_LEN
  {
    match DecodeHeader(f.header)
    case Err(e) => Err(e)
    case Ok(h) =>
      if h.payloadLen > MAX_IPC_PAYLOAD_LEN then Err(FramingError(h.payloadLen))
      else
        var m := Msg(h, f.payload[..h.payloadLen]);
        match CheckParts(m) case None => Ok(m) case Some(e) => Err(e)
  }

  /** The receiver gets the sent header and payload back, and none of the padding. */
  lemma FrameRoundTrip(m: Msg)
    requires WellFormed(m) && |m.payload| <= MAX_IPC_PAYLOAD_LEN
    ensures FrameMessage(FrameOf(m)) == Ok(m)
  {
    DecodeInvertsEncode(m.header, []);
    assert HeaderBytes(m.header) + [] == HeaderBytes(m.header);
    assert FrameOf(m).payload[..|m.payload|] == m.payload;
  }

  /** Behind the payload a frame is filled with zeros. */
  lemma FrameIsPadded(m: Msg)
    requires |m.payload| <= MAX_IPC_PAYLOAD_LEN
    ensures |FrameOf(m).header| == 40 && |FrameOf(m).payload| == 65536
    ensures forall k :: |m.payload| <= k < 65536 ==> FrameOf(m).payload[k] == 0
  {
  }

  /** A frame is read as a message exactly if its header can be decoded and announces no more than the frame
      holds; then header and announced bytes are the message's, and otherwise the error says which failed. */
  lemma FramesReadExactly(f: IpcFrame)
    requires |f.payload| == MAX_IPC_PAYLOAD_LEN && |f.header| == HEADER_SIZE
    ensures match FrameMessage(f)
            case Ok(m) =>
              && WellFormed(m) && |m.payload| <= 65536
              && HeaderBytes(m.header) == f.header && m.payload == f.payload[..|m.payload|]
            case Err(FramingError(n)) => DecodeHeader(f.header).Ok? && n == DecodeHeader(f.header).value.payloadLen > 65536
            case Err(e) => DecodeHeader(f.header) == Err(e)
  {
    if DecodeHeader(f.header).Ok? {
      EncodeInvertsDecode(f.header);
      assert f.header[..HEADER_SIZE] == f.header;
    } else {
      DecodesExactly(f.header);
    }
  }

  /** One direction of a channel: the publisher's service together with its subscriber's buffer. */
  class Service {
    var slots: seq<IpcFrame>

    constructor ()
      ensures slots == []
    {
      slots := [];
    }

    method Publish(frame: IpcFrame)
      modifies this
      ensures slots == Push(old(slots), frame)
    {
      if |slots| >= SUBSCRIBER_BUFFER_SIZE {
        slots := slots[1..];
      }
      slots := slots + [frame];
    }

    method Take() returns (frame: Option<IpcFrame>)
      modifies this
      ensures old(slots) == [] ==> frame.None? && slots == []
      ensures old(slots) != [] ==> frame == Some(old(slots)[0]) && slots == old(slots)[1..]
    {
      if slots == [] {
        return None;
      }
      frame := Some(slots[0]);
      slots := slots[1..];
    }
  }

  class IpcConnection {
    const outgoing: Service
    const incoming: Service
    var closed: bool

    constructor (outgoing: Service, incoming: Service)
      ensures this.outgoing == outgoing && this.incoming == incoming && !closed
    {
      this.outgoing, this.incoming, this.closed := outgoing, incoming, false;
    }

    /** The fixed-size buffer: the payload, then zeros. */
    method Padded(payload: seq<byte>) returns (buffer: array<byte>)
      requires |payload| <= MAX_IPC_PAYLOAD_LEN
      ensures fresh(buffer)
      ensures buffer[..] == payload + seq(MAX_IPC_PAYLOAD_LEN - |payload|, _ => 0)
    {
      buffer := new byte[MAX_IPC_PAYLOAD_LEN](_ => 0);
      CopyFromSlice(buffer, 0, payload);
      assert buffer[..] == buffer[..|payload|] + buffer[|payload|..];
    }

    /** A send that does not succeed publishes nothing. */
    method Send(msg: Message, publishing: Publishing) returns (r: Result<Unit, LaicError>)
      modifies outgoing
      ensures r == SendVerdict(closed, msg.Value(), publishing)
      ensures r.Err? ==> outgoing.slots == old(outgoing.slots)
      ensures r.Ok? ==> |msg.payload| <= MAX_IPC_PAYLOAD_LEN
                        && outgoing.slots == Push(old(outgoing.slots), FrameOf(msg.Value()))
    {
      if closed {
        return Err(ShuttingDown);
      }
      var payload := msg.payload;
      if |payload| > MAX_IPC_PAYLOAD_LEN {
        return Err(FramingError(|payload|));
      }
      var header := new byte[HEADER_SIZE](_ => 0);
      r := Encode(msg.header, header);
      if r.Err? {
        return;
      }
      assert header[..] == HeaderBytes(msg.header);
      var buffer := Padded(payload);
      match publishing {
        case ExceedsMaxLoans => return Err(BackpressureFull);
        case LoanFailed => return Err(SendFailed);
        case NotSent => return Err(SendFailed);
        case Published =>
          outgoing.Publish(IpcFrame(header[..], buffer[..]));
          return Ok(Unit);
      }
    }

    /** One poll of the subscriber; `None` means that no frame has arrived yet. The subscriber's own receive
        call may fail, and then takes nothing. */
    method Poll(failing: bool) returns (r: Option<Result<Message, LaicError>>)
      requires forall f <- incoming.slots :: |f.payload| == MAX_IPC_PAYLOAD_LEN
      modifies incoming
      ensures closed ==> r == Some(Err(ShuttingDown)) && incoming.slots == old(incoming.slots)
      ensures !closed && failing ==> r == Some(Err(ReceiveFailed)) && incoming.slots == old(incoming.slots)
      ensures !closed && !failing && old(incoming.slots) == [] ==> r.None? && incoming.slots == []
      ensures !closed && !failing && old(incoming.slots) != [] ==>
                && incoming.slots == old(incoming.slots)[1..]
                && r.Some?
                && match FrameMessage(old(incoming.slots)[0])
                   case Ok(m) => r.value.Ok? && fresh(r.value.value) && r.value.value.Value() == m
                   case Err(e) => r.value == Err(e)
    {
      if closed {
        return Some(Err(ShuttingDown));
      }
      if failing {
        return Some(Err(ReceiveFailed));
      }
      var sample := incoming.Take();
      if sample.None? {
        return None;
      }
      var frame := sample.value;
      var decoded := DecodeHeader(frame.header);
      if decoded.Err? {
        return Some(Err(decoded.error));
      }
      var payloadLen := decoded.value.payloadLen;
      if payloadLen > MAX_IPC_PAYLOAD_LEN {
        return Some(Err(FramingError(payloadLen)));
      }
      var message := Message.FromParts(decoded.value, frame.payload[..payloadLen]);
      return Some(message);
    }

    method Close()
      modifies this
      ensures closed
    {
      closed := true;
    }
  }

  // Runs of one direction of a channel

  type ValidMsg = m: Msg | WellFormed(m)
    witness Msg(MessageHeader(MAGIC, VERSION, 1, 0, 0, 0, 0, 0, 0, 0, [0, 0, 0, 0]), [])

  datatype Event = Send(m: ValidMsg, publishing: Publishing) | Receive(failing: bool) | CloseSender | CloseReceiver

  /** `sent`, `results` and `at` are history: the messages whose send succeeded, what each successful
      poll returned, and the position in `sent` of the frame it took. */
  datatype Channel = Channel(
    slots: seq<IpcFrame>,
    senderClosed: bool,
    receiverClosed: bool,
    sent: seq<Msg>,
    results: seq<Result<Msg, LaicError>>,
    at: seq<int>)

  const NEW_CHANNEL := Channel([], false, false, [], [], [])

  function Step(c: Channel, e: Event): Channel {
    match e
    case Send(m, publishing) =>
      if SendVerdict(c.senderClosed, m, publishing).Ok?
      then c.(slots := Push(c.slots, FrameOf(m)), sent := c.sent + [m])
      else c
    case Receive(failing) =>
      if c.receiverClosed || failing || c.slots == [] || |c.slots[0].payload| != MAX_IPC_PAYLOAD_LEN then c
      else c.(slots := c.slots[1..],
              results := c.results + [FrameMessage(c.slots[0])],
              at := c.at + [|c.sent| - |c.slots|])
    case CloseSender => c.(senderClosed := true)
    case CloseReceiver => c.(receiverClosed := true)
  }

  function Run(events: seq<Event>): Channel {
    if events == [] then NEW_CHANNEL else Step(Run(events[..|events| - 1]), events[|events| - 1])
  }

  /** The position in `sent` just after the last message received. */
  function NextUnread(c: Channel): int {
    if c.at == [] then 0 else c.at[|c.at| - 1] + 1
  }

  ghost predicate Carries(f: IpcFrame, m: Msg) {
    WellFormed(m) && |m.payload| <= MAX_IPC_PAYLOAD_LEN && f == FrameOf(m)
  }

  /** Each successful poll returned the message at its recorded position, in increasing positions. */
  ghost predicate ReceivedInOrder(c: Channel) {
    && |c.results| == |c.at|
    && (forall i :: 0 <= i < |c.at| ==> 0 <= c.at[i] < NextUnread(c) <= |c.sent| && c.results[i] == Ok(c.sent[c.at[i]]))
    && (forall i, j :: 0 <= i < j < |c.at| ==> c.at[i] < c.at[j])
  }

  /** The buffer holds the newest sixteen, or fewer, of the messages not yet received. */
  ghost predicate KeepsNewest(c: Channel) {
    && NextUnread(c) <= |c.sent|
    && |c.slots| == (var unread := |c.sent| - NextUnread(c);
                     if unread < SUBSCRIBER_BUFFER_SIZE then unread else SUBSCRIBER_BUFFER_SIZE)
    && (0 <= NextUnread(c))
    && forall i :: 0 <= i < |c.slots| ==> Carries(c.slots[i], c.sent[|c.sent| - |c.slots| + i])
  }

  /** The channel after a successful send. */
  function Sent(c: Channel, m: Msg): Channel
    requires |m.payload| <= MAX_IPC_PAYLOAD_LEN
  {
    c.(slots := Push(c.slots, FrameOf(m)), sent := c.sent + [m])
  }

  lemma SendKeepsOrder(c: Channel, m: ValidMsg)
    requires ReceivedInOrder(c) && |m.payload| <= MAX_IPC_PAYLOAD_LEN
    ensures ReceivedInOrder(Sent(c, m))
  {
  }

  /** Where a frame of the longer buffer was before. */
  lemma SendKeepsFrame(c: Channel, m: ValidMsg, i: nat)
    requires KeepsNewest(c) && |m.payload| <= MAX_IPC_PAYLOAD_LEN && i < |Sent(c, m).slots|
    ensures var d := Sent(c, m);
            |d.slots| <= |d.sent| && Carries(d.slots[i], d.sent[|d.sent| - |d.slots| + i])
  {
    var d := Sent(c, m);
    if i < |d.slots| - 1 {
      var k := i + |c.slots| + 1 - |d.slots|;
      assert d.slots[i] == c.slots[k] && d.sent[|d.sent| - |d.slots| + i] == c.sent[|c.sent| - |c.slots| + k];
    } else {
      assert Carries(FrameOf(m), m);
    }
  }

  lemma SendKeepsNewest(c: Channel, m: ValidMsg)
    requires KeepsNewest(c) && |m.payload| <= MAX_IPC_PAYLOAD_LEN
    ensures KeepsNewest(Sent(c, m))
  {
    var d := Sent(c, m);
    assert NextUnread(d) == NextUnread(c);
    forall i | 0 <= i < |d.slots| ensures Carries(d.slots[i], d.sent[|d.sent| - |d.slots| + i]) {
      SendKeepsFrame(c, m, i);
    }
  }

  /** The channel after a successful poll: the oldest message kept is the next result. */
  function Taken(c: Channel): Channel
    requires c.slots != [] && |c.slots| <= |c.sent|
  {
    var k := |c.sent| - |c.slots|;
    c.(slots := c.slots[1..], results := c.results + [Ok(c.sent[k])], at := c.at + [k])
  }

  lemma TakeKeepsOrder(c: Channel)
    requires ReceivedInOrder(c) && KeepsNewest(c) && c.slots != []
    ensures ReceivedInOrder(Taken(c))
  {
  }

  lemma TakeKeepsNewest(c: Channel)
    requires ReceivedInOrder(c) && KeepsNewest(c) && c.slots != []
    ensures KeepsNewest(Taken(c))
  {
    var d := Taken(c);
    forall i | 0 <= i < |d.slots|
      ensures Carries(d.slots[i], d.sent[|d.sent| - |d.slots| + i])
    {
      assert d.slots[i] == c.slots[i + 1];
    }
  }

  lemma CarriedFrame(f: IpcFrame, m: Msg)
    requires Carries(f, m)
    ensures |f.payload| == MAX_IPC_PAYLOAD_LEN && FrameMessage(f) == Ok(m)
  {
    FrameRoundTrip(m);
  }

  lemma OldestFrame(c: Channel)
    requires KeepsNewest(c) && c.slots != []
    ensures |c.slots| <= |c.sent| && |c.slots[0].payload| == MAX_IPC_PAYLOAD_LEN
    ensures FrameMessage(c.slots[0]) == Ok(c.sent[|c.sent| - |c.slots|])
  {
    CarriedFrame(c.slots[0], c.sent[|c.sent| - |c.slots|]);
  }

  lemma TakenFrame(c: Channel)
    requires KeepsNewest(c) && c.slots != [] && !c.receiverClosed
    ensures Step(c, Receive(false)) == Taken(c)
  {
    OldestFrame(c);
  }

  lemma SentFrame(c: Channel, m: ValidMsg, publishing: Publishing)
    ensures Step(c, Send(m, publishing)) ==
            if SendVerdict(c.senderClosed, m, publishing).Ok?
            then Sent(c, m)
            else c
    ensures SendVerdict(c.senderClosed, m, publishing).Ok? ==> |m.payload| <= MAX_IPC_PAYLOAD_LEN
  {
  }

  lemma IdleStep(c: Channel, e: Event)
    requires ReceivedInOrder(c) && KeepsNewest(c)
    requires e.Send? ==> SendVerdict(c.senderClosed, e.m, e.publishing).Err?
    requires e.Receive? ==> c.receiverClosed || e.failing || c.slots == []
    ensures ReceivedInOrder(Step(c, e)) && KeepsNewest(Step(c, e))
  {
    var d := Step(c, e);
    assert d.slots == c.slots && d.sent == c.sent && d.results == c.results && d.at == c.at;
  }

  lemma StepKeeps(c: Channel, e: Event)
    requires ReceivedInOrder(c) && KeepsNewest(c)
    ensures ReceivedInOrder(Step(c, e)) && KeepsNewest(Step(c, e))
  {
    if e.Send? && SendVerdict(c.senderClosed, e.m, e.publishing).Ok? {
      SentFrame(c, e.m, e.publishing);
      SendKeepsOrder(c, e.m);
      SendKeepsNewest(c, e.m);
    } else if e.Receive? && !c.receiverClosed && !e.failing && c.slots != [] {
      TakenFrame(c);
      TakeKeepsOrder(c);
      TakeKeepsNewest(c);
    } else {
      IdleStep(c, e);
    }
  }

  /** In every run, received messages are an in-order, at-most-once subsequence of the successful
      sends, each equal to what was sent; only the oldest unread messages are ever lost. */
  lemma {:induction false} RunDeliversInOrder(events: seq<Event>)
    ensures ReceivedInOrder(Run(events)) && KeepsNewest(Run(events))
  {
    if events != [] {
      RunDeliversInOrder(events[..|events| - 1]);
      StepKeeps(Run(events[..|events| - 1]), events[|events| - 1]);
    }
  }

  // What closing does, and what succeeds before

  lemma RunSnoc(events: seq<Event>, e: Event)
    ensures Run(events + [e]) == Step(Run(events), e)
  {
    assert (events + [e])[..|events|] == events;
  }

  lemma {:induction false} ClosedExactly(events: seq<Event>)
    ensures Run(events).senderClosed <==> CloseSender in events
    ensures Run(events).receiverClosed <==> CloseReceiver in events
  {
    if events != [] {
      var before, last := events[..|events| - 1], events[|events| - 1];
      ClosedExactly(before);
      assert events == before + [last];
    }
  }

  /** A send of a well-formed message succeeds exactly if the connection has not been closed, the payload fits
      a frame and the publisher publishes, and otherwise says what failed first. What does not succeed changes
      nothing. */
  lemma SendSucceedsExactly(events: seq<Event>, m: ValidMsg, publishing: Publishing)
    ensures var c := Run(events);
            var verdict := SendVerdict(c.senderClosed, m, publishing);
            var d := Run(events + [Send(m, publishing)]);
      && (verdict.Ok? <==> CloseSender !in events && |m.payload| <= 65536 && publishing.Published?)
      && (verdict == Err(ShuttingDown) <==> CloseSender in events)
      && (CloseSender !in events && |m.payload| > 65536 ==> verdict == Err(FramingError(|m.payload|)))
      && (CloseSender !in events && |m.payload| <= 65536 ==>
            && (verdict == Err(BackpressureFull) <==> publishing.ExceedsMaxLoans?)
            && (verdict == Err(SendFailed) <==> publishing.LoanFailed? || publishing.NotSent?))
      && (verdict.Ok? ==> d.sent == c.sent + [m] && d.slots != [] && Carries(d.slots[|d.slots| - 1], m))
      && (verdict.Err? ==> d == c)
  {
    ClosedExactly(events);
    RunSnoc(events, Send(m, publishing));
    SentFrame(Run(events), m, publishing);
  }

  /** A poll succeeds exactly if the connection has not been closed, the subscriber does not fail and a frame is
      there, and then it returns a message that was sent. */
  lemma ReceiveSucceedsExactly(events: seq<Event>, failing: bool)
    ensures var c := Run(events);
            var d := Run(events + [Receive(failing)]);
            if CloseReceiver !in events && !failing && c.slots != [] then
              |d.results| == |c.results| + 1 && d.results[|c.results|].Ok? && d.results[|c.results|].value in c.sent
            else d == c
  {
    var c := Run(events);
    ClosedExactly(events);
    RunSnoc(events, Receive(failing));
    RunDeliversInOrder(events);
    if CloseReceiver !in events && !failing && c.slots != [] {
      TakenFrame(c);
    }
  }

  predicate IsTail<T(==)>(has: seq<T>, had: seq<T>) {
    |has| <= |had| && has == had[|had| - |has|..]
  }

  lemma ClosedStep(c: Channel, e: Event)
    ensures c.senderClosed ==>
              && Step(c, e).sent == c.sent
              && (Step(c, e).slots == c.slots || (c.slots != [] && Step(c, e).slots == c.slots[1..]))
    ensures c.receiverClosed ==> Step(c, e).results == c.results && Step(c, e).at == c.at
  {
  }

  lemma StepAfter(before: seq<Event>, more: seq<Event>)
    requires more != []
    ensures Run(before + more) == Step(Run(before + more[..|more| - 1]), more[|more| - 1])
  {
    assert before + more == (before + more[..|more| - 1]) + [more[|more| - 1]];
    RunSnoc(before + more[..|more| - 1], more[|more| - 1]);
  }

  /** Once the sender has closed, nothing more is sent and the buffer only drains. */
  lemma {:induction false} NothingIsSentAfterClose(before: seq<Event>, more: seq<Event>)
    requires CloseSender in before
    ensures Run(before + more).sent == Run(before).sent && IsTail(Run(before + more).slots, Run(before).slots)
  {
    if more == [] {
      assert before + more == before;
    } else {
      var less := more[..|more| - 1];
      NothingIsSentAfterClose(before, less);
      ClosedExactly(before + less);
      ClosedStep(Run(before + less), more[|more| - 1]);
      StepAfter(before, more);
    }
  }

  /** Once the receiver has closed, nothing more is received. */
  lemma {:induction false} NothingIsReceivedAfterClose(before: seq<Event>, more: seq<Event>)
    requires CloseReceiver in before
    ensures Run(before + more).results == Run(before).results && Run(before + more).at == Run(before).at
  {
    if more == [] {
      assert before + more == before;
    } else {
      var less := more[..|more| - 1];
      NothingIsReceivedAfterClose(before, less);
      ClosedExactly(before + less);
      ClosedStep(Run(before + less), more[|more| - 1]);
      StepAfter(before, more);
    }
  }
}
