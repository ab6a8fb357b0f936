/** Credit-based flow control, and what it buys when the data travels over the lossy queue. */
module Flow {
  import opened Wrappers
  import opened Bytes
  import opened Errors
  import opened IpcQueue

  /** `u16::saturating_add` */
  function Replenished(available: u16, credits: u16): u16 {
    if available + credits > U16_MAX then U16_MAX else available + credits
  }

  function Total(available: u16, grants: seq<u16>): u16 {
    if grants == [] then available else Replenished(Total(available, grants[..|grants| - 1]), grants[|grants| - 1])
  }

  /** However credits are portioned, they add up to their sum, or else to the maximum. */
  lemma {:induction false} GrantsAddUp(available: u16, grants: seq<u16>)
    ensures Total(available, grants) == if available + Sum(grants) <= 65535 then available + Sum(grants) else 65535
  {
    if grants != [] {
      var before, last := grants[..|grants| - 1], grants[|grants| - 1];
      GrantsAddUp(available, before);
      SumAppend(before, last);
      assert grants == before + [last];
    }
  }

  class CreditController {
    var available: u16

    constructor (initialCredits: u16)
      ensures available == initialCredits
    {
      available := initialCredits;
    }

    method Acquire() returns (r: Result<Unit, LaicError>)
      modifies this
      ensures old(available) == 0 ==> r == Err(CreditExhausted) && available == 0
      ensures old(available) > 0 ==> r == Ok(Unit) && available == old(available) - 1
    {
      if available == 0 {
        return Err(CreditExhausted);
      }
      available := available - 1;
      return Ok(Unit);
    }

    method Replenish(credits: u16)
      modifies this
      ensures available == Replenished(old(available), credits)
    {
      if available + credits > U16_MAX {
        available := U16_MAX;
      } else {
        available := available + credits;
      }
    }
  }

  // The documented usage loop over a pair of lossy queues. The data sender acquires a credit before
  // each send; the receiver grants, on its replies, only what it has consumed.

  /** `sent`, `received` and `lost` are history. `lost` counts credits that can never come back: those of
      failed sends and of overwritten data, and the grants on replies that failed or were overwritten. */
  datatype Link = Link(
    available: u16,
    forward: seq<int>,
    backward: seq<u16>,
    ungranted: nat,
    sent: seq<int>,
    received: seq<int>,
    lost: nat)

  /** A reply carries a grant, possibly zero. A send or a reply may fail to be published. */
  datatype Action = SendData(x: int, published: bool) | Consume | Reply(grant: u16, published: bool) | Collect

  function Start(window: u16): Link {
    Link(window, [], [], 0, [], [], 0)
  }

  function Act(l: Link, a: Action): Link {
    match a
    case SendData(x, published) =>
      if l.available == 0 then l
      else if !published then l.(available := l.available - 1, lost := l.lost + 1)
      else
        l.(available := l.available - 1,
           forward := Push(l.forward, x),
           sent := l.sent + [x],
           lost := l.lost + if |l.forward| < SUBSCRIBER_BUFFER_SIZE then 0 else 1)
    case Consume =>
      if l.forward == [] then l
      else
        l.(forward := l.forward[1..],
           received := l.received + [l.forward[0]],
           ungranted := l.ungranted + 1)
    case Reply(grant, published) =>
      if grant > l.ungranted then l
      else if !published then l.(ungranted := l.ungranted - grant, lost := l.lost + grant)
      else
        l.(ungranted := l.ungranted - grant,
           backward := Push(l.backward, grant),
           lost := l.lost + if |l.backward| < SUBSCRIBER_BUFFER_SIZE then 0 else l.backward[0])
    case Collect =>
      if l.backward == [] then l
      else l.(available := Replenished(l.available, l.backward[0]), backward := l.backward[1..])
  }

  function Run(l: Link, actions: seq<Action>): Link
    decreases actions
  {
    if actions == [] then l else Run(Act(l, actions[0]), actions[1..])
  }

  function Sum(grants: seq<u16>): nat {
    if grants == [] then 0 else grants[0] + Sum(grants[1..])
  }

  lemma {:induction false} SumAppend(grants: seq<u16>, g: u16)
    ensures Sum(grants + [g]) == Sum(grants) + g
  {
    if grants == [] {
      assert [g][1..] == [];
    } else {
      assert (grants + [g])[1..] == grants[1..] + [g];
      SumAppend(grants[1..], g);
    }
  }

  /** Every credit of the initial window is somewhere. */
  ghost predicate Conserved(l: Link, window: u16) {
    l.available + |l.forward| + l.ungranted + Sum(l.backward) + l.lost == window
  }

  /** Nothing sent was overwritten: what has been received and what is queued make up what was sent. */
  ghost predicate NoLoss(l: Link) {
    l.sent == l.received + l.forward
  }

  lemma ActConserves(l: Link, a: Action, window: u16)
    requires Conserved(l, window) && |l.forward| <= SUBSCRIBER_BUFFER_SIZE && |l.backward| <= SUBSCRIBER_BUFFER_SIZE
    ensures var m := Act(l, a);
            Conserved(m, window) && |m.forward| <= SUBSCRIBER_BUFFER_SIZE && |m.backward| <= SUBSCRIBER_BUFFER_SIZE
  {
    if a.Reply? {
      SumAppend(l.backward, a.grant);
      if l.backward != [] {
        SumAppend(l.backward[1..], a.grant);
      }
    }
  }

  /** Conservation holds in every run of every window, whatever is lost on the way; in particular the
      saturating addition never saturates. */
  lemma {:induction false} RunConserves(l: Link, actions: seq<Action>, window: u16)
    requires Conserved(l, window) && |l.forward| <= SUBSCRIBER_BUFFER_SIZE && |l.backward| <= SUBSCRIBER_BUFFER_SIZE
    ensures var m := Run(l, actions);
            Conserved(m, window) && |m.forward| <= SUBSCRIBER_BUFFER_SIZE && |m.backward| <= SUBSCRIBER_BUFFER_SIZE
    decreases actions
  {
    if actions != [] {
      ActConserves(l, actions[0], window);
      RunConserves(Act(l, actions[0]), actions[1..], window);
    }
  }

  lemma CollectIsExact(window: u16, actions: seq<Action>)
    ensures var l := Run(Start(window), actions);
            l.backward != [] ==> Act(l, Collect).available == l.available + l.backward[0]
  {
    RunConserves(Start(window), actions, window);
  }

  lemma {:induction false} SmallWindowLosesNothing(l: Link, actions: seq<Action>, window: u16)
    requires window <= SUBSCRIBER_BUFFER_SIZE
    requires Conserved(l, window) && |l.forward| <= SUBSCRIBER_BUFFER_SIZE && |l.backward| <= SUBSCRIBER_BUFFER_SIZE
    requires NoLoss(l)
    ensures NoLoss(Run(l, actions))
    decreases actions
  {
    if actions != [] {
      ActConserves(l, actions[0], window);
      SmallWindowLosesNothing(Act(l, actions[0]), actions[1..], window);
    }
  }

  /** The first `n` of an endless burst of sends with nobody reading. */
  function Burst(from: nat, n: nat): seq<Action>
    decreases n
  {
    if n == 0 then [] else [SendData(from, true)] + Burst(from + 1, n - 1)
  }

  lemma {:induction false} BurstFills(l: Link, n: nat)
    requires l.received == [] && l.sent == l.forward && |l.forward| + n == SUBSCRIBER_BUFFER_SIZE + 1
    requires l.available >= n && n > 0
    ensures !NoLoss(Run(l, Burst(|l.forward|, n)))
    decreases n
  {
    var burst := Burst(|l.forward|, n);
    var next := Act(l, burst[0]);
    assert burst[1..] == Burst(|l.forward| + 1, n - 1);
    if n == 1 {
      assert |next.sent| == |next.received + next.forward| + 1;
    } else {
      BurstFills(next, n - 1);
    }
  }

  /** The window is safe exactly when it is no larger than the subscriber's buffer. */
  lemma SafeWindows(window: u16)
    ensures (forall actions :: NoLoss(Run(Start(window), actions))) <==> window <= SUBSCRIBER_BUFFER_SIZE
  {
    if window <= SUBSCRIBER_BUFFER_SIZE {
      forall actions ensures NoLoss(Run(Start(window), actions)) {
        SmallWindowLosesNothing(Start(window), actions, window);
      }
    } else {
      BurstFills(Start(window), SUBSCRIBER_BUFFER_SIZE + 1);
      assert !NoLoss(Run(Start(window), Burst(0, SUBSCRIBER_BUFFER_SIZE + 1)));
    }
  }

  // When a blocked sender can be unblocked

  lemma {:induction false} RunConcat(l: Link, a: seq<Action>, b: seq<Action>)
    ensures Run(l, a + b) == Run(Run(l, a), b)
    decreases a
  {
    if a == [] {
      assert a + b == b;
    } else {
      assert (a + b)[1..] == a[1..] + b;
      RunConcat(Act(l, a[0]), a[1..], b);
    }
  }

  /** Collecting every reply that is under way. */
  lemma {:induction false} CollectAll(l: Link, window: u16) returns (actions: seq<Action>)
    requires Conserved(l, window) && |l.forward| <= SUBSCRIBER_BUFFER_SIZE && |l.backward| <= SUBSCRIBER_BUFFER_SIZE
    ensures Run(l, actions) == l.(available := Run(l, actions).available, backward := [])
    ensures Run(l, actions).available == l.available + Sum(l.backward)
    decreases |l.backward|
  {
    if l.backward == [] {
      actions := [];
    } else {
      ActConserves(l, Collect, window);
      var more := CollectAll(Act(l, Collect), window);
      actions := [Collect] + more;
    }
  }

  /** Losses are the only way to stall: after any run, the sender can get a credit again exactly when
      some credit of the window has not been lost. */
  lemma StalledOnlyByLoss(window: u16, run: seq<Action>)
    ensures var l := Run(Start(window), run);
            (exists more :: Run(l, more).available > 0) <==> l.lost < window
  {
    var l := Run(Start(window), run);
    RunConserves(Start(window), run, window);
    if l.lost < window {
      var drain := CollectAll(l, window);
      RunConserves(l, drain, window);
      var d := Run(l, drain);
      if d.available == 0 {
        var finish := if d.ungranted > 0 then [Reply(1, true), Collect] else [Consume, Reply(1, true), Collect];
        var d1 := if d.ungranted > 0 then d else Act(d, Consume);
        var d2 := Act(d1, Reply(1, true));
        assert d2.backward == [1];
        assert Act(d2, Collect).available == 1;
        assert Run(d2, [Collect]) == Act(d2, Collect);
        assert [Reply(1, true), Collect][1..] == [Collect];
        assert Run(d1, [Reply(1, true), Collect]) == Run(d2, [Collect]);
        if d.ungranted == 0 {
          assert finish[1..] == [Reply(1, true), Collect];
        }
        RunConcat(l, drain, finish);
        assert Run(l, drain + finish).available > 0;
      }
    } else {
      forall more ensures Run(l, more).available == 0 {
        RunConserves(l, more, window);
        LostOnlyGrows(l, more);
      }
    }
  }

  lemma {:induction false} LostOnlyGrows(l: Link, actions: seq<Action>)
    ensures Run(l, actions).lost >= l.lost
    decreases actions
  {
    if actions != [] {
      LostOnlyGrows(Act(l, actions[0]), actions[1..]);
    }
  }
}
