/**
  * iotHub_mbtcp/src/iothub_client_NB301_mqtt.c: every state of a run, not only those in which the loop condition is
  * read, and what holds in all of them.
  */
module MqttStates {
  import opened MqttClient
  import opened MqttDelivery

  /**
    * Where a run can be observed: when the loop condition is read; in an iteration, once the registers are polled, and
    * once the message is made and some events of DoWork have happened; after the loop, when some of the last rounds of
    * DoWork are over and some events of the next one, or of Destroy, have happened.
    */
  datatype Moment =
    | Head
    | Polled(t: Tick)
    | InWork(t: Tick, happened: nat)
    | Closing(rounds: seq<seq<Event>>, events: seq<Event>)

  predicate IsMoment(m: Moment) {
    (m.InWork? ==> m.happened <= |m.t.work|) && (m.Closing? ==> |m.rounds| <= 3)
  }

  function Rounds(s: State, rounds: seq<seq<Event>>): State {
    if rounds == [] then s else DoWork(Rounds(s, rounds[..|rounds| - 1]), rounds[|rounds| - 1])
  }

  function StateAt(memory: seq<Slot>, ticks: seq<Tick>, m: Moment): State
    requires |memory| == MESSAGE_COUNT && IsMoment(m)
  {
    var s := After(memory, ticks);
    match m
    case Head => s
    case Polled(t) => if s.iter < MESSAGE_COUNT then PollAll(s, t) else s
    case InWork(t, happened) => Deliver(Sent(s, t), t.work[..happened])
    case Closing(rounds, events) => Deliver(Rounds(s, rounds), events)
  }

  /** The end of a run is such a moment. */
  lemma {:induction false} EndIsClosing(memory: seq<Slot>, ticks: seq<Tick>, first: seq<Event>, second: seq<Event>,
                                        third: seq<Event>, destroy: seq<Event>)
    requires |memory| == MESSAGE_COUNT
    ensures StateAt(memory, ticks, Closing([first, second, third], destroy))
            == Finish(After(memory, ticks), first, second, third, destroy)
  {
    hide After, DoWork, Deliver;
    var s := After(memory, ticks);
    assert [first, second, third][..2] == [first, second] && [first, second][..1] == [first] && [first][..0] == [];
    assert Rounds(s, [first]) == DoWork(s, first);
    assert Rounds(s, [first, second]) == DoWork(DoWork(s, first), second);
  }

  /** Between two readings of the loop condition: the message is made first, then DoWork delivers all its events. */
  lemma IterationEnds(memory: seq<Slot>, ticks: seq<Tick>, t: Tick)
    requires |memory| == MESSAGE_COUNT
    ensures var s := StateAt(memory, ticks, InWork(t, |t.work|));
            StateAt(memory, ticks + [t], Head)
            == s.(doWorks := |ticks| + 1, iter := (|ticks| + 1) % 4_294_967_296)
  {
    hide Deliver, Send, PollAll;
    var before := After(memory, ticks);
    assert (ticks + [t])[..|ticks|] == ticks && (ticks + [t])[|ticks|] == t;
    assert t.work[..|t.work|] == t.work;
    AfterShape(memory, ticks);
    AfterShape(memory, ticks + [t]);
    assert After(memory, ticks + [t]) == Iterate(before, t);
  }

  // ----- Conservation -----

  lemma {:induction false} RoundsConserve(s: State, rounds: seq<seq<Event>>)
    requires Conserved(s)
    ensures Conserved(Rounds(s, rounds))
  {
    if rounds != [] {
      RoundsConserve(s, rounds[..|rounds| - 1]);
      DeliverConserves(Rounds(s, rounds[..|rounds| - 1]), rounds[|rounds| - 1]);
    }
  }

  lemma SentConserves(s: State, t: Tick)
    requires |s.slots| == MESSAGE_COUNT && Conserved(s)
    ensures Conserved(Sent(s, t))
  {
    if s.iter < MESSAGE_COUNT {
      SendConserves(PollAll(s, t), t);
    }
  }

  lemma {:induction false} ConservedAt(memory: seq<Slot>, ticks: seq<Tick>, m: Moment)
    requires |memory| == MESSAGE_COUNT && IsMoment(m)
    ensures Conserved(StateAt(memory, ticks, m))
  {
    hide After, Sent, Deliver, Refused;
    var head := After(memory, ticks);
    HeadConserved(memory, ticks);
    match m {
      case Head =>
      case Polled(t) =>
      case InWork(t, happened) =>
        SentConserves(head, t);
        DeliverConserves(Sent(head, t), t.work[..happened]);
      case Closing(rounds, events) =>
        RoundsConserve(head, rounds);
        DeliverConserves(Rounds(head, rounds), events);
    }
  }

  /** How many messages the SDK has confirmed in the given iterations. */
  function HeadConfirmations(memory: seq<Slot>, ticks: seq<Tick>): nat
    requires |memory| == MESSAGE_COUNT
  {
    if ticks == [] then 0
    else
      var front, t := ticks[..|ticks| - 1], ticks[|ticks| - 1];
      HeadConfirmations(memory, front) + Confirmations(Sent(After(memory, front), t), t.work)
  }

  function RoundConfirmations(s: State, rounds: seq<seq<Event>>): nat {
    if rounds == [] then 0
    else
      var front, last := rounds[..|rounds| - 1], rounds[|rounds| - 1];
      RoundConfirmations(s, front) + Confirmations(Rounds(s, front), last)
  }

  /** How many messages the SDK has confirmed up to a moment. */
  function ConfirmationsAt(memory: seq<Slot>, ticks: seq<Tick>, m: Moment): nat
    requires |memory| == MESSAGE_COUNT && IsMoment(m)
  {
    var s := After(memory, ticks);
    HeadConfirmations(memory, ticks)
    + match m
      case Head => 0
      case Polled(_) => 0
      case InWork(t, happened) => Confirmations(Sent(s, t), t.work[..happened])
      case Closing(rounds, events) => RoundConfirmations(s, rounds) + Confirmations(Rounds(s, rounds), events)
  }

  lemma SentKeepsCounts(s: State, t: Tick)
    requires |s.slots| == MESSAGE_COUNT
    ensures Sent(s, t).callbackCounter == s.callbackCounter && Sent(s, t).destroyed == s.destroyed
  {
  }

  lemma {:induction false} HeadConfirmed(memory: seq<Slot>, ticks: seq<Tick>)
    requires |memory| == MESSAGE_COUNT
    ensures After(memory, ticks).callbackCounter == HeadConfirmations(memory, ticks)
  {
    hide Sent, Deliver, Confirmations;
    if ticks != [] {
      var before, t := After(memory, ticks[..|ticks| - 1]), ticks[|ticks| - 1];
      HeadConfirmed(memory, ticks[..|ticks| - 1]);
      SentKeepsCounts(before, t);
      DeliverConfirms(Sent(before, t), t.work);
    }
  }

  lemma {:induction false} RoundsConfirmed(s: State, rounds: seq<seq<Event>>)
    ensures Rounds(s, rounds).callbackCounter == s.callbackCounter + RoundConfirmations(s, rounds)
  {
    hide Deliver, Confirmations;
    if rounds != [] {
      RoundsConfirmed(s, rounds[..|rounds| - 1]);
      DeliverConfirms(Rounds(s, rounds[..|rounds| - 1]), rounds[|rounds| - 1]);
    }
  }

  lemma {:induction false} ConfirmedAt(memory: seq<Slot>, ticks: seq<Tick>, m: Moment)
    requires |memory| == MESSAGE_COUNT && IsMoment(m)
    ensures StateAt(memory, ticks, m).callbackCounter == ConfirmationsAt(memory, ticks, m)
  {
    hide After, Sent, Deliver, Confirmations, HeadConfirmations;
    var head := After(memory, ticks);
    HeadConfirmed(memory, ticks);
    match m {
      case Head =>
      case Polled(t) =>
      case InWork(t, happened) =>
        SentKeepsCounts(head, t);
        DeliverConfirms(Sent(head, t), t.work[..happened]);
      case Closing(rounds, events) =>
        RoundsConfirmed(head, rounds);
        DeliverConfirms(Rounds(head, rounds), events);
    }
  }

  /**
    * At every moment of every run: messages made = held by the SDK + confirmed + refused, where confirmed counts the
    * confirmations that have happened; and callbackCounter is that number.
    */
  lemma {:induction false} MessagesConserved(memory: seq<Slot>, ticks: seq<Tick>, m: Moment)
    requires |memory| == MESSAGE_COUNT && IsMoment(m)
    ensures var s, confirmed := StateAt(memory, ticks, m), ConfirmationsAt(memory, ticks, m);
            |s.log| == |s.pending| + confirmed + Refused(s.log) && s.callbackCounter == confirmed
  {
    hide StateAt, ConfirmationsAt;
    ConservedAt(memory, ticks, m);
    ConfirmedAt(memory, ticks, m);
  }

  // ----- Deliveries -----

  function Joined(rounds: seq<seq<Event>>): seq<Event> {
    if rounds == [] then [] else Joined(rounds[..|rounds| - 1]) + rounds[|rounds| - 1]
  }

  /** The events since the loop condition was last read. */
  function EventsSince(m: Moment): seq<Event>
    requires IsMoment(m)
  {
    match m
    case Head => []
    case Polled(_) => []
    case InWork(t, happened) => t.work[..happened]
    case Closing(rounds, events) => Joined(rounds) + events
  }

  lemma {:induction false} DeliveriesConcat(a: seq<Event>, b: seq<Event>)
    ensures Deliveries(a + b) == Deliveries(a) + Deliveries(b)
  {
    if b == [] {
      assert a + b == a;
    } else {
      assert (a + b)[..|a + b| - 1] == a + b[..|b| - 1];
      DeliveriesConcat(a, b[..|b| - 1]);
    }
  }

  lemma {:induction false} RoundsReceived(s: State, rounds: seq<seq<Event>>)
    ensures Rounds(s, rounds).received == s.received + Deliveries(Joined(rounds))
  {
    if rounds != [] {
      var front, last := rounds[..|rounds| - 1], rounds[|rounds| - 1];
      RoundsReceived(s, front);
      DeliverCounts(Rounds(s, front), last);
      DeliveriesConcat(Joined(front), last);
    }
  }

  /** At every moment receiveContext is the number of messages delivered so far: readable or not, quit or not. */
  lemma {:induction false} ReceivedCounted(memory: seq<Slot>, ticks: seq<Tick>, m: Moment)
    requires |memory| == MESSAGE_COUNT && IsMoment(m)
    ensures StateAt(memory, ticks, m).received == AllDeliveries(ticks) + Deliveries(EventsSince(m))
  {
    hide After, Deliver, AllDeliveries;
    var head := After(memory, ticks);
    HeadReceived(memory, ticks);
    match m {
      case Head =>
      case Polled(t) =>
      case InWork(t, happened) =>
        DeliverCounts(Sent(head, t), t.work[..happened]);
      case Closing(rounds, events) =>
        RoundsReceived(head, rounds);
        DeliverCounts(Rounds(head, rounds), events);
        DeliveriesConcat(Joined(rounds), events);
    }
  }

  /** When Destroy has confirmed what was left, every message ever made was confirmed or refused. */
  lemma {:induction false} EndAccounts(memory: seq<Slot>, ticks: seq<Tick>, first: seq<Event>, second: seq<Event>,
                                       third: seq<Event>, destroy: seq<Event>)
    requires |memory| == MESSAGE_COUNT
    ensures var end := Finish(After(memory, ticks), first, second, third, destroy);
            && (end.pending == multiset{} ==> |end.log| == end.callbackCounter + Refused(end.log))
            && end.received == AllDeliveries(ticks) + Deliveries(first + second + third + destroy)
  {
    hide After, Deliver, Refused, AllDeliveries, Deliveries;
    var rounds := [first, second, third];
    EndIsClosing(memory, ticks, first, second, third, destroy);
    ConservedAt(memory, ticks, Closing(rounds, destroy));
    ReceivedCounted(memory, ticks, Closing(rounds, destroy));
    assert rounds[..2] == [first, second] && [first, second][..1] == [first] && [first][..0] == [];
    assert Joined([first]) == first;
    assert Joined([first, second]) == Joined([first]) + second;
    assert Joined(rounds) == first + second + third;
  }

  // ----- Slots and handles -----

  lemma {:induction false} RoundsSound(s: State, rounds: seq<seq<Event>>)
    requires Sound(s)
    ensures Sound(Rounds(s, rounds))
  {
    hide Sound, DoWork;
    if rounds != [] {
      RoundsSound(s, rounds[..|rounds| - 1]);
      DoWorkSound(Rounds(s, rounds[..|rounds| - 1]), rounds[|rounds| - 1]);
    }
  }

  /**
    * As long as no slot in use is reused, at every moment each pending slot holds a message of its own and carries its
    * own number, and every accepted message is in flight or was destroyed once.
    */
  lemma {:induction false} AlwaysSound(memory: seq<Slot>, ticks: seq<Tick>, m: Moment)
    requires |memory| == MESSAGE_COUNT && IsMoment(m) && NeverReuses(memory, ticks)
    requires m.Polled? || m.InWork? ==> SlotFree(After(memory, ticks))
    ensures Sound(StateAt(memory, ticks, m))
  {
    hide After, Deliver, Sound, Send, PollAll;
    var head := After(memory, ticks);
    RunIsSound(memory, ticks);
    match m {
      case Head =>
      case Polled(t) =>
        PollSound(head, t);
      case InWork(t, happened) =>
        SentSound(head, t);
        DeliverSound(Sent(head, t), t.work[..happened]);
      case Closing(rounds, events) =>
        RoundsSound(head, rounds);
        DeliverSound(Rounds(head, rounds), events);
    }
  }

  lemma PollSound(s: State, t: Tick)
    requires Sound(s)
    ensures Sound(PollAll(s, t))
  {
    SoundSame(s, PollAll(s, t));
  }

  lemma SentSound(s: State, t: Tick)
    requires Sound(s) && SlotFree(s)
    ensures Sound(Sent(s, t))
  {
    if s.iter < MESSAGE_COUNT {
      PollSound(s, t);
      SendSound(PollAll(s, t), t);
    }
  }

  /**
    * So, at every moment of such a run, whatever slot the SDK can still confirm holds the handle of a message made in
    * that slot and not destroyed, carries the slot's own number, and is waited for once.
    */
  lemma {:induction false} PendingSlotsAreOwn(memory: seq<Slot>, ticks: seq<Tick>, m: Moment, slot: nat)
    requires |memory| == MESSAGE_COUNT && IsMoment(m) && NeverReuses(memory, ticks)
    requires m.Polled? || m.InWork? ==> SlotFree(After(memory, ticks))
    ensures var s := StateAt(memory, ticks, m);
            slot in s.pending ==>
              && slot < |s.slots| && s.pending[slot] == 1 && s.slots[slot].trackingId == slot
              && s.slots[slot].handle.Some?
              && var h := s.slots[slot].handle.value;
                 h < |s.log| && s.log[h].slot == slot && h !in s.destroyed
  {
    hide StateAt, Sound, NeverReuses, After;
    AlwaysSound(memory, ticks, m);
    if slot in StateAt(memory, ticks, m).pending {
      SoundSlot(StateAt(memory, ticks, m), slot);
    }
  }

  // ----- One handle for each confirmation -----

  lemma OnEventDestroys(s: State, e: Event)
    requires Sound(s) && |s.destroyed| == s.callbackCounter
    ensures |OnEvent(s, e).destroyed| == OnEvent(s, e).callbackCounter
  {
    if Happens(s, e) && e.Confirmed? {
      SoundSlot(s, e.slot);
    }
  }

  lemma {:induction false} DeliverDestroys(s: State, events: seq<Event>)
    requires Sound(s) && |s.destroyed| == s.callbackCounter
    ensures |Deliver(s, events).destroyed| == Deliver(s, events).callbackCounter
  {
    hide Sound, OnEvent;
    if events != [] {
      var front := events[..|events| - 1];
      DeliverDestroys(s, front);
      DeliverSound(s, front);
      OnEventDestroys(Deliver(s, front), events[|events| - 1]);
    }
  }

  lemma {:induction false} HeadDestroys(memory: seq<Slot>, ticks: seq<Tick>)
    requires |memory| == MESSAGE_COUNT && NeverReuses(memory, ticks)
    ensures |After(memory, ticks).destroyed| == After(memory, ticks).callbackCounter
  {
    hide Sound, Sent, Deliver, SlotFree;
    if ticks != [] {
      var before, t := After(memory, ticks[..|ticks| - 1]), ticks[|ticks| - 1];
      HeadDestroys(memory, ticks[..|ticks| - 1]);
      RunIsSound(memory, ticks[..|ticks| - 1]);
      SentSound(before, t);
      SentKeepsCounts(before, t);
      DeliverDestroys(Sent(before, t), t.work);
    }
  }

  lemma {:induction false} RoundsDestroy(s: State, rounds: seq<seq<Event>>)
    requires Sound(s) && |s.destroyed| == s.callbackCounter
    ensures |Rounds(s, rounds).destroyed| == Rounds(s, rounds).callbackCounter
  {
    hide Sound, Deliver;
    if rounds != [] {
      var front := rounds[..|rounds| - 1];
      RoundsDestroy(s, front);
      RoundsSound(s, front);
      DeliverDestroys(Rounds(s, front), rounds[|rounds| - 1]);
    }
  }

  /** At every moment of such a run each confirmation has destroyed one handle. */
  lemma {:induction false} HandlePerConfirmation(memory: seq<Slot>, ticks: seq<Tick>, m: Moment)
    requires |memory| == MESSAGE_COUNT && IsMoment(m) && NeverReuses(memory, ticks)
    requires m.Polled? || m.InWork? ==> SlotFree(After(memory, ticks))
    ensures |StateAt(memory, ticks, m).destroyed| == ConfirmationsAt(memory, ticks, m)
  {
    hide After, Sent, Deliver, Sound, NeverReuses, SlotFree, ConfirmationsAt;
    var head := After(memory, ticks);
    RunIsSound(memory, ticks);
    HeadDestroys(memory, ticks);
    ConfirmedAt(memory, ticks, m);
    match m {
      case Head =>
      case Polled(t) =>
      case InWork(t, happened) =>
        SentSound(head, t);
        SentKeepsCounts(head, t);
        DeliverDestroys(Sent(head, t), t.work[..happened]);
      case Closing(rounds, events) =>
        RoundsSound(head, rounds);
        RoundsDestroy(head, rounds);
        DeliverDestroys(Rounds(head, rounds), events);
    }
  }
}
