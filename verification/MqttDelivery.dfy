/**
  * iotHub_mbtcp/src/iothub_client_NB301_mqtt.c: over a whole run, is the handle of every message the SDK
  * accepted destroyed exactly once?
  */
module MqttDelivery {
  import opened Words
  import opened JsonLookup
  import opened MqttClient

  function Times(s: State, h: nat): nat {
    multiset(s.destroyed)[h]
  }

  /** Message h is with the SDK, and the slot the confirmation will come for still names it. */
  predicate InFlight(s: State, h: nat)
    requires h < |s.log|
  {
    var slot := s.log[h].slot;
    slot in s.pending && slot < |s.slots| && s.slots[slot].handle == Some(h)
  }

  /** The slot of a message the SDK holds names that message and carries its own number; no other waits for it. */
  predicate SlotSound(s: State, slot: nat) {
    && s.pending[slot] == 1 && slot < |s.slots| && s.slots[slot].trackingId == slot
    && s.slots[slot].handle.Some?
    && var h := s.slots[slot].handle.value; h < |s.log| && s.log[h].accepted && s.log[h].slot == slot
  }

  predicate SlotsSound(s: State) {
    forall slot :: slot in s.pending ==> SlotSound(s, slot)
  }

  /** An accepted message is in flight or has been destroyed once; a refused one is never destroyed. */
  predicate HandlesSound(s: State) {
    && (forall h :: 0 <= h < |s.log| ==> Times(s, h) == if s.log[h].accepted && !InFlight(s, h) then 1 else 0)
    && (forall h :: h in s.destroyed ==> h < |s.log|)
  }

  predicate Sound(s: State) {
    |s.slots| == MESSAGE_COUNT && SlotsSound(s) && HandlesSound(s)
  }

  /** The iteration that starts in s does not reuse the slot of a message the SDK still holds. */
  predicate SlotFree(s: State) {
    s.iter < MESSAGE_COUNT ==> s.iter !in s.pending
  }

  lemma SendSound(s: State, t: Tick)
    requires Sound(s) && s.iter < MESSAGE_COUNT && SlotFree(s)
    ensures Sound(Send(s, t))
  {
    var s' := Send(s, t);
    forall slot | slot in s'.pending
      ensures SlotSound(s', slot)
    {
      if slot != s.iter {
        assert SlotSound(s, slot);
      }
    }
    assert |s.log| !in s.destroyed;
    forall h | 0 <= h < |s'.log|
      ensures Times(s', h) == if s'.log[h].accepted && !InFlight(s', h) then 1 else 0
    {
      SendFlight(s, t, h);
    }
  }

  lemma SendFlight(s: State, t: Tick, h: nat)
    requires |s.slots| == MESSAGE_COUNT && s.iter < MESSAGE_COUNT && SlotFree(s) && h < |Send(s, t).log|
    ensures Times(Send(s, t), h) == Times(s, h)
    ensures h < |s.log| ==> Send(s, t).log[h] == s.log[h] && (InFlight(Send(s, t), h) <==> InFlight(s, h))
    ensures h == |s.log| ==> (InFlight(Send(s, t), h) <==> t.accepted)
  {
  }

  lemma ConfirmedTimes(s: State, e: Event, h: nat)
    requires Sound(s) && Happens(s, e) && e.Confirmed? && h < |s.log|
    ensures var confirmed := s.slots[e.slot].handle.value;
            var s' := OnEvent(s, e);
            && Times(s', h) == Times(s, h) + (if h == confirmed then 1 else 0)
            && (InFlight(s', h) <==> InFlight(s, h) && h != confirmed)
  {
    assert SlotSound(s, e.slot);
    var confirmed := s.slots[e.slot].handle.value;
    assert InFlight(s, confirmed) && e.slot !in OnEvent(s, e).pending;
  }

  lemma ConfirmedSlots(s: State, e: Event)
    requires SlotsSound(s) && Happens(s, e) && e.Confirmed?
    ensures SlotsSound(OnEvent(s, e)) && forall h :: h in OnEvent(s, e).destroyed ==> h in s.destroyed || h < |s.log|
  {
    assert SlotSound(s, e.slot);
    forall slot | slot in OnEvent(s, e).pending
      ensures SlotSound(OnEvent(s, e), slot)
    {
      assert SlotSound(s, slot);
    }
  }

  lemma OnEventSound(s: State, e: Event)
    requires Sound(s)
    ensures Sound(OnEvent(s, e))
  {
    if Happens(s, e) && e.Confirmed? {
      var s' := OnEvent(s, e);
      ConfirmedSlots(s, e);
      forall h | 0 <= h < |s'.log|
        ensures Times(s', h) == if s'.log[h].accepted && !InFlight(s', h) then 1 else 0
      {
        hide InFlight, Times, SlotSound;
        ConfirmedTimes(s, e, h);
        ConfirmedAccepted(s, e);
      }
    } else {
      SoundSame(s, OnEvent(s, e));
    }
  }

  lemma ConfirmedAccepted(s: State, e: Event)
    requires SlotsSound(s) && Happens(s, e) && e.Confirmed?
    ensures var h := s.slots[e.slot].handle;
            h.Some? && h.value < |s.log| && s.log[h.value].accepted && InFlight(s, h.value)
  {
    assert SlotSound(s, e.slot);
  }

  /** Soundness is about the slots, the messages and the handles alone. */
  lemma SoundSame(s: State, s': State)
    requires Sound(s)
    requires s'.slots == s.slots && s'.pending == s.pending && s'.log == s.log && s'.destroyed == s.destroyed
    ensures Sound(s')
  {
    assert forall slot :: slot in s.pending ==> SlotSound(s, slot) && SlotSound(s', slot);
    assert forall h :: 0 <= h < |s.log| ==> (InFlight(s', h) <==> InFlight(s, h)) && Times(s', h) == Times(s, h);
  }

  lemma {:induction false} DeliverSound(s: State, events: seq<Event>)
    requires Sound(s)
    ensures Sound(Deliver(s, events))
  {
    hide OnEvent, Sound;
    if events != [] {
      DeliverSound(s, events[..|events| - 1]);
      OnEventSound(Deliver(s, events[..|events| - 1]), events[|events| - 1]);
    }
  }

  lemma DoWorkSound(s: State, events: seq<Event>)
    requires Sound(s)
    ensures Sound(DoWork(s, events))
  {
    DeliverSound(s, events);
    SoundSame(Deliver(s, events), DoWork(s, events));
  }

  lemma IterateSound(s: State, t: Tick)
    requires Sound(s) && SlotFree(s)
    ensures Sound(Iterate(s, t))
  {
    if s.iter < MESSAGE_COUNT {
      SoundSame(s, PollAll(s, t));
      SendSound(PollAll(s, t), t);
    }
    DoWorkSound(Sent(s, t), t.work);
    SoundSame(DoWork(Sent(s, t), t.work), Iterate(s, t));
  }

  // ----- A reused slot loses a message for good -----

  /** An accepted message that was not destroyed and that no confirmation to come will destroy. */
  predicate Lost(s: State, h: nat) {
    && h < |s.log| && s.log[h].accepted && h !in s.destroyed
    && forall slot :: slot in s.pending && slot < |s.slots| ==> s.slots[slot].handle != Some(h)
  }

  lemma ReuseLoses(s: State, t: Tick)
    requires Sound(s) && s.iter < MESSAGE_COUNT && s.iter in s.pending
    ensures s.slots[s.iter].handle.Some? && Lost(Send(s, t), s.slots[s.iter].handle.value)
  {
    assert SlotSound(s, s.iter);
    var h := s.slots[s.iter].handle.value;
    assert InFlight(s, h) && Times(s, h) == 0;
    var s' := Send(s, t);
    forall slot | slot in s'.pending && slot < |s'.slots|
      ensures s'.slots[slot].handle != Some(h)
    {
      if slot != s.iter {
        assert SlotSound(s, slot);
      }
    }
  }

  lemma {:induction false} DeliverKeepsLost(s: State, events: seq<Event>, h: nat)
    requires Lost(s, h)
    ensures Lost(Deliver(s, events), h)
  {
    hide OnEvent;
    if events != [] {
      DeliverKeepsLost(s, events[..|events| - 1], h);
      OnEventKeepsLost(Deliver(s, events[..|events| - 1]), events[|events| - 1], h);
    }
  }

  lemma OnEventKeepsLost(s: State, e: Event, h: nat)
    requires Lost(s, h)
    ensures Lost(OnEvent(s, e), h)
  {
  }

  lemma IterateKeepsLost(s: State, t: Tick, h: nat)
    requires |s.slots| == MESSAGE_COUNT && Lost(s, h)
    ensures Lost(Iterate(s, t), h)
  {
    assert Lost(Sent(s, t), h);
    DeliverKeepsLost(Sent(s, t), t.work, h);
  }

  // ----- Whole runs -----

  predicate NeverReuses(memory: seq<Slot>, ticks: seq<Tick>)
    requires |memory| == MESSAGE_COUNT
  {
    ticks == [] || (NeverReuses(memory, ticks[..|ticks| - 1]) && SlotFree(After(memory, ticks[..|ticks| - 1])))
  }

  lemma {:induction false} RunIsSound(memory: seq<Slot>, ticks: seq<Tick>)
    requires |memory| == MESSAGE_COUNT && NeverReuses(memory, ticks)
    ensures Sound(After(memory, ticks))
  {
    hide Iterate, Sound;
    if ticks == [] {
      StartSound(memory);
    } else {
      RunIsSound(memory, ticks[..|ticks| - 1]);
      IterateSound(After(memory, ticks[..|ticks| - 1]), ticks[|ticks| - 1]);
    }
  }

  lemma StartSound(memory: seq<Slot>)
    requires |memory| == MESSAGE_COUNT
    ensures Sound(Start(memory))
  {
  }

  lemma SoundSlot(s: State, slot: nat)
    requires Sound(s) && slot in s.pending
    ensures slot < MESSAGE_COUNT == |s.slots| && s.pending[slot] == 1 && s.slots[slot].trackingId == slot
    ensures var h := s.slots[slot].handle;
            h.Some? && h.value < |s.log| && s.log[h.value].slot == slot && h.value !in s.destroyed
  {
    assert SlotSound(s, slot);
    var h := s.slots[slot].handle.value;
    assert InFlight(s, h) && Times(s, h) == 0;
  }

  lemma {:induction false} RunLoses(memory: seq<Slot>, ticks: seq<Tick>) returns (h: nat)
    requires |memory| == MESSAGE_COUNT && !NeverReuses(memory, ticks)
    ensures Lost(After(memory, ticks), h)
  {
    hide Iterate, Sound, Lost, SlotFree;
    var n := |ticks| - 1;
    if NeverReuses(memory, ticks[..n]) {
      RunIsSound(memory, ticks[..n]);
      h := IterateLoses(After(memory, ticks[..n]), ticks[n]);
    } else {
      h := RunLoses(memory, ticks[..n]);
      IterateKeepsLost(After(memory, ticks[..n]), ticks[n], h);
    }
  }

  lemma IterateLoses(s: State, t: Tick) returns (h: nat)
    requires Sound(s) && !SlotFree(s)
    ensures Lost(Iterate(s, t), h)
  {
    SoundSame(s, PollAll(s, t));
    ReuseLoses(PollAll(s, t), t);
    h := s.slots[s.iter].handle.value;
    DeliverKeepsLost(Sent(s, t), t.work, h);
  }

  /** The run has ended in end, and Destroy has confirmed everything that was left. */
  predicate Drained(s: State, first: seq<Event>, second: seq<Event>, third: seq<Event>, destroy: seq<Event>,
                    end: State)
  {
    Finishes(s, first, second, third, destroy, end) && end.pending == multiset{}
  }

  predicate ExactlyOnce(s: State) {
    forall h :: 0 <= h < |s.log| ==> Times(s, h) == if s.log[h].accepted then 1 else 0
  }

  /**
    * At the end of a run, when Destroy has confirmed everything, the handle of each accepted message has been
    * destroyed exactly once, and of each refused one never, if and only if no iteration reused the slot of a
    * message the SDK still held.
    */
  lemma {:induction false} ExactlyOnceIffNeverReuses(
      memory: seq<Slot>, ticks: seq<Tick>,
      first: seq<Event>, second: seq<Event>, third: seq<Event>, destroy: seq<Event>, end: State)
    requires |memory| == MESSAGE_COUNT && Drained(After(memory, ticks), first, second, third, destroy, end)
    ensures ExactlyOnce(end) <==> NeverReuses(memory, ticks)
  {
    hide After, Deliver, Sound, Lost;
    var s := After(memory, ticks);
    if NeverReuses(memory, ticks) {
      RunIsSound(memory, ticks);
      DoWorkSound(s, first);
      DoWorkSound(DoWork(s, first), second);
      DoWorkSound(DoWork(DoWork(s, first), second), third);
      DeliverSound(DoWork(DoWork(DoWork(s, first), second), third), destroy);
      NothingInFlight(end);
    } else {
      var h := RunLoses(memory, ticks);
      DoWorkKeepsLost(s, first, h);
      DoWorkKeepsLost(DoWork(s, first), second, h);
      DoWorkKeepsLost(DoWork(DoWork(s, first), second), third, h);
      DeliverKeepsLost(DoWork(DoWork(DoWork(s, first), second), third), destroy, h);
      LostIsNotOnce(end, h);
    }
  }

  lemma DoWorkKeepsLost(s: State, events: seq<Event>, h: nat)
    requires Lost(s, h)
    ensures Lost(DoWork(s, events), h)
  {
    DeliverKeepsLost(s, events, h);
  }

  lemma NothingInFlight(s: State)
    requires Sound(s) && s.pending == multiset{}
    ensures ExactlyOnce(s)
  {
  }

  lemma LostIsNotOnce(s: State, h: nat)
    requires Lost(s, h)
    ensures !ExactlyOnce(s)
  {
    assert Times(s, h) == 0;
  }

  // ----- When slots are reused -----

  /** Every message is made in the slot of its iteration's counter value. */
  predicate SlotOfIteration(s: State) {
    forall h :: 0 <= h < |s.log| ==>
      s.log[h].at < s.doWorks && s.log[h].slot == s.log[h].at % ITERATOR_VALUES && s.log[h].slot < MESSAGE_COUNT
  }

  predicate AtIncreases(s: State) {
    forall g, h :: 0 <= g < h < |s.log| ==> s.log[g].at < s.log[h].at
  }

  predicate PendingLogged(s: State) {
    forall slot :: slot in s.pending ==> exists h :: 0 <= h < |s.log| && s.log[h].slot == slot
  }

  /** Messages are made at increasing iterations, each in the slot of its iteration's counter value. */
  predicate LogInOrder(s: State) {
    SlotOfIteration(s) && AtIncreases(s) && PendingLogged(s)
  }

  lemma SendLogged(s: State, t: Tick)
    requires s.iter < |s.slots| && PendingLogged(s)
    ensures PendingLogged(Send(s, t))
  {
    var s' := Send(s, t);
    forall slot | slot in s'.pending
      ensures exists h :: 0 <= h < |s'.log| && s'.log[h].slot == slot
    {
      if slot in s.pending {
        var h :| 0 <= h < |s.log| && s.log[h].slot == slot;
        assert s'.log[h].slot == slot;
      } else {
        assert s'.log[|s.log|].slot == slot;
      }
    }
  }

  lemma SendInOrder(s: State, t: Tick)
    requires s.iter < |s.slots| && LogInOrder(s) && s.iter == s.doWorks % ITERATOR_VALUES && s.iter < MESSAGE_COUNT
    ensures LogInOrder(Send(s, t).(doWorks := s.doWorks + 1))
  {
    var s' := Send(s, t).(doWorks := s.doWorks + 1);
    SendLogged(s, t);
    assert PendingLogged(s') by {
      hide Send;
    }
    assert SlotOfIteration(s') && AtIncreases(s') by {
      hide PendingLogged;
    }
  }

  lemma {:induction false} DeliverInOrder(s: State, events: seq<Event>)
    ensures forall slot :: slot in Deliver(s, events).pending ==> slot in s.pending
  {
    if events != [] {
      DeliverInOrder(s, events[..|events| - 1]);
    }
  }

  lemma SameLogInOrder(s: State, s': State)
    requires LogInOrder(s) && s'.log == s.log && s'.doWorks >= s.doWorks
    requires forall slot :: slot in s'.pending ==> slot in s.pending
    ensures LogInOrder(s')
  {
  }

  lemma IterateInOrder(s: State, t: Tick)
    requires |s.slots| == MESSAGE_COUNT && LogInOrder(s) && s.iter == s.doWorks % ITERATOR_VALUES
    ensures LogInOrder(Iterate(s, t))
  {
    hide LogInOrder, Send, Deliver, PollAll;
    var sent := Sent(s, t).(doWorks := s.doWorks + 1);
    SentInOrder(s, t);
    SentFrame(s, t);
    DeliverFrame(Sent(s, t), t.work);
    DeliverInOrder(Sent(s, t), t.work);
    SameLogInOrder(sent, Iterate(s, t));
  }

  lemma SentInOrder(s: State, t: Tick)
    requires |s.slots| == MESSAGE_COUNT && LogInOrder(s) && s.iter == s.doWorks % ITERATOR_VALUES
    ensures LogInOrder(Sent(s, t).(doWorks := s.doWorks + 1))
  {
    hide LogInOrder, Send;
    if s.iter < MESSAGE_COUNT {
      SameLogInOrder(s, PollAll(s, t));
      SendInOrder(PollAll(s, t), t);
    } else {
      SameLogInOrder(s, s.(doWorks := s.doWorks + 1));
    }
  }

  lemma SentFrame(s: State, t: Tick)
    requires |s.slots| == MESSAGE_COUNT
    ensures Sent(s, t).doWorks == s.doWorks
  {
  }

  lemma {:induction false} RunInOrder(memory: seq<Slot>, ticks: seq<Tick>)
    requires |memory| == MESSAGE_COUNT
    ensures LogInOrder(After(memory, ticks))
  {
    hide Iterate, LogInOrder;
    if ticks == [] {
      StartInOrder(memory);
    } else {
      RunInOrder(memory, ticks[..|ticks| - 1]);
      AfterShape(memory, ticks[..|ticks| - 1]);
      IterateInOrder(After(memory, ticks[..|ticks| - 1]), ticks[|ticks| - 1]);
    }
  }

  lemma StartInOrder(memory: seq<Slot>)
    requires |memory| == MESSAGE_COUNT
    ensures LogInOrder(Start(memory))
  {
  }

  /** Until the counter has gone round once, every run keeps clear of the slots in use. */
  lemma {:induction false} FirstRoundNeverReuses(memory: seq<Slot>, ticks: seq<Tick>)
    requires |memory| == MESSAGE_COUNT && |ticks| <= ITERATOR_VALUES
    ensures NeverReuses(memory, ticks)
  {
    hide After;
    if ticks != [] {
      var front := ticks[..|ticks| - 1];
      FirstRoundNeverReuses(memory, front);
      RunInOrder(memory, front);
      AfterShape(memory, front);
      var s := After(memory, front);
      assert s.iter == |front|;
      assert forall h :: 0 <= h < |s.log| ==> s.log[h].slot < |front|;
    }
  }

  /** So a run of at most 2^32 iterations destroys every accepted message's handle exactly once. */
  lemma {:induction false} FirstRoundExactlyOnce(memory: seq<Slot>, ticks: seq<Tick>, first: seq<Event>,
                                                 second: seq<Event>, third: seq<Event>, destroy: seq<Event>)
    requires |memory| == MESSAGE_COUNT && |ticks| <= ITERATOR_VALUES
    ensures var end := Finish(After(memory, ticks), first, second, third, destroy);
            end.pending == multiset{} ==> ExactlyOnce(end)
  {
    hide After, Deliver, ExactlyOnce, NeverReuses;
    var end := Finish(After(memory, ticks), first, second, third, destroy);
    FirstRoundNeverReuses(memory, ticks);
    if end.pending == multiset{} {
      ExactlyOnceIffNeverReuses(memory, ticks, first, second, third, destroy, end);
    }
  }

  /** In that time at most 250 messages are made, each in a slot of its own. */
  lemma {:induction false} FirstRoundSlots(memory: seq<Slot>, ticks: seq<Tick>)
    requires |memory| == MESSAGE_COUNT && |ticks| <= ITERATOR_VALUES
    ensures var log := After(memory, ticks).log;
            && |log| <= MESSAGE_COUNT
            && forall g, h :: 0 <= g < h < |log| ==> log[g].slot < log[h].slot < MESSAGE_COUNT
  {
    hide After;
    var s := After(memory, ticks);
    RunInOrder(memory, ticks);
    AfterShape(memory, ticks);
    assert forall h :: 0 <= h < |s.log| ==> s.log[h].slot == s.log[h].at;
    if |s.log| > 0 {
      SlotAtLeast(s.log, |s.log| - 1);
    }
  }

  lemma {:induction false} SlotAtLeast(log: seq<Message>, h: nat)
    requires h < |log| && forall i, j :: 0 <= i < j < |log| ==> log[i].slot < log[j].slot
    ensures log[h].slot >= h
  {
    if h > 0 {
      SlotAtLeast(log, h - 1);
    }
  }

  // ----- One iteration later -----

  /** An iteration whose message is accepted and in which the SDK does nothing but, perhaps, deliver a command. */
  function QuietTick(work: seq<Event>): Tick {
    var silent := Reply(None, 0);
    Tick(silent, silent, silent, true, true, work)
  }

  lemma {:induction false} QuietRun(memory: seq<Slot>, n: nat)
    requires |memory| == MESSAGE_COUNT && n > 0
    ensures var s := After(memory, seq(n, i => QuietTick([])));
            0 in s.pending && s.running && s.iter == n % ITERATOR_VALUES
    decreases n
  {
    var ticks := seq(n, i => QuietTick([]));
    AfterShape(memory, ticks);
    RunsUntilQuit(memory, ticks);
    if n > 1 {
      QuietRun(memory, n - 1);
      assert ticks[..n - 1] == seq(n - 1, i => QuietTick([]));
      QuietKeepsPending(After(memory, ticks[..n - 1]));
    } else {
      assert ticks[..0] == [];
      assert After(memory, ticks) == Iterate(Start(memory), QuietTick([]));
    }
  }

  lemma QuietKeepsPending(s: State)
    requires |s.slots| == MESSAGE_COUNT && 0 in s.pending
    ensures 0 in Iterate(s, QuietTick([])).pending
  {
  }

  lemma {:induction false} DeliverCons(s: State, e: Event, events: seq<Event>)
    ensures Deliver(s, [e] + events) == Deliver(OnEvent(s, e), events)
  {
    hide OnEvent;
    var all := [e] + events;
    if events == [] {
      assert all[..0] == [] && all[0] == e;
      assert Deliver(s, all[..0]) == s;
    } else {
      var n := |events| - 1;
      DeliverCons(s, e, events[..n]);
      assert all[..|all| - 1] == [e] + events[..n];
    }
  }

  /** Destroy can always confirm everything that is left. */
  lemma {:induction false} DrainExists(s: State) returns (destroy: seq<Event>)
    requires forall slot :: slot in s.pending ==> slot < |s.slots|
    ensures Deliver(s, destroy).pending == multiset{}
    decreases |s.pending|
  {
    if |s.pending| == 0 {
      destroy := [];
    } else {
      var slot :| slot in s.pending;
      var e := Confirmed(slot);
      assert |OnEvent(s, e).pending| == |s.pending| - 1;
      var rest := DrainExists(OnEvent(s, e));
      DeliverCons(s, e, rest);
      destroy := [e] + rest;
    }
  }

  lemma PendingInRange(memory: seq<Slot>, ticks: seq<Tick>)
    requires |memory| == MESSAGE_COUNT
    ensures forall slot :: slot in After(memory, ticks).pending ==> slot < MESSAGE_COUNT
  {
    hide After;
    RunInOrder(memory, ticks);
    var s := After(memory, ticks);
    forall slot | slot in s.pending
      ensures slot < MESSAGE_COUNT
    {
      var h :| 0 <= h < |s.log| && s.log[h].slot == slot;
    }
  }

  lemma IdleWork(s: State)
    ensures DoWork(s, []) == s.(doWorks := s.doWorks + 1)
  {
  }

  lemma FinishDrains(memory: seq<Slot>, ticks: seq<Tick>) returns (destroy: seq<Event>)
    requires |memory| == MESSAGE_COUNT
    ensures Finish(After(memory, ticks), [], [], [], destroy).pending == multiset{}
  {
    var s := After(memory, ticks);
    PendingInRange(memory, ticks);
    IdleWork(s);
    IdleWork(DoWork(s, []));
    IdleWork(DoWork(DoWork(s, []), []));
    destroy := DrainExists(DoWork(DoWork(DoWork(s, []), []), []));
  }

  /**
    * The bound is exact: with one iteration more than the counter has values there is a whole run, ended by
    * "quit" and drained by Destroy, after which an accepted message's handle was not destroyed exactly once.
    */
  lemma {:induction false} SecondRoundCanReuse(memory: seq<Slot>)
    returns (ticks: seq<Tick>, destroy: seq<Event>, end: State)
    requires |memory| == MESSAGE_COUNT
    ensures |ticks| == ITERATOR_VALUES + 1 && EndsWithQuit(ticks)
    ensures Drained(After(memory, ticks), [], [], [], destroy, end) && !ExactlyOnce(end)
  {
    hide After;
    var front := seq(ITERATOR_VALUES, i => QuietTick([]));
    ticks := front + [QuietTick([QUIT])];
    QuietRun(memory, ITERATOR_VALUES);
    assert ticks[..|ticks| - 1] == front;
    assert !SlotFree(After(memory, front));
    assert !NeverReuses(memory, ticks);
    assert QUIT in [QUIT];
    destroy := FinishDrains(memory, ticks);
    end := Finish(After(memory, ticks), [], [], [], destroy);
    ExactlyOnceIffNeverReuses(memory, ticks, [], [], [], destroy, end);
  }
}
