/**
  * iotHub_mbtcp/src/iothub_client_NB301_mqtt.c as a state machine: the message slots, the messages the SDK
  * still holds, the confirmations and commands it delivers inside DoWork, and the polled registers.
  */
module MqttClient {
  import opened Words
  import opened JsonLookup
  import opened Telemetry

  const MESSAGE_COUNT: nat := 250
  /** size_t on the 32-bit target. */
  const ITERATOR_VALUES: nat := UINT32_VALUES
  const INITIAL_READINGS := Readings(11, 11, 50, 99)

  /** EVENT_INSTANCE; a handle is the number of the message it stands for, or NULL. */
  datatype Slot = Slot(handle: Option<nat>, trackingId: nat)

  /** A message IoTHubMessage_CreateFromByteArray made: its slot, the iteration, and whether the SDK took it. */
  datatype Message = Message(slot: nat, at: nat, text: string, accepted: bool)

  /** What the SDK does inside DoWork: confirm the message of a slot, or deliver a message (None: unreadable data). */
  datatype Event = Confirmed(slot: nat) | Delivered(data: Option<string>)

  /** What the environment answers in one iteration. */
  datatype Tick = Tick(pressure: Reply, temperature: Reply, freq: Reply, created: bool, accepted: bool,
                       work: seq<Event>)

  datatype State = State(
    readings: Readings,
    running: bool,
    callbackCounter: nat,
    received: nat,
    iter: nat,
    slots: seq<Slot>,
    pending: multiset<nat>,
    log: seq<Message>,
    destroyed: seq<nat>,
    doWorks: nat,
    requests: seq<nat>)

  /** Before the loop; the messages array on the stack is not initialised. */
  function Start(memory: seq<Slot>): State {
    State(INITIAL_READINGS, true, 0, 0, 0, memory, multiset{}, [], [], 0, [])
  }

  // ----- Steps -----

  /** A register variable after its poll: the update function is called exactly when there is a reading. */
  function AfterPoll(reply: Reply, current: uint16): uint16 {
    match LookupReading(reply)
    case Some(v) => v
    case None => current
  }

  /** The three exchanges before a message. */
  function PollAll(s: State, t: Tick): State {
    var r := s.readings;
    s.(readings := Readings(AfterPoll(t.pressure, r.oilPressure), AfterPoll(t.temperature, r.oilTemperature),
                            AfterPoll(t.freq, r.outputFreq), r.outputVoltage),
       requests := s.requests + [1, 2, 3])
  }

  /** One message into the slot of the loop counter; its handle field is assigned even when creation fails. */
  function Send(s: State, t: Tick): State
    requires s.iter < |s.slots|
  {
    if !t.created then
      s.(slots := s.slots[s.iter := s.slots[s.iter].(handle := None)])
    else
      s.(slots := s.slots[s.iter := Slot(Some(|s.log|), s.iter)],
         log := s.log + [Message(s.iter, s.doWorks, TextOf(s.readings), t.accepted)],
         pending := if t.accepted then s.pending + multiset{s.iter} else s.pending)
  }

  /** The SDK confirms only messages it holds; any other confirmation is no event. */
  predicate Happens(s: State, e: Event) {
    e.Confirmed? ==> e.slot in s.pending && e.slot < |s.slots|
  }

  function OnEvent(s: State, e: Event): State {
    if !Happens(s, e) then s
    else
      match e
      case Confirmed(slot) =>
        s.(pending := s.pending - multiset{slot},
           callbackCounter := s.callbackCounter + 1,
           destroyed := s.destroyed + match s.slots[slot].handle { case Some(h) => [h] case None => [] })
      case Delivered(data) =>
        s.(received := s.received + 1, running := s.running && data != Some("quit"))
  }

  function Deliver(s: State, events: seq<Event>): State {
    if events == [] then s else OnEvent(Deliver(s, events[..|events| - 1]), events[|events| - 1])
  }

  function DoWork(s: State, events: seq<Event>): State {
    var s' := Deliver(s, events);
    s'.(doWorks := s'.doWorks + 1)
  }

  /** What happens before DoWork: a poll and a message, as long as there are slots. */
  function Sent(s: State, t: Tick): State
    requires |s.slots| == MESSAGE_COUNT
  {
    if s.iter < MESSAGE_COUNT then Send(PollAll(s, t), t) else s
  }

  /** The body of the do-while loop. */
  function Iterate(s: State, t: Tick): State
    requires |s.slots| == MESSAGE_COUNT
  {
    var worked := DoWork(Sent(s, t), t.work);
    worked.(iter := (worked.iter + 1) % ITERATOR_VALUES)
  }

  /** The state after the given iterations. */
  function After(memory: seq<Slot>, ticks: seq<Tick>): (s: State)
    requires |memory| == MESSAGE_COUNT
    ensures |s.slots| == MESSAGE_COUNT
  {
    if ticks == [] then Start(memory)
    else
      var s := After(memory, ticks[..|ticks| - 1]);
      IterateShape(s, ticks[|ticks| - 1]);
      Iterate(s, ticks[|ticks| - 1])
  }

  lemma {:induction false} DeliverFrame(s: State, events: seq<Event>)
    ensures var s' := Deliver(s, events);
            && s'.slots == s.slots && s'.iter == s.iter && s'.doWorks == s.doWorks
            && s'.log == s.log && s'.readings == s.readings && s'.requests == s.requests
  {
    if events != [] {
      DeliverFrame(s, events[..|events| - 1]);
    }
  }

  lemma IterateShape(s: State, t: Tick)
    requires |s.slots| == MESSAGE_COUNT
    ensures var s' := Iterate(s, t);
            && |s'.slots| == MESSAGE_COUNT && s'.doWorks == s.doWorks + 1
            && s'.iter == (s.iter + 1) % ITERATOR_VALUES
  {
    DeliverFrame(Sent(s, t), t.work);
  }

  lemma {:induction false} AfterShape(memory: seq<Slot>, ticks: seq<Tick>)
    requires |memory| == MESSAGE_COUNT
    ensures After(memory, ticks).doWorks == |ticks| && After(memory, ticks).iter == |ticks| % ITERATOR_VALUES
  {
    hide Iterate;
    if ticks != [] {
      AfterShape(memory, ticks[..|ticks| - 1]);
      IterateShape(After(memory, ticks[..|ticks| - 1]), ticks[|ticks| - 1]);
    }
  }

  /** The loop goes round again after the first k of the given iterations, or starts if k is 0. */
  predicate GoesOn(memory: seq<Slot>, ticks: seq<Tick>, k: nat)
    requires |memory| == MESSAGE_COUNT && k <= |ticks|
  {
    k == 0 || After(memory, ticks[..k]).running
  }

  /** The given iterations are those of a whole loop: it goes on before each of them, and ends after the last. */
  predicate IsWholeLoop(memory: seq<Slot>, ticks: seq<Tick>)
    requires |memory| == MESSAGE_COUNT
  {
    (forall k :: 0 <= k < |ticks| ==> GoesOn(memory, ticks, k)) && !GoesOn(memory, ticks, |ticks|)
  }

  /** Three more rounds of DoWork, then Destroy, which confirms what the SDK still holds. */
  function Finish(s: State, first: seq<Event>, second: seq<Event>, third: seq<Event>, destroy: seq<Event>): State {
    Deliver(DoWork(DoWork(DoWork(s, first), second), third), destroy)
  }

  predicate Finishes(s: State, first: seq<Event>, second: seq<Event>, third: seq<Event>, destroy: seq<Event>,
                     end: State)
  {
    end == Finish(s, first, second, third, destroy)
  }

  // ----- Conservation -----

  function Refused(log: seq<Message>): nat {
    if log == [] then 0 else Refused(log[..|log| - 1]) + if log[|log| - 1].accepted then 0 else 1
  }

  predicate Conserved(s: State) {
    |s.log| == |s.pending| + s.callbackCounter + Refused(s.log)
  }

  lemma {:induction false} DeliverConserves(s: State, events: seq<Event>)
    requires Conserved(s)
    ensures Conserved(Deliver(s, events))
  {
    if events != [] {
      DeliverConserves(s, events[..|events| - 1]);
    }
  }

  lemma SendConserves(s: State, t: Tick)
    requires s.iter < |s.slots| && Conserved(s)
    ensures Conserved(Send(s, t))
  {
    if t.created {
      assert Send(s, t).log[..|s.log|] == s.log;
    }
  }

  lemma IterateConserves(s: State, t: Tick)
    requires |s.slots| == MESSAGE_COUNT && Conserved(s)
    ensures Conserved(Iterate(s, t))
  {
    if s.iter < MESSAGE_COUNT {
      SendConserves(PollAll(s, t), t);
    }
    DeliverConserves(Sent(s, t), t.work);
  }

  /** Whenever the loop condition is read. */
  lemma {:induction false} HeadConserved(memory: seq<Slot>, ticks: seq<Tick>)
    requires |memory| == MESSAGE_COUNT
    ensures Conserved(After(memory, ticks))
  {
    if ticks != [] {
      HeadConserved(memory, ticks[..|ticks| - 1]);
      IterateConserves(After(memory, ticks[..|ticks| - 1]), ticks[|ticks| - 1]);
    }
  }

  // ----- Confirmations -----

  /** How many messages the SDK confirms when the events are delivered from s on. */
  function Confirmations(s: State, events: seq<Event>): nat {
    if events == [] then 0
    else
      var front, last := events[..|events| - 1], events[|events| - 1];
      Confirmations(s, front) + if last.Confirmed? && Happens(Deliver(s, front), last) then 1 else 0
  }

  lemma {:induction false} DeliverConfirms(s: State, events: seq<Event>)
    ensures Deliver(s, events).callbackCounter == s.callbackCounter + Confirmations(s, events)
  {
    if events != [] {
      DeliverConfirms(s, events[..|events| - 1]);
    }
  }

  // ----- Quit -----

  const QUIT: Event := Delivered(Some("quit"))

  lemma OnEventRuns(s: State, e: Event)
    ensures OnEvent(s, e).running <==> s.running && e != QUIT
  {
  }

  lemma {:induction false} DeliverRuns(s: State, events: seq<Event>)
    ensures Deliver(s, events).running <==> s.running && QUIT !in events
  {
    hide OnEvent;
    if events != [] {
      var n := |events| - 1;
      DeliverRuns(s, events[..n]);
      OnEventRuns(Deliver(s, events[..n]), events[n]);
      assert events == events[..n] + [events[n]];
    }
  }

  lemma IterateRuns(s: State, t: Tick)
    requires |s.slots| == MESSAGE_COUNT
    ensures Iterate(s, t).running <==> s.running && QUIT !in t.work
  {
    DeliverRuns(Sent(s, t), t.work);
  }

  predicate NoQuit(ticks: seq<Tick>) {
    forall k :: 0 <= k < |ticks| ==> QUIT !in ticks[k].work
  }

  lemma {:induction false} RunsUntilQuit(memory: seq<Slot>, ticks: seq<Tick>)
    requires |memory| == MESSAGE_COUNT
    ensures After(memory, ticks).running <==> NoQuit(ticks)
  {
    hide Iterate;
    if ticks != [] {
      var n := |ticks| - 1;
      RunsUntilQuit(memory, ticks[..n]);
      IterateRuns(After(memory, ticks[..n]), ticks[n]);
      assert NoQuit(ticks) <==> NoQuit(ticks[..n]) && QUIT !in ticks[n].work;
    }
  }

  /** "quit" is delivered in the last of the given iterations, and in none before. */
  predicate EndsWithQuit(ticks: seq<Tick>) {
    ticks != [] && QUIT in ticks[|ticks| - 1].work && NoQuit(ticks[..|ticks| - 1])
  }

  /**
    * The loop is left exactly when the four bytes "quit" have been delivered: they are in the work of the
    * last iteration and of no earlier one.
    */
  lemma {:induction false} LeavesOnlyOnQuit(memory: seq<Slot>, ticks: seq<Tick>)
    requires |memory| == MESSAGE_COUNT
    ensures IsWholeLoop(memory, ticks) <==> EndsWithQuit(ticks)
  {
    hide After;
    forall k | 0 < k <= |ticks|
      ensures GoesOn(memory, ticks, k) <==> NoQuit(ticks[..k])
    {
      RunsUntilQuit(memory, ticks[..k]);
    }
    if ticks != [] {
      var n := |ticks| - 1;
      assert ticks[..|ticks|] == ticks;
      assert NoQuit(ticks) <==> NoQuit(ticks[..n]) && QUIT !in ticks[n].work;
      if NoQuit(ticks[..n]) {
        forall k | 0 <= k <= n
          ensures NoQuit(ticks[..k])
        {
          assert forall j :: 0 <= j < k ==> ticks[..k][j] == ticks[..n][j];
        }
      }
    }
  }

  function Deliveries(events: seq<Event>): nat {
    if events == [] then 0 else Deliveries(events[..|events| - 1]) + if events[|events| - 1].Delivered? then 1 else 0
  }

  function AllDeliveries(ticks: seq<Tick>): nat {
    if ticks == [] then 0 else AllDeliveries(ticks[..|ticks| - 1]) + Deliveries(ticks[|ticks| - 1].work)
  }

  lemma {:induction false} DeliverCounts(s: State, events: seq<Event>)
    ensures Deliver(s, events).received == s.received + Deliveries(events)
  {
    if events != [] {
      DeliverCounts(s, events[..|events| - 1]);
    }
  }

  lemma {:induction false} HeadReceived(memory: seq<Slot>, ticks: seq<Tick>)
    requires |memory| == MESSAGE_COUNT
    ensures After(memory, ticks).received == AllDeliveries(ticks)
  {
    if ticks != [] {
      HeadReceived(memory, ticks[..|ticks| - 1]);
      DeliverCounts(Sent(After(memory, ticks[..|ticks| - 1]), ticks[|ticks| - 1]), ticks[|ticks| - 1].work);
    }
  }

  /** DoWork has run once an iteration, and three times more at the end. */
  lemma {:induction false} DoWorkCalls(memory: seq<Slot>, ticks: seq<Tick>, first: seq<Event>, second: seq<Event>,
                                       third: seq<Event>, destroy: seq<Event>, end: State)
    requires |memory| == MESSAGE_COUNT && Finishes(After(memory, ticks), first, second, third, destroy, end)
    ensures end.doWorks == |ticks| + 3
  {
    var s0 := After(memory, ticks);
    AfterShape(memory, ticks);
    DeliverFrame(s0, first);
    var s1 := DoWork(s0, first);
    DeliverFrame(s1, second);
    var s2 := DoWork(s1, second);
    DeliverFrame(s2, third);
    DeliverFrame(DoWork(s2, third), destroy);
  }
}
