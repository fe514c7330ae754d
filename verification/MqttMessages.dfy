/**
  * iotHub_mbtcp/src/iothub_client_NB301_mqtt.c: which messages are made, and what went on the wire before them, from
  * the answers of the environment alone.
  */
module MqttMessages {
  import opened MqttClient

  /** The iteration, the slot and the acceptance of a message. */
  datatype Outline = Outline(at: nat, slot: nat, accepted: bool)

  function Outlines(log: seq<Message>): (r: seq<Outline>)
    ensures |r| == |log|
    ensures forall h :: 0 <= h < |log| ==> r[h] == Outline(log[h].at, log[h].slot, log[h].accepted)
  {
    seq(|log|, h requires 0 <= h < |log| => Outline(log[h].at, log[h].slot, log[h].accepted))
  }

  /** The 32-bit loop counter in iteration k. */
  function CounterAt(k: nat): nat {
    k % 4_294_967_296
  }

  /** An iteration makes a message when its counter value is below 250 and the SDK can create one. */
  predicate Makes(k: nat, t: Tick) {
    CounterAt(k) < 250 && t.created
  }

  /** The messages due in the given iterations, in order. */
  function Due(ticks: seq<Tick>): seq<Outline> {
    if ticks == [] then []
    else
      var k, t := |ticks| - 1, ticks[|ticks| - 1];
      Due(ticks[..k]) + if Makes(k, t) then [Outline(k, CounterAt(k), t.accepted)] else []
  }

  lemma IterateMakes(s: State, t: Tick)
    requires |s.slots| == MESSAGE_COUNT && s.iter == s.doWorks % 4_294_967_296
    ensures Outlines(Iterate(s, t).log)
            == Outlines(s.log) + if Makes(s.doWorks, t) then [Outline(s.doWorks, s.iter, t.accepted)] else []
  {
    DeliverFrame(Sent(s, t), t.work);
  }

  /**
    * One message is made for each iteration whose counter value is below 250 and in which the SDK can create one, in
    * order; its slot is that counter value, and it is accepted if the SDK accepts it. No other message is ever made.
    */
  lemma {:induction false} MessagesAreThoseDue(memory: seq<Slot>, ticks: seq<Tick>)
    requires |memory| == MESSAGE_COUNT
    ensures Outlines(After(memory, ticks).log) == Due(ticks)
  {
    hide Iterate;
    if ticks != [] {
      var front := ticks[..|ticks| - 1];
      MessagesAreThoseDue(memory, front);
      AfterShape(memory, front);
      IterateMakes(After(memory, front), ticks[|ticks| - 1]);
    }
  }

  /** Every due message is that of an iteration that makes one, in that iteration's slot. */
  predicate IsDue(ticks: seq<Tick>, o: Outline) {
    && o.at < |ticks| && Makes(o.at, ticks[o.at]) && o.slot == CounterAt(o.at)
    && o.accepted == ticks[o.at].accepted
  }

  lemma {:induction false} DueAreMade(ticks: seq<Tick>)
    ensures forall h :: 0 <= h < |Due(ticks)| ==> IsDue(ticks, Due(ticks)[h])
    ensures forall g, h :: 0 <= g < h < |Due(ticks)| ==> Due(ticks)[g].at < Due(ticks)[h].at
  {
    hide CounterAt, Makes;
    if ticks != [] {
      var front := ticks[..|ticks| - 1];
      DueAreMade(front);
      forall h | 0 <= h < |Due(front)|
        ensures IsDue(ticks, Due(front)[h]) && Due(front)[h].at < |front|
      {
        assert IsDue(front, Due(front)[h]);
      }
    }
  }

  /** And every iteration that makes one has its message. */
  lemma {:induction false} MadeAreDue(ticks: seq<Tick>, k: nat)
    requires k < |ticks| && Makes(k, ticks[k])
    ensures Outline(k, CounterAt(k), ticks[k].accepted) in Due(ticks)
  {
    hide CounterAt, Makes;
    var n := |ticks| - 1;
    if k < n {
      assert ticks[..n][k] == ticks[k];
      MadeAreDue(ticks[..n], k);
    }
  }

  /** The last rounds and Destroy make no message. */
  lemma EndMakesNone(memory: seq<Slot>, ticks: seq<Tick>, first: seq<Event>, second: seq<Event>,
                     third: seq<Event>, destroy: seq<Event>)
    requires |memory| == MESSAGE_COUNT
    ensures Outlines(Finish(After(memory, ticks), first, second, third, destroy).log) == Due(ticks)
  {
    hide After, Deliver;
    var s := After(memory, ticks);
    MessagesAreThoseDue(memory, ticks);
    DeliverFrame(s, first);
    DeliverFrame(DoWork(s, first), second);
    DeliverFrame(DoWork(DoWork(s, first), second), third);
    DeliverFrame(DoWork(DoWork(DoWork(s, first), second), third), destroy);
  }
}
