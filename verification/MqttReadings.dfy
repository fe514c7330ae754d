/**
  * iotHub_mbtcp/src/iothub_client_NB301_mqtt.c: every telemetry message carries, for each polled register,
  * the last value a poll has brought.
  */
module MqttReadings {
  import opened Words
  import opened JsonLookup
  import opened Telemetry
  import opened MqttClient

  datatype Register = Pressure | Temperature | Freq

  function ReplyOf(t: Tick, reg: Register): Reply {
    match reg
    case Pressure => t.pressure
    case Temperature => t.temperature
    case Freq => t.freq
  }

  function ValueOf(r: Readings, reg: Register): uint16 {
    match reg
    case Pressure => r.oilPressure
    case Temperature => r.oilTemperature
    case Freq => r.outputFreq
  }

  /** Iteration k polls the registers: its counter value is a slot number. */
  predicate Polls(k: nat) {
    k % 4_294_967_296 < 250
  }

  /** The poll of reg in iteration k returned 0, and so called the update function with v. */
  predicate Brought(ticks: seq<Tick>, k: nat, reg: Register, v: uint16)
    requires k < |ticks|
  {
    Polls(k) && LookupReading(ReplyOf(ticks[k], reg)) == Some(v)
  }

  predicate BroughtNothing(ticks: seq<Tick>, k: nat, reg: Register)
    requires k < |ticks|
  {
    Polls(k) ==> LookupReading(ReplyOf(ticks[k], reg)).None?
  }

  /** v was brought by the latest successful poll before iteration n, or is the initial value if there was none. */
  predicate IsLatest(ticks: seq<Tick>, n: nat, reg: Register, v: uint16)
    requires n <= |ticks|
  {
    || (v == ValueOf(INITIAL_READINGS, reg) && forall k :: 0 <= k < n ==> BroughtNothing(ticks, k, reg))
    || (exists k :: 0 <= k < n && Brought(ticks, k, reg, v) && forall m :: k < m < n ==> BroughtNothing(ticks, m, reg))
  }

  /** All readings are the latest; the voltage is never polled. */
  predicate AllLatest(ticks: seq<Tick>, n: nat, r: Readings)
    requires n <= |ticks|
  {
    && (forall reg :: IsLatest(ticks, n, reg, ValueOf(r, reg)))
    && r.outputVoltage == INITIAL_READINGS.outputVoltage
  }

  lemma LatestPrefix(ticks: seq<Tick>, more: seq<Tick>, n: nat, reg: Register, v: uint16)
    requires n <= |ticks| && ticks <= more && IsLatest(ticks, n, reg, v)
    ensures IsLatest(more, n, reg, v)
  {
    assert forall k :: 0 <= k < n ==> ticks[k] == more[k];
    assert forall k :: 0 <= k < n ==> (BroughtNothing(ticks, k, reg) <==> BroughtNothing(more, k, reg));
    if k :| 0 <= k < n && Brought(ticks, k, reg, v) && forall m :: k < m < n ==> BroughtNothing(ticks, m, reg) {
      assert Brought(more, k, reg, v);
    }
  }

  lemma LatestStep(ticks: seq<Tick>, n: nat, reg: Register, v: uint16, v': uint16)
    requires n < |ticks| && IsLatest(ticks, n, reg, v)
    requires v' == if Polls(n) && LookupReading(ReplyOf(ticks[n], reg)).Some?
                   then LookupReading(ReplyOf(ticks[n], reg)).value else v
    ensures IsLatest(ticks, n + 1, reg, v')
  {
    hide LookupReading;
    if Polls(n) && LookupReading(ReplyOf(ticks[n], reg)).Some? {
      assert Brought(ticks, n, reg, v');
    } else {
      assert BroughtNothing(ticks, n, reg);
      if k :| 0 <= k < n && Brought(ticks, k, reg, v) && forall m :: k < m < n ==> BroughtNothing(ticks, m, reg) {
        assert forall m :: k < m < n + 1 ==> BroughtNothing(ticks, m, reg);
      }
    }
  }

  lemma AllLatestPrefix(ticks: seq<Tick>, more: seq<Tick>, n: nat, r: Readings)
    requires n <= |ticks| && ticks <= more && AllLatest(ticks, n, r)
    ensures AllLatest(more, n, r)
  {
    forall reg
      ensures IsLatest(more, n, reg, ValueOf(r, reg))
    {
      LatestPrefix(ticks, more, n, reg, ValueOf(r, reg));
    }
  }

  lemma PollStep(ticks: seq<Tick>, n: nat, s: State)
    requires n < |ticks| && AllLatest(ticks, n, s.readings)
    ensures AllLatest(ticks, n + 1, if Polls(n) then PollAll(s, ticks[n]).readings else s.readings)
  {
    hide LookupReading, IsLatest;
    var r := if Polls(n) then PollAll(s, ticks[n]).readings else s.readings;
    forall reg
      ensures IsLatest(ticks, n + 1, reg, ValueOf(r, reg))
    {
      LatestStep(ticks, n, reg, ValueOf(s.readings, reg), ValueOf(r, reg));
    }
  }

  /** The text is made from readings that were the latest when it was made, its own iteration's polls included. */
  ghost predicate CarriesLatest(ticks: seq<Tick>, m: Message) {
    m.at < |ticks| && exists r :: AllLatest(ticks, m.at + 1, r) && m.text == TextOf(r)
  }

  ghost predicate LogCarriesLatest(ticks: seq<Tick>, s: State) {
    forall h :: 0 <= h < |s.log| ==> CarriesLatest(ticks, s.log[h])
  }

  lemma CarriesPrefix(ticks: seq<Tick>, more: seq<Tick>, m: Message)
    requires ticks <= more && CarriesLatest(ticks, m)
    ensures CarriesLatest(more, m)
  {
    var r :| AllLatest(ticks, m.at + 1, r) && m.text == TextOf(r);
    AllLatestPrefix(ticks, more, m.at + 1, r);
  }

  lemma IterateCarries(ticks: seq<Tick>, s: State)
    requires ticks != [] && |s.slots| == MESSAGE_COUNT
    requires s.doWorks == |ticks| - 1 && s.iter == s.doWorks % ITERATOR_VALUES
    requires AllLatest(ticks, |ticks| - 1, s.readings) && LogCarriesLatest(ticks, s)
    ensures var s' := Iterate(s, ticks[|ticks| - 1]);
            AllLatest(ticks, |ticks|, s'.readings) && LogCarriesLatest(ticks, s')
  {
    hide AllLatest, TextOf, LookupReading;
    var t := ticks[|ticks| - 1];
    PollStep(ticks, |ticks| - 1, s);
    DeliverFrame(Sent(s, t), t.work);
    var s' := Iterate(s, t);
    forall h | 0 <= h < |s'.log|
      ensures CarriesLatest(ticks, s'.log[h])
    {
      if h < |s.log| {
        assert s'.log[h] == s.log[h];
      } else {
        assert AllLatest(ticks, s'.log[h].at + 1, PollAll(s, t).readings);
      }
    }
  }

  /**
    * Last good value: after any number of iterations every message ever made carries, for each of the three
    * registers, the value of the latest poll up to its own iteration that returned 0, or the initial constant.
    */
  lemma {:induction false} LastGoodValues(memory: seq<Slot>, ticks: seq<Tick>)
    requires |memory| == MESSAGE_COUNT
    ensures AllLatest(ticks, |ticks|, After(memory, ticks).readings)
    ensures LogCarriesLatest(ticks, After(memory, ticks))
  {
    hide Iterate, AllLatest, CarriesLatest;
    if ticks == [] {
      NothingPolled(memory);
    } else {
      var front := ticks[..|ticks| - 1];
      LastGoodValues(memory, front);
      AfterShape(memory, front);
      var s := After(memory, front);
      AllLatestPrefix(front, ticks, |front|, s.readings);
      forall h | 0 <= h < |s.log|
        ensures CarriesLatest(ticks, s.log[h])
      {
        CarriesPrefix(front, ticks, s.log[h]);
      }
      IterateCarries(ticks, s);
    }
  }

  /** The initial values, by register. */
  lemma InitialValues(memory: seq<Slot>)
    ensures var r := Start(memory).readings;
            && ValueOf(r, Pressure) == 11 && ValueOf(r, Temperature) == 11 && ValueOf(r, Freq) == 50
            && r.outputVoltage == 99
  {
  }

  lemma NothingPolled(memory: seq<Slot>)
    ensures AllLatest([], 0, Start(memory).readings)
  {
  }

  /** Three exchanges for each iteration that sends, none for any other: registers 1, 2 and 3 in turn. */
  function Exchanges(n: nat): seq<nat> {
    if n == 0 then [] else Exchanges(n - 1) + if Polls(n - 1) then [1, 2, 3] else []
  }

  lemma {:induction false} ExchangesMade(memory: seq<Slot>, ticks: seq<Tick>)
    requires |memory| == MESSAGE_COUNT
    ensures After(memory, ticks).requests == Exchanges(|ticks|)
  {
    if ticks != [] {
      var front, t := ticks[..|ticks| - 1], ticks[|ticks| - 1];
      ExchangesMade(memory, front);
      AfterShape(memory, front);
      IterateRequests(After(memory, front), t);
    }
  }

  lemma IterateRequests(s: State, t: Tick)
    requires |s.slots| == MESSAGE_COUNT
    ensures Iterate(s, t).requests == s.requests + if s.iter < MESSAGE_COUNT then [1, 2, 3] else []
  {
    DeliverFrame(Sent(s, t), t.work);
  }
}
