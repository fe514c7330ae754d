/**
  * iotHub_mbtcp/src/iothub_client_NB301_mqtt.c: the client loop over its own variables and buffers, step for
  * step the state machine of MqttClient.
  */
module MqttLoop {
  import opened Words
  import opened JsonTree
  import opened JsonReader
  import opened JsonLookup
  import opened JsonHeap
  import opened RequestTrees
  import opened GatewayRequest
  import opened CStrings
  import opened Telemetry
  import opened MqttClient

  /** How far the calls before the loop get. */
  datatype Setup = PlatformFails | ClientFails | CallbackFails | Ready

  /** The documents of requests for the given registers. */
  function Documents(ids: seq<string>, registers: seq<nat>, ip: string, port: int): seq<Json>
    requires |ids| == |registers|
  {
    if ids == [] then []
    else
      var n := |ids| - 1;
      Documents(ids[..n], registers[..n], ip, port) + [CRequest(ids[n], registers[n], ip, port)]
  }

  class Client {
    // The static variables and the locals of iothub_client_sample_mqtt_run.
    var oilPressure: uint16
    var altOutputFreq: uint16
    var altOutputVoltage: uint16
    var oilTemperature: uint16
    var continueRunning: bool
    var callbackCounter: nat
    var receiveContext: nat
    var iter: nat
    const messages: array<Slot>
    const msgText: array<char>

    // The JSON library and the socket.
    const arena: Arena
    const gateway: Gateway

    // What the SDK holds and has been asked to do.
    var pending: multiset<nat>
    var log: seq<Message>
    var destroyed: seq<nat>
    var doWorks: nat
    ghost var requests: seq<nat>
    ghost var ids: seq<string>

    /** What went out on the socket is one document for each register asked for, in order. */
    ghost predicate Valid()
      reads this, arena, gateway
    {
      && messages.Length == MESSAGE_COUNT && msgText.Length == TEXT_SIZE && arena.Valid()
      && |ids| == |requests|
      && gateway.requests == Documents(ids, requests, gateway.targetIp, gateway.targetPort)
    }

    ghost function View(): State
      reads this, messages
    {
      State(Readings(oilPressure, oilTemperature, altOutputFreq, altOutputVoltage), continueRunning,
            callbackCounter, receiveContext, iter, messages[..], pending, log, destroyed, doWorks, requests)
    }

    /** The program as it starts; the array on the stack holds whatever was there. */
    constructor (memory: seq<Slot>, ip: string, port: int)
      requires |memory| == MESSAGE_COUNT
      ensures Valid() && fresh(arena) && fresh(gateway) && fresh(messages) && fresh(msgText)
      ensures View() == Start(memory) && gateway.targetIp == ip && gateway.targetPort == port
    {
      oilPressure, altOutputFreq, altOutputVoltage, oilTemperature := 11, 50, 99, 11;
      continueRunning, callbackCounter, receiveContext, iter := true, 0, 0, 0;
      messages := new Slot[MESSAGE_COUNT](i requires 0 <= i < |memory| => memory[i]);
      msgText := new char[TEXT_SIZE](_ => NUL);
      pending, log, destroyed, doWorks, requests, ids := multiset{}, [], [], 0, [], [];
      arena := new Arena();
      gateway := new Gateway(ip, port);
      new;
      assert messages[..] == memory;
    }

    // ----- Polling -----

    method UpdateOilPressure(newPressure: uint16)
      modifies this`oilPressure
      ensures oilPressure == newPressure
    {
      oilPressure := newPressure;
    }

    method UpdateOilTemperature(newTemperature: uint16)
      modifies this`oilTemperature
      ensures oilTemperature == newTemperature
    {
      oilTemperature := newTemperature;
    }

    method UpdateAltOutputFreq(newAltOutputFreq: uint16)
      modifies this`altOutputFreq
      ensures altOutputFreq == newAltOutputFreq
    {
      altOutputFreq := newAltOutputFreq;
    }

    /** get_u16_register with one of the update functions: what that function is called with. */
    method Exchange(reg: nat, reply: Reply) returns (calls: seq<uint16>)
      requires Valid()
      modifies this`requests, this`ids, arena, gateway`requests, gateway`replies
      ensures Valid() && requests == old(requests) + [reg] && calls == LookupCalls(reply)
    {
      hide CRequest, LookupReading, LookupCalls;
      var newId: string := *;
      var cbf := new Callback();
      var _, _, _ := gateway.GetU16Register(arena, reg, cbf, newId, reply);
      calls := cbf.calls;
      requests, ids := requests + [reg], ids + [newId];
      assert requests[..|requests| - 1] == old(requests) && ids[..|ids| - 1] == old(ids);
    }

    method PollOilPressure(reply: Reply)
      requires Valid()
      modifies this`requests, this`ids, this`oilPressure, arena, gateway`requests, gateway`replies
      ensures Valid() && requests == old(requests) + [1] && oilPressure == AfterPoll(reply, old(oilPressure))
    {
      hide Documents, LookupReading;
      var calls := Exchange(1, reply);
      if calls != [] {
        UpdateOilPressure(calls[0]);
      }
    }

    method PollOilTemperature(reply: Reply)
      requires Valid()
      modifies this`requests, this`ids, this`oilTemperature, arena, gateway`requests, gateway`replies
      ensures Valid() && requests == old(requests) + [2] && oilTemperature == AfterPoll(reply, old(oilTemperature))
    {
      hide Documents, LookupReading;
      var calls := Exchange(2, reply);
      if calls != [] {
        UpdateOilTemperature(calls[0]);
      }
    }

    method PollAltOutputFreq(reply: Reply)
      requires Valid()
      modifies this`requests, this`ids, this`altOutputFreq, arena, gateway`requests, gateway`replies
      ensures Valid() && requests == old(requests) + [3] && altOutputFreq == AfterPoll(reply, old(altOutputFreq))
    {
      hide Documents, LookupReading;
      var calls := Exchange(3, reply);
      if calls != [] {
        UpdateAltOutputFreq(calls[0]);
      }
    }

    /** The three polls before a message. */
    method Poll(t: Tick)
      requires Valid()
      modifies this`requests, this`ids, this`oilPressure, this`oilTemperature, this`altOutputFreq
      modifies arena, gateway`requests, gateway`replies
      ensures Valid() && View() == PollAll(old(View()), t)
    {
      hide LookupReading, Documents;
      ghost var before := requests;
      PollOilPressure(t.pressure);
      PollOilTemperature(t.temperature);
      PollAltOutputFreq(t.freq);
      assert requests == before + [1] + [2] + [3] == before + [1, 2, 3];
    }

    // ----- Sending -----

    /** sprintf_s into msgText, and the characters up to its NUL. */
    method PrintedText() returns (text: string)
      requires Valid()
      modifies msgText
      ensures text == TextOf(View().readings)
    {
      hide Documents, TextOf, Holds;
      ghost var r := View().readings;
      PrintText(msgText, Readings(oilPressure, oilTemperature, altOutputFreq, altOutputVoltage));
      var size := StrLen(msgText, TextOf(r));
      HeldText(msgText[..], TextOf(r));
      text := msgText[..size];
    }

    /** The text printed into msgText becomes a message in the slot of the counter. */
    method SendMessage(t: Tick)
      requires Valid() && iter < MESSAGE_COUNT
      modifies this`log, this`pending, messages, msgText
      ensures Valid() && View() == Send(old(View()), t)
    {
      hide Documents, TextOf;
      var text := PrintedText();
      if !t.created {
        messages[iter] := Slot(None, messages[iter].trackingId);
      } else {
        messages[iter] := Slot(Some(|log|), messages[iter].trackingId);
        messages[iter] := Slot(messages[iter].handle, iter);
        log := log + [Message(iter, doWorks, text, t.accepted)];
        if t.accepted {
          pending := pending + multiset{iter};
        }
      }
    }

    // ----- Callbacks -----

    method SendConfirmationCallback(slot: nat)
      requires slot < messages.Length
      modifies this`callbackCounter, this`destroyed
      ensures callbackCounter == old(callbackCounter) + 1
      ensures destroyed == old(destroyed) + match messages[slot].handle { case Some(h) => [h] case None => [] }
    {
      callbackCounter := callbackCounter + 1;
      if messages[slot].handle.Some? {
        destroyed := destroyed + [messages[slot].handle.value];
      }
    }

    /** Four bytes that spell quit end the loop; every message is counted. */
    method ReceiveMessageCallback(data: Option<string>)
      modifies this`continueRunning, this`receiveContext
      ensures continueRunning <==> old(continueRunning) && data != Some("quit")
      ensures receiveContext == old(receiveContext) + 1
    {
      if data.Some? {
        var size := |data.value|;
        if size == 4 && data.value[..size] == "quit" {
          assert data.value[..size] == data.value;
          continueRunning := false;
        }
      }
      receiveContext := receiveContext + 1;
    }

    /** The SDK confirms a message it holds, or delivers one, through the callback registered for it. */
    method Dispatch(e: Event)
      requires Valid()
      modifies this`pending, this`callbackCounter, this`destroyed, this`continueRunning, this`receiveContext
      ensures Valid() && View() == OnEvent(old(View()), e)
    {
      hide Documents;
      match e {
        case Confirmed(slot) =>
          if slot in pending && slot < messages.Length {
            pending := pending - multiset{slot};
            SendConfirmationCallback(slot);
          }
        case Delivered(data) =>
          ReceiveMessageCallback(data);
      }
    }

    method DispatchAll(events: seq<Event>)
      requires Valid()
      modifies this`pending, this`callbackCounter, this`destroyed, this`continueRunning, this`receiveContext
      ensures Valid() && View() == Deliver(old(View()), events)
    {
      hide OnEvent, Documents;
      ghost var s := View();
      var i := 0;
      while i < |events|
        invariant i <= |events| && View() == Deliver(s, events[..i])
      {
        Dispatch(events[i]);
        assert events[..i + 1][..i] == events[..i] && events[..i + 1][i] == events[i];
        i := i + 1;
      }
      assert events[..i] == events;
    }

    method RunDoWork(events: seq<Event>)
      requires Valid()
      modifies this`pending, this`callbackCounter, this`destroyed, this`continueRunning, this`receiveContext
      modifies this`doWorks
      ensures Valid() && View() == DoWork(old(View()), events)
    {
      DispatchAll(events);
      doWorks := doWorks + 1;
    }

    // ----- The loop -----

    method RunIteration(t: Tick)
      requires Valid()
      modifies this, messages, msgText, arena, gateway`requests, gateway`replies
      ensures Valid() && View() == Iterate(old(View()), t)
    {
      hide Documents, PollAll, Send, Deliver;
      if iter < MESSAGE_COUNT {
        Poll(t);
        SendMessage(t);
      }
      RunDoWork(t.work);
      iter := (iter + 1) % ITERATOR_VALUES;
    }

    /**
      * iothub_client_sample_mqtt_run: the do-while loop, three more rounds of DoWork and Destroy, if the calls before
      * the loop succeed; if the client was made and only its callback cannot be set, Destroy alone, with nothing to
      * confirm. ticks is what the environment answers up to the iteration in which it first delivers "quit".
      */
    method Run(setup: Setup, ghost memory: seq<Slot>, ticks: seq<Tick>,
               first: seq<Event>, second: seq<Event>, third: seq<Event>, destroy: seq<Event>)
      requires Valid() && |memory| == MESSAGE_COUNT && View() == Start(memory)
      requires setup.Ready? ==> EndsWithQuit(ticks)
      modifies this, messages, msgText, arena, gateway`requests, gateway`replies
      ensures Valid()
      ensures View() == if setup.Ready? then Finish(After(memory, ticks), first, second, third, destroy)
                        else Start(memory)
    {
      if setup.Ready? {
        RunLoop(memory, ticks);
        RunDoWork(first);
        RunDoWork(second);
        RunDoWork(third);
        DispatchAll(destroy);
      } else if setup.CallbackFails? {
        DispatchAll([]);
      }
    }

    method RunLoop(ghost memory: seq<Slot>, ticks: seq<Tick>)
      requires Valid() && |memory| == MESSAGE_COUNT && View() == Start(memory) && EndsWithQuit(ticks)
      modifies this, messages, msgText, arena, gateway`requests, gateway`replies
      ensures Valid() && View() == After(memory, ticks)
    {
      hide Iterate, Deliver, EndsWithQuit, Documents;
      LeavesOnlyOnQuit(memory, ticks);
      var k := 0;
      var again := true;
      assert ticks[..0] == [];
      while again
        invariant Valid() && k <= |ticks| && View() == After(memory, ticks[..k])
        invariant if again then k < |ticks| else k == |ticks|
        decreases |ticks| - k, again
      {
        RunIteration(ticks[k]);
        assert ticks[..k + 1][..k] == ticks[..k] && ticks[..k + 1][k] == ticks[k];
        k := k + 1;
        again := continueRunning;
        assert again <==> GoesOn(memory, ticks, k);
      }
      assert ticks[..k] == ticks;
    }
  }
}
