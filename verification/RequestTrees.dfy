/** The two request documents as trees: what the builders are meant to leave on the heap. */
module RequestTrees {
  import opened Words
  import opened JsonTree
  import opened JsonWalk
  import opened JsonReader
  import opened JsonLookup

  /** strncmp("write", command, 5) == 0. */
  predicate IsWrite(command: string) {
    "write" <= command
  }

  function CppAddress(function_: string, slaveId: int, reg: int, ip: string, port: int): Json {
    Object([Entry("function", Str(function_)), Entry("slave_id", Int(slaveId)), Entry("register", Int(reg)),
            Entry("ip_address", Str(ip)), Entry("ip_port", Int(port))])
  }

  function CppValue(command: string, typ: string, val: uint16): Json {
    Object([Entry("value_type", Str(typ))] + if IsWrite(command) then [Entry("value_data", Int(val))] else [])
  }

  function CppCommand(command: string, address: Json, value: Json): Json {
    Object([Entry("command", Str(command)), Entry("address", address), Entry("value", value)])
  }

  function Message(id: string, element: Json): Json {
    Object([Entry("id", Str(id)),
            Entry("payload", Object([Entry("payload_type", Str("request")), Entry("payload_data", Array([element]))]))])
  }

  /** The request of json_example/src/mb_data_message.cpp. */
  function CppRequest(id: string, command: string, typ: string, function_: string, slaveId: int,
                      reg: int, ip: string, port: int, val: uint16): Json
  {
    Message(id, CppCommand(command, CppAddress(function_, slaveId, reg, ip, port), CppValue(command, typ, val)))
  }

  function CAddress(reg: int, ip: string, port: int): Json {
    Object([Entry("function", Str("Holding")), Entry("port", Int(port)), Entry("slave_id", Int(1)),
            Entry("register", Int(reg)), Entry("ip_address", Str(ip))])
  }

  /** The request of iotHub_mbtcp/src/nb_zmq_mbtcp.c. */
  function CRequest(id: string, reg: int, ip: string, port: int): Json {
    Message(id, Object([Entry("command", Str("read")), Entry("address", CAddress(reg, ip, port)),
                        Entry("value", Object([Entry("value_type", Str("U16"))]))]))
  }

  // ----- What stands where -----

  /** The one command of a message. */
  function ElementOf(doc: Json): Json {
    match Nested(doc, "payload", "payload_data")
    case Some(Array(items)) => if |items| == 1 then items[0] else Null
    case _ => Null
  }

  /** The request in doc: each argument under its name. ipPort is the name of the port. */
  predicate Carries(doc: Json, id: string, command: string, typ: string, function_: string, slaveId: int,
                    reg: int, ip: string, port: int, ipPort: string)
  {
    var e := ElementOf(doc);
    && Get(doc, "id") == Some(Str(id)) && Nested(doc, "payload", "payload_type") == Some(Str("request"))
    && Get(e, "command") == Some(Str(command))
    && Nested(e, "address", "function") == Some(Str(function_))
    && Nested(e, "address", "slave_id") == Some(Int(slaveId))
    && Nested(e, "address", "register") == Some(Int(reg))
    && Nested(e, "address", "ip_address") == Some(Str(ip))
    && Nested(e, "address", ipPort) == Some(Int(port))
    && Nested(e, "value", "value_type") == Some(Str(typ))
  }

  lemma MessageFields(id: string, element: Json)
    ensures var doc := Message(id, element);
            && Get(doc, "id") == Some(Str(id)) && Nested(doc, "payload", "payload_type") == Some(Str("request"))
            && ElementOf(doc) == element
  {
    var doc := Message(id, element);
    GetUnique(doc.entries, 0);
    GetUnique(doc.entries, 1);
    var payload := doc.entries[1].val;
    GetUnique(payload.entries, 0);
    GetUnique(payload.entries, 1);
  }

  lemma CppAddressFields(function_: string, slaveId: int, reg: int, ip: string, port: int)
    ensures var a := CppAddress(function_, slaveId, reg, ip, port);
            && Get(a, "function") == Some(Str(function_)) && Get(a, "slave_id") == Some(Int(slaveId))
            && Get(a, "register") == Some(Int(reg)) && Get(a, "ip_address") == Some(Str(ip))
            && Get(a, "ip_port") == Some(Int(port))
  {
    var e := CppAddress(function_, slaveId, reg, ip, port).entries;
    AddressNames();
    GetUnique(e, 0);
    GetUnique(e, 1);
    GetUnique(e, 2);
    GetUnique(e, 3);
    GetUnique(e, 4);
  }

  lemma CAddressFields(reg: int, ip: string, port: int)
    ensures var a := CAddress(reg, ip, port);
            && Get(a, "function") == Some(Str("Holding")) && Get(a, "slave_id") == Some(Int(1))
            && Get(a, "register") == Some(Int(reg)) && Get(a, "ip_address") == Some(Str(ip))
            && Get(a, "port") == Some(Int(port))
  {
    var e := CAddress(reg, ip, port).entries;
    AddressNames();
    GetUnique(e, 0);
    GetUnique(e, 1);
    GetUnique(e, 2);
    GetUnique(e, 3);
    GetUnique(e, 4);
  }

  lemma AddressNames()
    ensures "function" != "slave_id" && "function" != "register" && "slave_id" != "register"
  {
    assert "function"[0] != "slave_id"[0] && "function"[0] != "register"[0] && "slave_id"[0] != "register"[0];
  }

  lemma CppCommandFields(command: string, address: Json, value: Json)
    ensures var e := CppCommand(command, address, value);
            && Get(e, "command") == Some(Str(command)) && Get(e, "address") == Some(address)
            && Get(e, "value") == Some(value)
  {
    var e := CppCommand(command, address, value).entries;
    assert "command"[0] != "address"[0];
    GetUnique(e, 0);
    GetUnique(e, 1);
    GetUnique(e, 2);
  }

  lemma CppValueFields(command: string, typ: string, val: uint16)
    ensures var v := CppValue(command, typ, val);
            && Get(v, "value_type") == Some(Str(typ))
            && Get(v, "value_data") == if |command| >= 5 && command[..5] == "write" then Some(Int(val)) else None
  {
    var e := CppValue(command, typ, val).entries;
    assert IsWrite(command) <==> |command| >= 5 && command[..5] == "write";
    assert "value_type"[6] != "value_data"[6];
    GetUnique(e, 0);
    if IsWrite(command) {
      GetUnique(e, 1);
    }
  }

  /** The C++ request carries every argument under its name, and the value exactly if the command starts with write. */
  lemma CppRequestCarries(id: string, command: string, typ: string, function_: string, slaveId: int,
                          reg: int, ip: string, port: int, val: uint16)
    ensures var doc := CppRequest(id, command, typ, function_, slaveId, reg, ip, port, val);
            && Carries(doc, id, command, typ, function_, slaveId, reg, ip, port, "ip_port")
            && Nested(ElementOf(doc), "value", "value_data")
               == if |command| >= 5 && command[..5] == "write" then Some(Int(val)) else None
  {
    hide Get, Message, ElementOf, CppCommand, CppAddress, CppValue;
    var address, value := CppAddress(function_, slaveId, reg, ip, port), CppValue(command, typ, val);
    MessageFields(id, CppCommand(command, address, value));
    CppCommandFields(command, address, value);
    CppAddressFields(function_, slaveId, reg, ip, port);
    CppValueFields(command, typ, val);
  }

  /** The C request is always a U16 Holding read from unit 1; it carries the rest, and no value. */
  lemma CRequestCarries(id: string, reg: int, ip: string, port: int)
    ensures var doc := CRequest(id, reg, ip, port);
            && Carries(doc, id, "read", "U16", "Holding", 1, reg, ip, port, "port")
            && Nested(ElementOf(doc), "value", "value_data").None?
  {
    hide Get, Message, ElementOf, CAddress;
    var value := Object([Entry("value_type", Str("U16"))]);
    var address := CAddress(reg, ip, port);
    MessageFields(id, Object([Entry("command", Str("read")), Entry("address", address), Entry("value", value)]));
    CppCommandFields("read", address, value);
    CAddressFields(reg, ip, port);
    ValueTypeOnly();
  }

  lemma ValueTypeOnly()
    ensures var value := Object([Entry("value_type", Str("U16"))]);
            Get(value, "value_type") == Some(Str("U16")) && Get(value, "value_data").None?
  {
    assert "value_type"[6] != "value_data"[6];
  }

  /** The keys of an object, in order. */
  function Names(t: Json): seq<string> {
    if t.Object? then seq(|t.entries|, i requires 0 <= i < |t.entries| => t.entries[i].key) else []
  }

  predicate HasNames(t: Option<Json>, names: seq<string>) {
    t.Some? && t.value.Object? && Names(t.value) == names
  }

  /** And there is nothing else in it. */
  lemma CppRequestNames(id: string, command: string, typ: string, function_: string, slaveId: int,
                        reg: int, ip: string, port: int, val: uint16)
    ensures var doc := CppRequest(id, command, typ, function_, slaveId, reg, ip, port, val);
            var e := ElementOf(doc);
            && HasNames(Some(doc), ["id", "payload"]) && HasNames(Get(doc, "payload"), ["payload_type", "payload_data"])
            && HasNames(Some(e), ["command", "address", "value"])
            && HasNames(Get(e, "address"), ["function", "slave_id", "register", "ip_address", "ip_port"])
            && HasNames(Get(e, "value"), ["value_type"] + if IsWrite(command) then ["value_data"] else [])
  {
    var address, value := CppAddress(function_, slaveId, reg, ip, port), CppValue(command, typ, val);
    var element := CppCommand(command, address, value);
    MessageFields(id, element);
    CppCommandFields(command, address, value);
    var doc := Message(id, element);
    GetUnique(doc.entries, 1);
  }

  lemma CRequestNames(id: string, reg: int, ip: string, port: int)
    ensures var doc := CRequest(id, reg, ip, port);
            var e := ElementOf(doc);
            && HasNames(Some(doc), ["id", "payload"]) && HasNames(Get(doc, "payload"), ["payload_type", "payload_data"])
            && HasNames(Some(e), ["command", "address", "value"])
            && HasNames(Get(e, "address"), ["function", "port", "slave_id", "register", "ip_address"])
            && HasNames(Get(e, "value"), ["value_type"])
  {
    var address, value := CAddress(reg, ip, port), Object([Entry("value_type", Str("U16"))]);
    var element := CppCommand("read", address, value);
    MessageFields(id, element);
    CppCommandFields("read", address, value);
    var doc := Message(id, element);
    GetUnique(doc.entries, 1);
  }

  /** Two C++ requests are the same document only if all their arguments are the same; so is the value of a write. */
  lemma CppRequestInjective(id: string, command: string, typ: string, function_: string, slaveId: int,
                            reg: int, ip: string, port: int, val: uint16,
                            id': string, command': string, typ': string, function_': string, slaveId': int,
                            reg': int, ip': string, port': int, val': uint16)
    requires CppRequest(id, command, typ, function_, slaveId, reg, ip, port, val)
             == CppRequest(id', command', typ', function_', slaveId', reg', ip', port', val')
    ensures id == id' && command == command' && typ == typ' && function_ == function_' && slaveId == slaveId'
    ensures reg == reg' && ip == ip' && port == port'
    ensures |command| >= 5 && command[..5] == "write" ==> val == val'
  {
    hide CppRequest, ElementOf, Nested, Get;
    CppRequestCarries(id, command, typ, function_, slaveId, reg, ip, port, val);
    CppRequestCarries(id', command', typ', function_', slaveId', reg', ip', port', val');
  }

  // ----- The two documents say the same -----

  /** What a tree means as JSON: the order of an object's entries does not count. */
  datatype Meaning = Fields(fields: map<string, Meaning>) | Elements(elements: seq<Meaning>) | Atom(atom: Json)

  function MeaningOf(t: Json): Meaning {
    match t
    case Object(entries) => Fields(FieldsOf(entries))
    case Array(items) => Elements(seq(|items|, i requires 0 <= i < |items| => MeaningOf(items[i])))
    case _ => Atom(t)
  }

  function FieldsOf(entries: seq<Entry>): map<string, Meaning> {
    if entries == [] then map[]
    else FieldsOf(entries[1..]) + map[entries[0].key := MeaningOf(entries[0].val)]
  }

  /** The address with its port under another name, the way the C builder spells it. */
  function RenamePort(address: Json): Json {
    if address.Object? then
      Object(seq(|address.entries|, i requires 0 <= i < |address.entries| =>
        if address.entries[i].key == "ip_port" then Entry("port", address.entries[i].val) else address.entries[i]))
    else address
  }

  lemma FieldsOfCons(e: Entry, rest: seq<Entry>)
    ensures FieldsOf([e] + rest) == FieldsOf(rest) + map[e.key := MeaningOf(e.val)]
  {
    assert ([e] + rest)[1..] == rest;
  }

  lemma Overrides<T>(f: map<string, T>, j: string, u: T, k: string, v: T)
    requires j != k
    ensures f + map[j := u] + map[k := v] == f + map[k := v] + map[j := u]
  {
  }

  /** An entry may move past others that have different keys. */
  lemma {:induction false} MovedEntry(mid: seq<Entry>, e: Entry)
    requires forall i :: 0 <= i < |mid| ==> mid[i].key != e.key
    ensures FieldsOf(mid + [e]) == FieldsOf([e] + mid)
  {
    if mid == [] {
      assert mid + [e] == [e] + mid;
    } else {
      var m, rest := mid[0], mid[1..];
      MovedEntry(rest, e);
      assert mid + [e] == [m] + (rest + [e]) && mid == [m] + rest;
      FieldsOfCons(m, rest + [e]);
      FieldsOfCons(e, mid);
      FieldsOfCons(m, rest);
      FieldsOfCons(e, rest);
      Overrides(FieldsOf(rest), e.key, MeaningOf(e.val), m.key, MeaningOf(m.val));
    }
  }

  lemma AddressMeaning(reg: int, ip: string, port: int)
    ensures MeaningOf(RenamePort(CppAddress("Holding", 1, reg, ip, port))) == MeaningOf(CAddress(reg, ip, port))
  {
    var e := RenamePort(CppAddress("Holding", 1, reg, ip, port)).entries;
    var mid := [e[1], e[2], e[3]];
    MovedEntry(mid, e[4]);
    FieldsOfCons(e[0], mid + [e[4]]);
    FieldsOfCons(e[0], [e[4]] + mid);
    assert e == [e[0]] + (mid + [e[4]]);
    assert CAddress(reg, ip, port).entries == [e[0]] + ([e[4]] + mid);
  }

  lemma CommandMeaning(command: string, address: Json, address': Json, value: Json)
    requires MeaningOf(address) == MeaningOf(address')
    ensures MeaningOf(CppCommand(command, address, value)) == MeaningOf(CppCommand(command, address', value))
  {
    var c, v := Entry("command", Str(command)), Entry("value", value);
    var a, a' := Entry("address", address), Entry("address", address');
    assert [c, a, v] == [c] + ([a] + [v]) && [c, a', v] == [c] + ([a'] + [v]);
    FieldsOfCons(c, [a] + [v]);
    FieldsOfCons(c, [a'] + [v]);
    FieldsOfCons(a, [v]);
    FieldsOfCons(a', [v]);
  }

  lemma MessageMeaning(id: string, element: Json, element': Json)
    requires MeaningOf(element) == MeaningOf(element')
    ensures MeaningOf(Message(id, element)) == MeaningOf(Message(id, element'))
  {
    var i, t := Entry("id", Str(id)), Entry("payload_type", Str("request"));
    var d, d' := Entry("payload_data", Array([element])), Entry("payload_data", Array([element']));
    var p, p' := Entry("payload", Object([t, d])), Entry("payload", Object([t, d']));
    assert MeaningOf(d.val) == MeaningOf(d'.val);
    assert [t, d] == [t] + [d] && [t, d'] == [t] + [d'] && [d] == [d] + [] && [d'] == [d'] + [];
    FieldsOfCons(t, [d]);
    FieldsOfCons(t, [d']);
    FieldsOfCons(d, []);
    FieldsOfCons(d', []);
    assert MeaningOf(p.val) == MeaningOf(p'.val);
    assert [i, p] == [i] + [p] && [i, p'] == [i] + [p'] && [p] == [p] + [] && [p'] == [p'] + [];
    FieldsOfCons(i, [p]);
    FieldsOfCons(i, [p']);
    FieldsOfCons(p, []);
    FieldsOfCons(p', []);
  }

  /**
    * A 16-bit read of a holding register from unit 1 means the same in both programs once ip_port is
    * spelled port, although their entries come in different orders.
    */
  lemma BuildersAgree(id: string, reg: int, ip: string, port: int)
    ensures var address, value := CppAddress("Holding", 1, reg, ip, port), CppValue("read", "U16", 0);
            && CppRequest(id, "read", "U16", "Holding", 1, reg, ip, port, 0)
               == Message(id, CppCommand("read", address, value))
            && MeaningOf(Message(id, CppCommand("read", RenamePort(address), value)))
               == MeaningOf(CRequest(id, reg, ip, port))
  {
    var address, value := CppAddress("Holding", 1, reg, ip, port), CppValue("read", "U16", 0);
    assert value == Object([Entry("value_type", Str("U16"))]);
    AddressMeaning(reg, ip, port);
    CommandMeaning("read", RenamePort(address), CAddress(reg, ip, port), value);
    MessageMeaning(id, CppCommand("read", RenamePort(address), value),
                   CppCommand("read", CAddress(reg, ip, port), value));
  }

  // ----- What the readers make of a request -----

  lemma AddressWalk(function_: string, slaveId: int, reg: int, ip: string, port: int)
    ensures Walk(CppAddress(function_, slaveId, reg, ip, port)) == []
  {
    var t := CppAddress(function_, slaveId, reg, ip, port);
    SpanStep(t, 4);
    SpanStep(t, 3);
    SpanStep(t, 2);
    SpanStep(t, 1);
    SpanStep(t, 0);
  }

  lemma ValueWalk(command: string, typ: string, val: uint16)
    ensures Walk(CppValue(command, typ, val)) == if IsWrite(command) then [val] else []
  {
    var t := CppValue(command, typ, val);
    assert READING_KEY <= "value_data";
    if IsWrite(command) {
      assert t.entries[1] == Entry("value_data", Int(val));
      SpanStep(t, 1);
    }
    SpanStep(t, 0);
  }

  lemma RequestPayload(id: string, element: Json)
    ensures ResponseCalls(Some(Message(id, element))) == Walk(Array([element]))
    ensures Nested(Message(id, element), "payload", "payload_data") == Some(Array([element]))
  {
    var m := Message(id, element);
    GetUnique(m.entries, 0);
    GetUnique(m.entries, 1);
    var payload := m.entries[1].val;
    GetUnique(payload.entries, 0);
    GetUnique(payload.entries, 1);
  }

  /**
    * Round trip: the walk and the lookup of the document built for a write each find the written value,
    * once, whatever the register; the document built for any other command yields nothing to either.
    */
  lemma RequestReadsBack(id: string, command: string, typ: string, function_: string, slaveId: int,
                         reg: int, ip: string, port: int, val: uint16, wild: uint16)
    ensures var doc := CppRequest(id, command, typ, function_, slaveId, reg, ip, port, val);
            var expected := if IsWrite(command) then [val] else [];
            ResponseCalls(Some(doc)) == expected && LookupCalls(Reply(Some(doc), wild)) == expected
  {
    hide Message, Walk, ResponseCalls, CppCommand, Nested;
    var address, value := CppAddress(function_, slaveId, reg, ip, port), CppValue(command, typ, val);
    var element := CppCommand(command, address, value);
    RequestPayload(id, element);
    AddressWalk(function_, slaveId, reg, ip, port);
    ValueWalk(command, typ, val);
    ElementWalk(command, address, value);
    ElementLookup(command, address, typ, val);
    assert (val as real).Floor == val;
  }

  lemma ElementWalk(command: string, address: Json, value: Json)
    requires address.Object? && value.Object? && Walk(address) == []
    ensures Walk(Array([CppCommand(command, address, value)])) == Walk(value)
  {
    var t := CppCommand(command, address, value);
    SpanStep(t, 2);
    SpanStep(t, 1);
    SpanStep(t, 0);
    SpanStep(Array([t]), 0);
  }

  lemma ElementLookup(command: string, address: Json, typ: string, val: uint16)
    ensures Nested(CppCommand(command, address, CppValue(command, typ, val)), "value", "value_data")
            == if IsWrite(command) then Some(Int(val)) else None
  {
    var value := CppValue(command, typ, val);
    var t := CppCommand(command, address, value);
    GetUnique(t.entries, 2);
    if IsWrite(command) {
      GetUnique(value.entries, 1);
    }
  }
}
