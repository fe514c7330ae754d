/**
  * json_example/src/mb_data_message.cpp: reg_func builds its request on the heap, serializes it, sends the text and
  * reads the response; and the methods that call it.
  */
module RequestBuilders {
  import opened Words
  import opened JsonTree
  import opened JsonReader
  import opened JsonHeap
  import opened JsonOwnership
  import opened JsonRelease
  import opened RequestTrees

  // ----- reg_func -----

  method FillCppAddress(arena: Arena, address: Node, function_: string, slaveId: int, reg: int, ip: string, port: int,
                        ghost avoid: set<Node>) returns (ghost s: Shape)
    requires arena.Valid() && address.cell == ObjectCell([])
    modifies arena, address
    ensures arena.Valid() && s.below !! avoid && HasShape(address, s)
    ensures s.entries == CppAddress(function_, slaveId, reg, ip, port).entries
  {
    hide HasShape, NewKey;
    s := EmptyShape(address);
    ghost var node, made;
    s, made := AdoptTwo(arena, address, "function", StringCell(function_), "slave_id", IntCell(slaveId), s, avoid);
    s, made := AdoptTwo(arena, address, "register", IntCell(reg), "ip_address", StringCell(ip), s, avoid);
    node, s := AdoptNew(arena, address, "ip_port", IntCell(port), s, avoid);
  }

  method FillCppValue(arena: Arena, value: Node, command: string, typ: string, val: uint16, ghost avoid: set<Node>)
    returns (ghost s: Shape)
    requires arena.Valid() && value.cell == ObjectCell([])
    modifies arena, value
    ensures arena.Valid() && s.below !! avoid && HasShape(value, s)
    ensures s.entries == CppValue(command, typ, val).entries
  {
    hide HasShape, NewKey;
    s := EmptyShape(value);
    ghost var node;
    node, s := AdoptNew(arena, value, "value_type", StringCell(typ), s, avoid);
    if "write" <= command {
      node, s := AdoptNew(arena, value, "value_data", IntCell(val), s, avoid);
    }
  }

  /** command_json: the command, and the address and value objects once they are filled. */
  method FillCppCommand(arena: Arena, commandJson: Node, addressJson: Node, valueJson: Node,
                        command: string, typ: string, function_: string, slaveId: int, reg: int, ip: string, port: int,
                        val: uint16, ghost avoid: set<Node>) returns (ghost s: Shape)
    requires arena.Valid() && commandJson != addressJson && commandJson != valueJson && addressJson != valueJson
    requires commandJson.cell == ObjectCell([]) && addressJson.cell == ObjectCell([])
    requires valueJson.cell == ObjectCell([])
    requires avoid !! {commandJson, addressJson, valueJson}
    modifies arena, commandJson, addressJson, valueJson
    ensures arena.Valid() && s.below !! avoid && HasShape(commandJson, s)
    ensures s.entries == CppCommand(command, CppAddress(function_, slaveId, reg, ip, port),
                                    CppValue(command, typ, val)).entries
  {
    ghost var objects := {commandJson, addressJson, valueJson};
    ghost var address, value := CppAddress(function_, slaveId, reg, ip, port), CppValue(command, typ, val);
    hide HasShape, NewKey, Shows, Owned;
    s := EmptyShape(commandJson);
    ghost var node;
    node, s := AdoptNew(arena, commandJson, "command", StringCell(command), s, avoid + objects);
    ghost var a := FillCppAddress(arena, addressJson, function_, slaveId, reg, ip, port, avoid + objects);
    ghost var v := FillCppValue(arena, valueJson, command, typ, val, avoid + objects);
    ShapeOwns(addressJson, a);
    ShapeOwns(valueJson, v);
    s := Adopt(commandJson, "address", addressJson, s, address, a.below + {addressJson});
    s := Adopt(commandJson, "value", valueJson, s, value, v.below + {valueJson});
  }

  /**
    * The document of reg_func. payload goes into root before payload_data goes into payload; root sees the
    * later change because it refers to the same node.
    */
  method BuildCppRequest(arena: Arena, id: string, command: string, typ: string, function_: string, slaveId: int,
                         reg: int, ip: string, port: int, val: uint16) returns (root: Node, ghost space: set<Node>)
    requires arena.Valid()
    modifies arena
    ensures arena.Valid()
    ensures Shows(root, CppRequest(id, command, typ, function_, slaveId, reg, ip, port, val), space)
  {
    hide HasShape, NewKey, Shows, Owned;
    root := arena.New(ObjectCell([]));
    var payload := arena.New(ObjectCell([]));
    var payloadData := arena.New(ArrayCell([]));
    var commandJson := arena.New(ObjectCell([]));
    var addressJson := arena.New(ObjectCell([]));
    var valueJson := arena.New(ObjectCell([]));
    ghost var address, value := CppAddress(function_, slaveId, reg, ip, port), CppValue(command, typ, val);
    ghost var element := CppCommand(command, address, value);
    ghost var s := FillCppCommand(arena, commandJson, addressJson, valueJson, command, typ, function_,
                                  slaveId, reg, ip, port, val, {root, payload, payloadData});
    ShapeOwns(commandJson, s);
    ghost var dataSpace := AppendOnly(payloadData, commandJson, element, s.below + {commandJson});

    space := FillMessage(arena, root, payload, payloadData, id, Array([element]), dataSpace);
  }

  /** The last lines of reg_func. */
  method FillMessage(arena: Arena, root: Node, payload: Node, payloadData: Node, id: string,
                     ghost data: Json, ghost dataSpace: set<Node>) returns (ghost space: set<Node>)
    requires arena.Valid() && root != payload && root.cell == ObjectCell([]) && payload.cell == ObjectCell([])
    requires Shows(payloadData, data, dataSpace) && root !in dataSpace && payload !in dataSpace
    modifies arena, root, payload
    ensures arena.Valid()
    ensures Shows(root, Object([Entry("id", Str(id)),
                                Entry("payload", Object([Entry("payload_type", Str("request")),
                                                         Entry("payload_data", data)]))]),
                  space)
  {
    hide HasShape, NewKey, Shows, Owned;
    var i := arena.New(StringCell(id));
    SetMember(root, "id", i);
    ghost var p := EmptyShape(payload);
    ghost var t;
    t, p := AdoptNew(arena, payload, "payload_type", StringCell("request"), p, {root, payload, i});
    space := LinkPayload(root, payload, payloadData, i, id, p, data, dataSpace);
  }

  /** An empty array gets its one element. */
  method AppendOnly(data: Node, val: Node, ghost element: Json, ghost nodes: set<Node>) returns (ghost space: set<Node>)
    requires data.cell == ArrayCell([]) && Shows(val, element, nodes) && data !in nodes
    modifies data
    ensures data.cell == ArrayCell([val]) && space == nodes + {data}
    ensures Shows(data, Array([element]), space)
    ensures Owned(data, Array([element]), space) == old(Owned(val, element, nodes)) + [data]
  {
    hide Shows, Owned;
    Append(data, val);
    space := nodes + {data};
    OneElement(data, val, element, nodes);
  }

  lemma OneElement(data: Node, val: Node, element: Json, nodes: set<Node>)
    requires data.cell == ArrayCell([val]) && Shows(val, element, nodes)
    ensures Shows(data, Array([element]), nodes + {data})
    ensures Owned(data, Array([element]), nodes + {data}) == Owned(val, element, nodes) + [data]
  {
    var space := nodes + {data};
    OwnedMonotone(val, element, nodes, space);
    assert OwnedChildren(data, Array([element]), space, 1) == [] + Owned(val, element, space);
  }

  /** payload goes into root while it still lacks its data; then the data goes into payload. */
  method LinkPayload(root: Node, payload: Node, payloadData: Node, i: Node, id: string,
                     ghost p: Shape, ghost data: Json, ghost dataSpace: set<Node>) returns (ghost space: set<Node>)
    requires root.cell == ObjectCell([Member("id", i)]) && i.cell == StringCell(id)
    requires i != root && i != payload && root != payload && root !in p.below
    requires HasShape(payload, p) && p.entries == [Entry("payload_type", Str("request"))]
    requires NewKey(p.entries, "payload_data")
    requires Shows(payloadData, data, dataSpace) && root !in dataSpace && payload !in dataSpace
    modifies root, payload
    ensures Shows(root, Object([Entry("id", Str(id)),
                                Entry("payload", Object([Entry("payload_type", Str("request")),
                                                         Entry("payload_data", data)]))]),
                  space)
  {
    hide HasShape, NewKey, Shows, Owned;
    SetMember(root, "payload", payload);
    ghost var s := Adopt(payload, "payload_data", payloadData, p, data, dataSpace);
    ShapeOwns(payload, s);
    ghost var below := s.below + {payload};
    space := {root, i} + below;
    assert s.entries == [Entry("payload_type", Str("request")), Entry("payload_data", data)];
    MessageShown(root, payload, i, id, s.entries, below);
  }

  lemma MessageShown(root: Node, payload: Node, i: Node, id: string, entries: seq<Entry>, below: set<Node>)
    requires root.cell == ObjectCell([Member("id", i), Member("payload", payload)]) && i.cell == StringCell(id)
    requires Shows(payload, Object(entries), below)
    ensures Shows(root, Object([Entry("id", Str(id)), Entry("payload", Object(entries))]), {root, i} + below)
  {
    ShowsMonotone(payload, Object(entries), below, {root, i} + below);
  }

  class MbDataMessage {
    var slaveId: int
    var port: int
    var ip: string
    var guidString: string
    var callback: Callback?

    /** The constructor does not set callback: it starts as whatever the memory held. */
    constructor (slaveId: int, port: int, ip: string, memory: Callback?)
      ensures this.slaveId == slaveId && this.port == port && this.ip == ip && callback == memory
    {
      this.slaveId := slaveId;
      this.port := port;
      this.ip := ip;
      callback := memory;
      guidString := "";
    }

    /**
      * reg_func: builds the request under a new id, sends the text read from it and reads the response that comes
      * back.
      */
    method RegFunc(arena: Arena, reg: int, command: string, typ: string, function_: string, val: uint16,
                   newId: string, response: Option<Json>) returns (sent: Json)
      requires arena.Valid()
      modifies arena, this`guidString, callback
      ensures arena.Valid() && guidString == newId
      ensures sent == CppRequest(newId, command, typ, function_, slaveId, reg, ip, port, val)
      ensures callback != null ==> callback.calls == old(callback.calls) + ResponseCalls(response)
    {
      guidString := newId;
      hide Shows;
      var root;
      ghost var space;
      root, space := BuildCppRequest(arena, guidString, command, typ, function_, slaveId, reg, ip, port, val);
      ghost var t := CppRequest(newId, command, typ, function_, slaveId, reg, ip, port, val);
      sent := Serialize(root, t, space);
      var _ := MessageStartParse(response, callback);
    }

    /** A plain read reports to whatever function an earlier call has left behind. */
    method ReadU16Register(arena: Arena, reg: int, newId: string, response: Option<Json>)
      returns (sent: Json)
      requires arena.Valid()
      modifies arena, this`guidString, callback
      ensures arena.Valid()
      ensures sent == CppRequest(newId, "read", "U16", "Holding", slaveId, reg, ip, port, 0)
      ensures callback != null ==> callback.calls == old(callback.calls) + ResponseCalls(response)
    {
      sent := RegFunc(arena, reg, "read", "U16", "Holding", 0, newId, response);
    }

    method ReadFltRegister(arena: Arena, reg: int, newId: string, response: Option<Json>)
      returns (sent: Json)
      requires arena.Valid()
      modifies arena, this`guidString, callback
      ensures arena.Valid()
      ensures sent == CppRequest(newId, "read", "FLT", "Holding", slaveId, reg, ip, port, 0)
      ensures callback != null ==> callback.calls == old(callback.calls) + ResponseCalls(response)
    {
      sent := RegFunc(arena, reg, "read", "FLT", "Holding", 0, newId, response);
    }

    method ReadU16RegisterCallback(arena: Arena, reg: int, respCbf: Callback, newId: string, response: Option<Json>)
      returns (sent: Json)
      requires arena.Valid()
      modifies arena, this`guidString, this`callback, respCbf
      ensures arena.Valid() && callback == respCbf
      ensures sent == CppRequest(newId, "read", "U16", "Holding", slaveId, reg, ip, port, 0)
      ensures respCbf.calls == old(respCbf.calls) + ResponseCalls(response)
    {
      this.callback := respCbf;
      sent := RegFunc(arena, reg, "read", "U16", "Holding", 0, newId, response);
    }

    /** A write forgets the callback: no function is called for its response, nor by a plain read after it. */
    method WriteU16Register(arena: Arena, reg: int, val: uint16, newId: string, response: Option<Json>)
      returns (sent: Json)
      requires arena.Valid()
      modifies arena, this`guidString, this`callback
      ensures arena.Valid() && callback == null
      ensures sent == CppRequest(newId, "write", "U16", "Holding", slaveId, reg, ip, port, val)
    {
      this.callback := null;
      sent := RegFunc(arena, reg, "write", "U16", "Holding", val, newId, response);
    }
  }
}
