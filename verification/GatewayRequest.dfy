/**
  * iotHub_mbtcp/src/nb_zmq_mbtcp.c: get_u16_register builds its request on the heap, serializes it, frees
  * it with a single call, sends the text and reads the reply.
  */
module GatewayRequest {
  import opened JsonTree
  import opened JsonReader
  import opened JsonLookup
  import opened JsonHeap
  import opened JsonOwnership
  import opened JsonRelease
  import opened RequestTrees
  import opened RequestBuilders

  method FillCAddress(arena: Arena, address: Node, reg: int, ip: string, port: int, ghost avoid: set<Node>)
    returns (ghost s: Shape)
    requires arena.Valid() && address.cell == ObjectCell([])
    modifies arena, address
    ensures arena.Valid() && s.below !! avoid && HasShape(address, s)
    ensures s.entries == CAddress(reg, ip, port).entries
    ensures fresh(s.kids) && arena.created == old(arena.created) + s.kids && arena.freed == old(arena.freed)
  {
    hide HasShape, NewKey;
    s := EmptyShape(address);
    ghost var node, made;
    s, made := AdoptTwo(arena, address, "function", StringCell("Holding"), "port", IntCell(port), s, avoid);
    s, made := AdoptTwo(arena, address, "slave_id", IntCell(1), "register", IntCell(reg), s, avoid);
    node, s := AdoptNew(arena, address, "ip_address", StringCell(ip), s, avoid);
  }

  /** json_object_dotset_string for a name in two parts whose first is not there yet: the object between is created. */
  method DotSetString(arena: Arena, obj: Node, name: string, text: string, ghost s: Shape, ghost avoid: set<Node>)
    returns (ghost s': Shape, ghost made: seq<Node>)
    requires IndexOf(name, '.') < |name| && '.' !in name[IndexOf(name, '.') + 1..]
    requires arena.Valid() && HasShape(obj, s) && NewKey(s.entries, name[..IndexOf(name, '.')])
    modifies arena, obj
    ensures arena.Valid() && fresh(made) && HasShape(obj, s') && s'.below - s.below !! avoid
    ensures var dot := IndexOf(name, '.');
            s'.entries == s.entries + [Entry(name[..dot], Object([Entry(name[dot + 1..], Str(text))]))]
    ensures s'.kids == s.kids + made
    ensures arena.created == old(arena.created) + made && arena.freed == old(arena.freed)
  {
    hide HasShape, NewKey, Shows, Owned, IndexOf;
    var dot := IndexOf(name, '.');
    var outer, inner := name[..dot], name[dot + 1..];
    var leaf := arena.New(StringCell(text));
    var between := arena.New(ObjectCell([]));
    ghost var b := EmptyShape(between);
    LeafOwnsItself(leaf);
    b := Adopt(between, inner, leaf, b, Str(text), {leaf});
    assert b.entries == [Entry(inner, Str(text))];
    ShapeOwns(between, b);
    s' := Adopt(obj, outer, between, s, Object(b.entries), b.below + {between});
    made := [leaf, between];
  }

  lemma LeafOwnsItself(v: Node)
    requires v.cell.StringCell? || v.cell.IntCell?
    ensures Shows(v, Leaf(v.cell), {v}) && Owned(v, Leaf(v.cell), {v}) == [v]
  {
  }

  lemma ValueTypeName()
    ensures var name := "value.value_type";
            var dot := IndexOf(name, '.');
            dot < |name| && name[..dot] == "value" && name[dot + 1..] == "value_type"
  {
    assert "value" + "." + "value_type" == "value.value_type";
    OneDot("value", "value_type");
  }

  /** payload_data_object: the command, the address and the value type. */
  method FillCElement(arena: Arena, element: Node, address: Node, reg: int, ip: string, port: int,
                      ghost avoid: set<Node>) returns (ghost s: Shape, ghost made: seq<Node>)
    requires arena.Valid() && element != address && avoid !! {element, address}
    requires element.cell == ObjectCell([]) && address.cell == ObjectCell([])
    modifies arena, element, address
    ensures arena.Valid() && fresh(made) && s.below !! avoid && HasShape(element, s)
    ensures s.entries == [Entry("command", Str("read")), Entry("address", CAddress(reg, ip, port)),
                          Entry("value", Object([Entry("value_type", Str("U16"))]))]
    ensures arena.created == old(arena.created) + made && arena.freed == old(arena.freed)
    ensures multiset(s.kids) == multiset(made) + multiset([address])
  {
    hide HasShape, NewKey, Shows, Owned, IndexOf;
    ValueTypeName();
    ghost var objects := avoid + {element, address};
    ghost var a := FillCAddress(arena, address, reg, ip, port, objects);
    s := EmptyShape(element);
    ghost var c, v;
    c, s := AdoptNew(arena, element, "command", StringCell("read"), s, objects);
    ShapeOwns(address, a);
    s := Adopt(element, "address", address, s, CAddress(reg, ip, port), a.below + {address});
    s, v := DotSetString(arena, element, "value.value_type", "U16", s, objects);
    made := a.kids + [c] + v;
  }

  /**
    * The whole document. Every node made for it is owned by root through exactly one chain of members and
    * elements: what freeing root gives back is what was made, node for node.
    */
  method BuildCRequest(arena: Arena, id: string, reg: int, ip: string, port: int)
    returns (root: Node, ghost space: set<Node>, ghost made: seq<Node>)
    requires arena.Valid()
    modifies arena
    ensures arena.Valid() && arena.created == old(arena.created) + made && arena.freed == old(arena.freed)
    ensures fresh(made) && Shows(root, CRequest(id, reg, ip, port), space)
    ensures multiset(Owned(root, CRequest(id, reg, ip, port), space)) == multiset(made)
  {
    hide HasShape, NewKey, Shows, Owned;
    var address, payload, element, data;
    root, address, payload, element, data := NewObjects(arena);
    ghost var i, t, kids, inner;
    space, i, t, kids, inner := FillRequest(arena, root, address, payload, element, data, id, reg, ip, port);
    made := Made(root, address, payload, element, data, i, inner, t);
    OwnedIsMade(root, address, payload, element, data, i, t, kids, inner);
  }

  /** The nodes of a request in the order in which they are made. */
  function Made(root: Node, address: Node, payload: Node, element: Node, data: Node, i: Node, inner: seq<Node>, t: Node)
    : seq<Node>
  {
    [root, address, payload, element, data] + ([i] + inner + [t])
  }

  method NewObjects(arena: Arena) returns (root: Node, address: Node, payload: Node, element: Node, data: Node)
    requires arena.Valid()
    modifies arena
    ensures arena.Valid() && arena.created == old(arena.created) + [root, address, payload, element, data]
    ensures arena.freed == old(arena.freed) && fresh({root, address, payload, element, data})
    ensures root != address && root != payload && root != element && root != data && address != payload
    ensures address != element && address != data && payload != element && payload != data && element != data
    ensures root.cell == ObjectCell([]) && address.cell == ObjectCell([]) && payload.cell == ObjectCell([])
    ensures element.cell == ObjectCell([]) && data.cell == ArrayCell([])
  {
    root := arena.New(ObjectCell([]));
    address := arena.New(ObjectCell([]));
    payload := arena.New(ObjectCell([]));
    element := arena.New(ObjectCell([]));
    data := arena.New(ArrayCell([]));
  }

  method FillRequest(arena: Arena, root: Node, address: Node, payload: Node, element: Node, data: Node,
                     id: string, reg: int, ip: string, port: int)
    returns (ghost space: set<Node>, ghost i: Node, ghost t: Node, ghost kids: seq<Node>, ghost inner: seq<Node>)
    requires arena.Valid()
    requires root != address && root != payload && root != element && root != data && address != payload
    requires address != element && address != data && payload != element && payload != data && element != data
    requires root.cell == ObjectCell([]) && address.cell == ObjectCell([]) && payload.cell == ObjectCell([])
    requires element.cell == ObjectCell([]) && data.cell == ArrayCell([])
    modifies arena, root, address, payload, element, data
    ensures arena.Valid() && arena.created == old(arena.created) + ([i] + inner + [t])
    ensures arena.freed == old(arena.freed) && fresh(i) && fresh(inner) && fresh(t)
    ensures multiset(kids) == multiset(inner) + multiset([address])
    ensures Shows(root, CRequest(id, reg, ip, port), space)
    ensures Owned(root, CRequest(id, reg, ip, port), space)
            == [i] + ([t] + ((kids + [element]) + [data]) + [payload]) + [root]
  {
    hide HasShape, NewKey, Shows, Owned;
    ghost var r, e, dataSpace;
    i, r := AdoptEmpty(arena, root, "id", StringCell(id), {root, address, payload, element, data});
    e, inner := FillCElement(arena, element, address, reg, ip, port, {root, payload, data} + r.below);
    kids := e.kids;
    ShapeOwns(element, e);
    dataSpace := AppendOnly(data, element, Object(e.entries), e.below + {element});
    space, t := CloseRequest(arena, root, payload, data, id, r, Object(e.entries), dataSpace);
  }

  /** The order in which the nodes are given back, against the order in which they were made. */
  lemma OwnedIsMade(r: Node, a: Node, p: Node, e: Node, d: Node, i: Node, t: Node, kids: seq<Node>, inner: seq<Node>)
    requires multiset(kids) == multiset(inner) + multiset([a])
    ensures multiset([i] + ([t] + ((kids + [e]) + [d]) + [p]) + [r]) == multiset(Made(r, a, p, e, d, i, inner, t))
  {
    MadeInPieces(r, a, p, e, d, i, inner, t);
    Counted([r], [a], [p], [e], [d], [i], [t], kids, inner);
  }

  lemma MadeInPieces(r: Node, a: Node, p: Node, e: Node, d: Node, i: Node, inner: seq<Node>, t: Node)
    ensures Made(r, a, p, e, d, i, inner, t) == ([r] + [a] + [p] + [e] + [d]) + [i] + inner + [t]
  {
  }

  lemma Counted<T>(r: seq<T>, a: seq<T>, p: seq<T>, e: seq<T>, d: seq<T>, i: seq<T>, t: seq<T>,
                   kids: seq<T>, inner: seq<T>)
    requires multiset(kids) == multiset(inner) + multiset(a)
    ensures multiset(i + (t + ((kids + e) + d) + p) + r) == multiset((r + a + p + e + d) + i + inner + t)
  {
    CountOwned(i, t, kids, e, d, p, r);
    CountMade(r, a, p, e, d, i, inner, t);
    Rearranged(multiset(r), multiset(a), multiset(p), multiset(e), multiset(d),
               multiset(i), multiset(t), multiset(kids), multiset(inner));
  }

  lemma CountOwned<T>(i: seq<T>, t: seq<T>, kids: seq<T>, e: seq<T>, d: seq<T>, p: seq<T>, r: seq<T>)
    ensures multiset(i + (t + ((kids + e) + d) + p) + r)
            == multiset(i) + (multiset(t) + (multiset(kids) + multiset(e) + multiset(d)) + multiset(p)) + multiset(r)
  {
    CountConcat(kids, e, d);
    CountConcat(t, (kids + e) + d, p);
    CountConcat(i, t + ((kids + e) + d) + p, r);
  }

  lemma CountMade<T>(r: seq<T>, a: seq<T>, p: seq<T>, e: seq<T>, d: seq<T>, i: seq<T>, inner: seq<T>, t: seq<T>)
    ensures multiset((r + a + p + e + d) + i + inner + t)
            == (((multiset(r) + multiset(a) + multiset(p)) + multiset(e) + multiset(d)) + multiset(i) + multiset(inner))
               + multiset(t)
  {
    CountConcat(r, a, p);
    CountConcat(r + a + p, e, d);
    CountConcat(r + a + p + e + d, i, inner);
    CountConcat((r + a + p + e + d) + i + inner, t, []);
    assert (r + a + p + e + d) + i + inner + t + [] == (r + a + p + e + d) + i + inner + t;
  }

  lemma Rearranged<T>(r: multiset<T>, a: multiset<T>, p: multiset<T>, e: multiset<T>, d: multiset<T>,
                      i: multiset<T>, t: multiset<T>, kids: multiset<T>, inner: multiset<T>)
    requires kids == inner + a
    ensures i + (t + (kids + e + d) + p) + r == (((r + a + p) + e + d) + i + inner) + t
  {
  }

  lemma CountConcat<T>(a: seq<T>, b: seq<T>, c: seq<T>)
    ensures multiset(a + b + c) == multiset(a) + multiset(b) + multiset(c)
  {
  }

  /** payload_type and payload_data into payload, and payload into root, which holds only the id so far. */
  method CloseRequest(arena: Arena, root: Node, payload: Node, data: Node, id: string, ghost r: Shape,
                      ghost element: Json, ghost dataSpace: set<Node>) returns (ghost space: set<Node>, ghost t: Node)
    requires arena.Valid() && root != payload && payload.cell == ObjectCell([])
    requires HasShape(root, r) && r.entries == [Entry("id", Str(id))] && NewKey(r.entries, "payload")
    requires payload !in r.below
    requires Shows(data, Array([element]), dataSpace) && root !in dataSpace && payload !in dataSpace
    modifies arena, root, payload
    ensures arena.Valid() && arena.created == old(arena.created) + [t] && arena.freed == old(arena.freed)
    ensures fresh(t)
    ensures Shows(root, Message(id, element), space)
    ensures Owned(root, Message(id, element), space)
            == r.kids + ([t] + old(Owned(data, Array([element]), dataSpace)) + [payload]) + [root]
  {
    hide HasShape, NewKey, Shows, Owned;
    ghost var p;
    t, p := AdoptEmpty(arena, payload, "payload_type", StringCell("request"), {root, payload} + dataSpace);
    p := Adopt(payload, "payload_data", data, p, Array([element]), dataSpace);
    ShapeOwns(payload, p);
    ghost var r' := Adopt(root, "payload", payload, r, Object(p.entries), p.below + {payload});
    ShapeOwns(root, r');
    space := r'.below + {root};
    MessageOf(id, element, p.entries, r'.entries);
  }

  lemma MessageOf(id: string, element: Json, payload: seq<Entry>, root: seq<Entry>)
    requires payload == [Entry("payload_type", Str("request"))] + [Entry("payload_data", Array([element]))]
    requires root == [Entry("id", Str(id))] + [Entry("payload", Object(payload))]
    ensures Object(root) == Message(id, element)
  {
    assert payload == [Entry("payload_type", Str("request")), Entry("payload_data", Array([element]))];
    assert root == [Entry("id", Str(id)), Entry("payload", Object(payload))];
  }

  /** The first member of a new object. */
  method AdoptEmpty(arena: Arena, obj: Node, name: string, cell: Cell, ghost avoid: set<Node>)
    returns (v: Node, ghost s: Shape)
    requires arena.Valid() && obj.cell == ObjectCell([]) && (cell.StringCell? || cell.IntCell?)
    modifies arena, obj
    ensures fresh(v) && v !in avoid && s == Shape([Entry(name, Leaf(cell))], {v}, [v]) && HasShape(obj, s)
    ensures forall k :: NewKey(s.entries, k) <==> k != name
    ensures arena.Valid() && arena.created == old(arena.created) + [v] && arena.freed == old(arena.freed)
  {
    hide HasShape, NewKey;
    s := EmptyShape(obj);
    v, s := AdoptNew(arena, obj, name, cell, s, avoid);
  }

  lemma {:induction false} DistinctCounts(nodes: seq<Node>, n: Node)
    requires Distinct(nodes)
    ensures multiset(nodes)[n] <= 1
  {
    if nodes != [] {
      var front, last := nodes[..|nodes| - 1], nodes[|nodes| - 1];
      DistinctCounts(front, n);
      assert nodes == front + [last];
      assert last !in front;
    }
  }

  /** A rearrangement of distinct nodes is distinct. */
  lemma RearrangedDistinct(a: seq<Node>, b: seq<Node>)
    requires Distinct(a) && multiset(a) == multiset(b)
    ensures Distinct(b) && NodesOf(a) == NodesOf(b)
  {
    forall i, j | 0 <= i < j < |b|
      ensures b[i] != b[j]
    {
      DistinctCounts(a, b[i]);
      assert b == b[..i] + [b[i]] + b[i + 1..j] + [b[j]] + b[j + 1..];
    }
    forall n
      ensures n in NodesOf(a) <==> n in NodesOf(b)
    {
      assert n in multiset(a) <==> n in multiset(b);
    }
  }

  /** The static target set by init_ip_port, and the exchanges of the REQ socket: one reply for each request. */
  class Gateway {
    var targetIp: string
    var targetPort: int
    var requests: seq<Json>
    var replies: seq<Reply>

    constructor (ip: string, port: int)
      ensures targetIp == ip && targetPort == port && requests == [] && replies == []
    {
      targetIp := ip;
      targetPort := port;
      requests := [];
      replies := [];
    }

    /** zmq_request_send: the text goes out, a reply comes in and is parsed. */
    method ZmqRequestSend(message: Json, cbf: Callback, reply: Reply) returns (res: int)
      modifies this`requests, this`replies, cbf
      ensures requests == old(requests) + [message] && replies == old(replies) + [reply]
      ensures cbf.calls == old(cbf.calls) + LookupCalls(reply)
      ensures res == if LookupReading(reply).Some? then 0 else 1
    {
      requests := requests + [message];
      replies := replies + [reply];
      res := MessageParse(reply, cbf);
    }

    /**
      * Everything made for the request has been given back exactly once when the call returns, and is no longer
      * readable; the text sent is the one read from the tree before. The callback runs exactly when the result is 0.
      */
    method GetU16Register(arena: Arena, reg: int, cbf: Callback, newId: string, reply: Reply)
      returns (res: int, ghost made: seq<Node>, ghost released: seq<Node>)
      requires arena.Valid()
      modifies this`requests, this`replies, arena, cbf
      ensures arena.Valid()
      ensures arena.created == old(arena.created) + made && arena.freed == old(arena.freed) + released
      ensures Distinct(made) && multiset(released) == multiset(made)
      ensures forall n :: n in made ==> n.cell.FreedCell?
      ensures requests == old(requests) + [CRequest(newId, reg, targetIp, targetPort)]
      ensures replies == old(replies) + [reply]
      ensures cbf.calls == old(cbf.calls) + LookupCalls(reply)
      ensures res == if LookupReading(reply).Some? then 0 else 1
    {
      hide Shows, Owned, Distinct, LookupReading;
      ghost var before := arena.created;
      var rootValue;
      ghost var space, nodes;
      rootValue, space, made := BuildCRequest(arena, newId, reg, targetIp, targetPort);
      ghost var t := CRequest(newId, reg, targetIp, targetPort);
      var s := Serialize(rootValue, t, space);
      released, nodes := OwnedOnce(rootValue, t, space, before, made);
      JsonValueFree(arena, rootValue, t, released, nodes);
      res := ZmqRequestSend(s, cbf, reply);
    }
  }

  lemma OwnedOnce(v: Node, t: Json, space: set<Node>, before: seq<Node>, made: seq<Node>)
    returns (owned: seq<Node>, nodes: set<Node>)
    requires Shows(v, t, space) && multiset(Owned(v, t, space)) == multiset(made) && Distinct(before + made)
    ensures OwnsOnce(v, t, owned, nodes) && multiset(owned) == multiset(made) && Distinct(made)
    ensures nodes == NodesOf(made)
  {
    owned := Owned(v, t, space);
    nodes := NodesOf(owned);
    DistinctParts(before, made);
    RearrangedDistinct(made, owned);
    OwnedShows(v, t, space);
  }
}
