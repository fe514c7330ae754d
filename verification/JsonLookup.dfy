/**
  * iotHub_mbtcp/src/nb_zmq_mbtcp.c: message_parse, which looks the reading up at fixed names instead of
  * walking the document.
  */
module JsonLookup {
  import opened Words
  import opened JsonTree
  import opened JsonReader

  /**
    * What arrives on the socket: the parsed document, none if parson rejects the text, and the value the
    * processor's double-to-uint16_t conversion leaves for a number outside the range where C defines it.
    */
  datatype Reply = Reply(doc: Option<Json>, wild: uint16)

  /** json_value_get_number: 0 for anything that is not a number. */
  function NumberOf(v: Json): real {
    match v
    case Int(n) => n as real
    case Real(r) => r
    case _ => 0.0
  }

  /** (uint16_t)val truncates toward zero where the result fits. */
  function DoubleToUint16(r: real, wild: uint16): uint16 {
    if 0.0 <= r < UINT16_VALUES as real then
      assert 0 <= r.Floor < UINT16_VALUES;
      r.Floor
    else if -1.0 < r < 0.0 then 0
    else wild
  }

  const PAYLOAD_DATA_NAME := "payload.payload_data"
  const VALUE_DATA_NAME := "value.value_data"

  /** Each dotted name is a name in an object and a name in the object found there. */
  lemma DottedNames(t: Json)
    ensures DotLookup(t, PAYLOAD_DATA_NAME) == Nested(t, "payload", "payload_data")
    ensures DotLookup(t, VALUE_DATA_NAME) == Nested(t, "value", "value_data")
  {
    hide DotLookup;
    assert "payload" + "." + "payload_data" == PAYLOAD_DATA_NAME && "value" + "." + "value_data" == VALUE_DATA_NAME;
    TwoNames(t, "payload", "payload_data");
    TwoNames(t, "value", "value_data");
  }

  /** What stands at value.value_data of the first element of payload_data. */
  function AnswerOf(doc: Json): Option<Json> {
    match Nested(doc, "payload", "payload_data")
    case Some(Array(items)) => if items == [] then None else Nested(items[0], "value", "value_data")
    case _ => None
  }

  /** The reading message_parse finds, if any. */
  function LookupReading(reply: Reply): Option<uint16> {
    if reply.doc.None? then None
    else
      match AnswerOf(reply.doc.value)
      case Some(v) => Some(DoubleToUint16(NumberOf(v), reply.wild))
      case None => None
  }

  function LookupCalls(reply: Reply): seq<uint16> {
    match LookupReading(reply)
    case Some(v) => [v]
    case None => []
  }

  /** The callback runs exactly when 0 is returned, and then once. */
  method MessageParse(reply: Reply, cbf: Callback) returns (res: int)
    modifies cbf
    ensures cbf.calls == old(cbf.calls) + LookupCalls(reply)
    ensures res == if LookupReading(reply).Some? then 0 else 1
  {
    hide DotLookup;
    if reply.doc.None? {
      return 1;
    }
    var root := reply.doc.value;
    if !root.Object? {
      return 1;
    }
    DottedNames(root);
    var payloadArray := DotLookup(root, PAYLOAD_DATA_NAME);
    if payloadArray.Some? && payloadArray.value.Array? && payloadArray.value.items != [] {
      var respObject := payloadArray.value.items[0];
      if !respObject.Object? {
        return 1;
      }
      DottedNames(respObject);
      var value := DotLookup(respObject, VALUE_DATA_NAME);
      if value.Some? {
        cbf.Call(DoubleToUint16(NumberOf(value.value), reply.wild));
        return 0;
      }
    }
    return 1;
  }

  // ----- What the lookup finds, entry by entry -----

  /** Inside the range the conversion truncates toward zero; outside it leaves what the processor leaves. */
  lemma ConversionTruncates(r: real, wild: uint16)
    ensures var d := DoubleToUint16(r, wild);
            && (0.0 <= r < 65536.0 ==> d as real <= r < d as real + 1.0)
            && (-1.0 < r < 0.0 ==> d == 0)
            && (r <= -1.0 || r >= 65536.0 ==> d == wild)
  {
  }

  /** Only numbers count; any other kind of value reads as 0. */
  lemma NumbersRead(v: Json)
    ensures v.Int? ==> NumberOf(v) == v.n as real
    ensures v.Real? ==> NumberOf(v) == v.r
    ensures !v.Int? && !v.Real? ==> NumberOf(v) == 0.0
  {
  }

  /**
    * v is the answer in a document: an object with an object "payload" with an array "payload_data" whose first
    * element is an object with an object "value" that has v under "value_data".
    */
  ghost predicate Answered(doc: Json, v: Json) {
    exists payload, items, value ::
      && Field(doc, "payload", payload) && Field(payload, "payload_data", Array(items)) && |items| > 0
      && Field(items[0], "value", value) && Field(value, "value_data", v)
  }

  lemma NestedIsFields(t: Json, outer: string, inner: string, v: Json)
    ensures Nested(t, outer, inner) == Some(v) <==> exists u :: Field(t, outer, u) && Field(u, inner, v)
  {
    hide Field;
    forall u
      ensures Get(t, outer) == Some(u) <==> Field(t, outer, u)
      ensures Get(u, inner) == Some(v) <==> Field(u, inner, v)
    {
      GetIsField(t, outer, u);
      GetIsField(u, inner, v);
    }
    if Nested(t, outer, inner) == Some(v) {
      assert Field(t, outer, Get(t, outer).value);
    }
  }

  lemma AnswerIsAnswered(doc: Json, v: Json)
    ensures AnswerOf(doc) == Some(v) <==> Answered(doc, v)
  {
    hide Nested, Field, Get;
    forall items
      ensures Nested(doc, "payload", "payload_data") == Some(Array(items))
              <==> exists u :: Field(doc, "payload", u) && Field(u, "payload_data", Array(items))
    {
      NestedIsFields(doc, "payload", "payload_data", Array(items));
    }
    forall first
      ensures Nested(first, "value", "value_data") == Some(v)
              <==> exists u :: Field(first, "value", u) && Field(u, "value_data", v)
    {
      NestedIsFields(first, "value", "value_data", v);
    }
    if AnswerOf(doc) == Some(v) {
      var items := Nested(doc, "payload", "payload_data").value.items;
      var payload :| Field(doc, "payload", payload) && Field(payload, "payload_data", Array(items));
      var value :| Field(items[0], "value", value) && Field(value, "value_data", v);
    }
  }

  /** message_parse finds w if and only if the document has an answer that converts to w. */
  lemma {:induction false} ReadingIffAnswered(reply: Reply, w: uint16)
    ensures LookupReading(reply) == Some(w) <==>
              && reply.doc.Some?
              && exists v :: Answered(reply.doc.value, v) && w == DoubleToUint16(NumberOf(v), reply.wild)
  {
    hide AnswerOf, Answered, DoubleToUint16, NumberOf;
    if reply.doc.Some? {
      forall v
        ensures AnswerOf(reply.doc.value) == Some(v) <==> Answered(reply.doc.value, v)
      {
        AnswerIsAnswered(reply.doc.value, v);
      }
      if AnswerOf(reply.doc.value).Some? {
        assert Answered(reply.doc.value, AnswerOf(reply.doc.value).value);
      }
    }
  }
}
