/**
  * json_example/src/mb_data_message.cpp: message_start_parse, parse_payload and the two mutually
  * recursive loops, with the callback as an object that remembers the values it was given.
  */
module JsonReader {
  import opened Words
  import opened JsonTree
  import opened JsonWalk

  const PAYLOAD_ERROR := "paylod_type was not found to be string\n"
  const LOADS_ERROR := "error with json response parsing: json loads\n"
  const OBJECT_ERROR := "error with json response parsing: json is objects\n"
  const ID_ERROR := "error with json response parsing: json id\n"

  /** A function of type void (*)(uint16_t), seen through its calls. */
  class Callback {
    var calls: seq<uint16>

    constructor ()
      ensures calls == []
    {
      calls := [];
    }

    method Call(val: uint16)
      modifies this
      ensures calls == old(calls) + [val]
    {
      calls := calls + [val];
    }
  }

  function Kind(t: Json): nat {
    match t
    case Object(_) => 0
    case Array(_) => 1
    case Str(_) => 2
    case Int(_) => 3
    case Real(_) => 4
    case True => 5
    case False => 6
    case Null => 7
  }

  datatype WalkError = CannotHandleKey(key: string, kind: nat) | CannotHandleIndex(index: nat, kind: nat)

  /** The loop over an object. err arrives by value: setting it tells the caller nothing. */
  method ParseObject(t: Json, err: Option<WalkError>, cbf: Callback?)
    requires t.Object?
    modifies cbf
    ensures cbf != null ==> cbf.calls == old(cbf.calls) + Walk(t)
    decreases t
  {
    var localErr := err;
    ghost var total := if cbf != null then cbf.calls + Walk(t) else [];
    var i := 0;
    while i < |t.entries|
      invariant i <= |t.entries|
      invariant cbf != null ==> Remaining(cbf.calls, t, i, total)
    {
      var key, objVal := t.entries[i].key, t.entries[i].val;
      if cbf != null {
        RemainingStep(cbf.calls, t, i, total);
      }
      match objVal {
        case Object(_) =>
          ParseObject(objVal, localErr, cbf);
        case Array(_) =>
          ParseArray(objVal, localErr, cbf);
        case Str(_) =>
        case Int(n) =>
          if READING_KEY <= key && cbf != null {
            cbf.Call(ToUint16(n));
          }
        case Real(_) =>
        case _ =>
          localErr := Some(CannotHandleKey(key, Kind(objVal)));
          return;
      }
      i := i + 1;
    }
  }

  method ParseArray(t: Json, err: Option<WalkError>, cbf: Callback?)
    requires t.Array?
    modifies cbf
    ensures cbf != null ==> cbf.calls == old(cbf.calls) + Walk(t)
    decreases t
  {
    var localErr := err;
    ghost var total := if cbf != null then cbf.calls + Walk(t) else [];
    var i := 0;
    while i < |t.items|
      invariant i <= |t.items|
      invariant cbf != null ==> Remaining(cbf.calls, t, i, total)
    {
      var arrayValue := t.items[i];
      if cbf != null {
        RemainingStep(cbf.calls, t, i, total);
      }
      match arrayValue {
        case Object(_) =>
          ParseObject(arrayValue, localErr, cbf);
        case Array(_) =>
          ParseArray(arrayValue, localErr, cbf);
        case _ =>
          localErr := Some(CannotHandleIndex(i, Kind(arrayValue)));
          return;
      }
      i := i + 1;
    }
  }

  /** What a payload makes the callback see: nothing unless its type is a string and its data an array. */
  function PayloadCalls(payload: Json): seq<uint16> {
    match (Get(payload, "payload_type"), Get(payload, "payload_data"))
    case (Some(Str(_)), Some(Array(items))) => Walk(Array(items))
    case _ => []
  }

  function PayloadError(payload: Json): Option<string> {
    match (Get(payload, "payload_type"), Get(payload, "payload_data"))
    case (Some(Str(_)), Some(Array(_))) => None
    case _ => Some(PAYLOAD_ERROR)
  }

  /** No error exactly when the payload has a string "payload_type" and an array "payload_data". */
  lemma PayloadErrorMeaning(payload: Json)
    ensures PayloadError(payload).None? <==>
              exists typ, items ::
                Field(payload, "payload_type", Str(typ)) && Field(payload, "payload_data", Array(items))
    ensures PayloadError(payload).Some? ==> PayloadError(payload).value == "paylod_type was not found to be string\n"
  {
    hide Field;
    forall key, v
      ensures Get(payload, key) == Some(v) <==> Field(payload, key, v)
    {
      GetIsField(payload, key, v);
    }
    if PayloadError(payload).None? {
      assert Field(payload, "payload_type", Str(Get(payload, "payload_type").value.text));
      assert Field(payload, "payload_data", Array(Get(payload, "payload_data").value.items));
    }
  }

  method ParsePayload(payload: Json, cbf: Callback?) returns (err: Option<string>)
    modifies cbf
    ensures cbf != null ==> cbf.calls == old(cbf.calls) + PayloadCalls(payload)
    ensures err == PayloadError(payload)
  {
    err := None;
    var payloadType := Get(payload, "payload_type");
    if !(payloadType.Some? && payloadType.value.Str?) {
      return Some(PAYLOAD_ERROR);
    }
    var payloadDataArray := Get(payload, "payload_data");
    if !(payloadDataArray.Some? && payloadDataArray.value.Array?) {
      return Some(PAYLOAD_ERROR);
    }
    ParseArray(payloadDataArray.value, None, cbf);
  }

  /** A response that gets past the checks on root, id and payload. */
  predicate WellHeaded(response: Option<Json>) {
    && response.Some? && response.value.Object?
    && Get(response.value, "id").Some? && Get(response.value, "id").value.Str?
    && Get(response.value, "payload").Some? && Get(response.value, "payload").value.Object?
  }

  /** The calls for a whole response; none is what json_loads gives for a text it cannot read. */
  function ResponseCalls(response: Option<Json>): seq<uint16> {
    if WellHeaded(response) then PayloadCalls(Get(response.value, "payload").value) else []
  }

  method MessageStartParse(response: Option<Json>, cbf: Callback?) returns (report: Option<string>)
    modifies cbf
    ensures cbf != null ==> cbf.calls == old(cbf.calls) + ResponseCalls(response)
    ensures WellHeaded(response) ==> report == PayloadError(Get(response.value, "payload").value)
    ensures !WellHeaded(response) ==>
              report == Some(if response.None? then "error with json response parsing: json loads\n"
                             else if !response.value.Object? then "error with json response parsing: json is objects\n"
                             else "error with json response parsing: json id\n")
  {
    if response.None? {
      return Some(LOADS_ERROR);
    }
    var root := response.value;
    if !root.Object? {
      return Some(OBJECT_ERROR);
    }
    var id := Get(root, "id");
    if !(id.Some? && id.value.Str?) {
      return Some(ID_ERROR);
    }
    var payload := Get(root, "payload");
    if !(payload.Some? && payload.value.Object?) {
      return Some(ID_ERROR);
    }
    report := ParsePayload(payload.value, cbf);
  }
}
