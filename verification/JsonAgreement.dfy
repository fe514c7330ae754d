/**
  * The two readers of a response side by side: the recursive walk of json_example/src/mb_data_message.cpp and the
  * direct lookup of iotHub_mbtcp/src/nb_zmq_mbtcp.c, and when they agree.
  */
module JsonAgreement {
  import opened Words
  import opened JsonTree
  import opened JsonWalk
  import opened JsonReader
  import opened JsonLookup
  import opened RequestTrees

  /** An object has distinct keys and entry i of it is the given one. */
  predicate HasEntry(t: Json, i: nat, key: string) {
    t.Object? && UniqueKeys(t.entries) && i < |t.entries| && t.entries[i].key == key
  }

  /**
    * A well-headed response whose payload_data is items, with n at value.value_data of the first element:
    * "value" is its entry i and "value_data" is entry j of that.
    */
  predicate Answers(response: Json, items: seq<Json>, i: nat, j: nat, n: int) {
    && WellHeaded(Some(response))
    && var payload := Get(response, "payload").value;
    && Get(payload, "payload_type").Some? && Get(payload, "payload_type").value.Str?
    && Get(payload, "payload_data") == Some(Array(items))
    && |items| > 0 && HasEntry(items[0], i, "value")
    && HasEntry(items[0].entries[i].val, j, "value_data")
    && items[0].entries[i].val.entries[j].val == Int(n)
  }

  /** No true, false or null among the first entries of an object, up to and including entry k. */
  predicate PlainUpTo(t: Json, k: nat)
    requires t.Object? && k < |t.entries|
  {
    forall m :: 0 <= m <= k ==> !(t.entries[m].val.True? || t.entries[m].val.False? || t.entries[m].val.Null?)
  }

  /** The direct lookup finds the number, whatever else the response contains. */
  lemma LookupFinds(response: Json, items: seq<Json>, i: nat, j: nat, n: int, wild: uint16)
    requires Answers(response, items, i, j, n) && 0 <= n < UINT16_VALUES
    ensures LookupReading(Reply(Some(response), wild)) == Some(n)
  {
    FirstReading(items[0], i, j);
    ReadingFrom(Reply(Some(response), wild), items, n);
  }

  lemma FirstReading(first: Json, i: nat, j: nat)
    requires HasEntry(first, i, "value") && HasEntry(first.entries[i].val, j, "value_data")
    ensures Get(first, "value") == Some(first.entries[i].val)
    ensures Get(first.entries[i].val, "value_data") == Some(first.entries[i].val.entries[j].val)
  {
    GetUnique(first.entries, i);
    GetUnique(first.entries[i].val.entries, j);
  }

  lemma ReadingFrom(reply: Reply, items: seq<Json>, n: int)
    requires reply.doc.Some? && Nested(reply.doc.value, "payload", "payload_data") == Some(Array(items)) && items != []
    requires Nested(items[0], "value", "value_data") == Some(Int(n)) && 0 <= n < UINT16_VALUES
    ensures LookupReading(reply) == Some(n)
  {
    assert (n as real).Floor == n;
  }

  lemma PayloadOf(response: Json, items: seq<Json>, i: nat, j: nat, n: int)
    requires Answers(response, items, i, j, n)
    ensures ResponseCalls(Some(response)) == Walk(Array(items))
  {
  }

  /** A tree with a single reading calls back with it if its path passes, and not at all otherwise. */
  lemma SoleReading(t: Json, p: Path)
    requires IsReadingPath(t, p) && forall q :: IsReadingPath(t, q) ==> q == p
    ensures Walk(t) == if Passes(t, p) then [ReadingAt(t, p)] else []
  {
    var ps := if Passes(t, p) then [p] else [];
    assert ListsFiringPaths(t, ps);
    WalkIsExact(t, ps);
  }

  lemma AnswerPath(items: seq<Json>, i: nat, j: nat)
    requires |items| > 0 && items[0].Object? && i < |items[0].entries|
    requires var v := items[0].entries[i].val; v.Object? && j < |v.entries|
    ensures var p := [0, i, j];
            && At(Array(items), p[..2]) == Some(items[0].entries[i].val)
            && (Passes(Array(items), p) <==> PlainUpTo(items[0], i) && PlainUpTo(items[0].entries[i].val, j))
  {
    var t, p := Array(items), [0, i, j];
    var first, value := items[0], items[0].entries[i].val;
    assert p[1..] == [i, j] && [i, j][1..] == [j];
    assert p[..0] == [] && p[..1] == [0] && p[..2] == [0, i];
    assert [0][1..] == [] && [0, i][1..] == [i] && [i][1..] == [];
    assert At(t, [0]) == Some(first) && At(t, [0, i]) == At(first, [i]) == At(value, []) == Some(value);
    assert PassesStep(t, p, 0);
    ClearIsPlain(first, i);
    ClearIsPlain(value, j);
    assert PassesStep(t, p, 1) <==> PlainUpTo(first, i);
    assert PassesStep(t, p, 2) <==> PlainUpTo(value, j);
  }

  lemma ClearIsPlain(t: Json, k: nat)
    requires t.Object? && k < |t.entries|
    ensures Clear(t, 0, k) <==> PlainUpTo(t, k)
  {
    if Clear(t, 0, k) {
      forall m | 0 <= m <= k
        ensures !(t.entries[m].val.True? || t.entries[m].val.False? || t.entries[m].val.Null?)
      {
        assert Supported(t, m);
      }
    }
  }

  /** The integer the path leads to is the only one under a "value_dat" key. */
  ghost predicate OnlyReading(items: seq<Json>, p: Path) {
    forall q :: IsReadingPath(Array(items), q) ==> q == p
  }

  /** No true, false or null stands before entry i of the first element or before entry j of the object there. */
  predicate NothingBefore(items: seq<Json>, i: nat, j: nat)
    requires |items| > 0 && items[0].Object? && i < |items[0].entries|
    requires items[0].entries[i].val.Object? && j < |items[0].entries[i].val.entries|
  {
    PlainUpTo(items[0], i) && PlainUpTo(items[0].entries[i].val, j)
  }

  /** The calls of the two readers on the same response. */
  predicate BothRead(response: Json, wild: uint16, looked: seq<uint16>, walked: seq<uint16>) {
    looked == LookupCalls(Reply(Some(response), wild)) && walked == ResponseCalls(Some(response))
  }

  lemma FitsUint16(n: int)
    requires 0 <= n < UINT16_VALUES
    ensures ToUint16(n) == n
  {
  }

  /**
    * When the readers agree. If the reading is the only integer under a "value_dat" key, the lookup always
    * calls back once with it; the walk does so too if and only if no true, false or null stands before the
    * reading in its element or before it in its value object, and otherwise does not call back at all.
    */
  lemma {:induction false} ReadersAgree(response: Json, items: seq<Json>, i: nat, j: nat, n: int, wild: uint16,
                                        looked: seq<uint16>, walked: seq<uint16>)
    requires Answers(response, items, i, j, n) && 0 <= n < UINT16_VALUES && OnlyReading(items, [0, i, j])
    requires BothRead(response, wild, looked, walked)
    ensures looked == [n]
    ensures walked == if NothingBefore(items, i, j) then [n] else []
    ensures walked == looked <==> NothingBefore(items, i, j)
  {
    hide LookupReading, ToUint16, Walk, ReadingAt, IsReadingPath, Passes, PlainUpTo;
    FitsUint16(n);
    LookupFinds(response, items, i, j, n, wild);
    AnswerPath(items, i, j);
    AnswerIsRead(items, i, j, n);
    SoleReading(Array(items), [0, i, j]);
    PayloadOf(response, items, i, j, n);
  }

  lemma AnswerIsRead(items: seq<Json>, i: nat, j: nat, n: int)
    requires |items| > 0 && HasEntry(items[0], i, "value")
    requires HasEntry(items[0].entries[i].val, j, "value_data")
    requires items[0].entries[i].val.entries[j].val == Int(n)
    ensures IsReadingPath(Array(items), [0, i, j]) && ReadingAt(Array(items), [0, i, j]) == ToUint16(n)
  {
    AnswerPath(items, i, j);
    assert READING_KEY <= "value_data";
    assert IsReading(items[0].entries[i].val, j);
  }

  // ----- Any response -----

  /**
    * The walk goes through items: the response is an object with a string "id" and an object "payload" that has a
    * string "payload_type" and items under "payload_data".
    */
  ghost predicate Walked(response: Json, items: seq<Json>) {
    exists id, payload, typ ::
      && Field(response, "id", Str(id)) && Field(response, "payload", payload)
      && Field(payload, "payload_type", Str(typ)) && Field(payload, "payload_data", Array(items))
  }

  /** The walk of the response reaches the reading at p and calls back. */
  ghost predicate FiresIn(response: Json, p: Path) {
    exists items :: Walked(response, items) && Fires(Array(items), p)
  }

  /** The walk of the response calls back at p, with v, and at no other path. */
  ghost predicate OnlyFires(response: Json, p: Path, v: uint16) {
    && (exists items :: Walked(response, items) && Fires(Array(items), p) && ReadingAt(Array(items), p) == v)
    && forall q :: FiresIn(response, q) ==> q == p
  }

  /** The array the walk goes through, if the response gets that far. */
  function WalkedData(response: Json): Option<seq<Json>> {
    if !WellHeaded(Some(response)) then None
    else
      var payload := Get(response, "payload").value;
      match (Get(payload, "payload_type"), Get(payload, "payload_data"))
      case (Some(Str(_)), Some(Array(items))) => Some(items)
      case _ => None
  }

  lemma WalkedIsData(response: Json, items: seq<Json>)
    ensures Walked(response, items) <==> WalkedData(response) == Some(items)
  {
    hide Field;
    forall t, key, v
      ensures Get(t, key) == Some(v) <==> Field(t, key, v)
    {
      GetIsField(t, key, v);
    }
    if WalkedData(response) == Some(items) {
      var payload := Get(response, "payload").value;
      assert Field(response, "id", Str(Get(response, "id").value.text));
      assert Field(response, "payload", payload);
      assert Field(payload, "payload_type", Str(Get(payload, "payload_type").value.text));
    }
  }

  /** The calls for a response are those of the walk of that array, and none if the response does not get that far. */
  lemma {:induction false} ResponseWalked(response: Json, items: seq<Json>)
    ensures Walked(response, items) ==> ResponseCalls(Some(response)) == Walk(Array(items))
    ensures (forall its :: !Walked(response, its)) ==> ResponseCalls(Some(response)) == []
  {
    hide Walk, Walked;
    WalkedIsData(response, items);
    if WalkedData(response).Some? {
      WalkedIsData(response, WalkedData(response).value);
    }
  }

  /**
    * On every response whatever: the readers agree if and only if the document has no answer and no path fires, or it
    * has an answer and exactly one path fires, one that leads to an integer that is, modulo 2^16, what the answer
    * converts to.
    */
  lemma {:induction false} ReadersAgreeIff(response: Json, wild: uint16, looked: seq<uint16>, walked: seq<uint16>)
    requires BothRead(response, wild, looked, walked)
    ensures looked == walked <==>
              || ((forall v :: !Answered(response, v)) && forall p :: !FiresIn(response, p))
              || (exists v, p :: Answered(response, v) && OnlyFires(response, p, DoubleToUint16(NumberOf(v), wild)))
  {
    hide Fires, ReadingAt, Walk, DoubleToUint16, NumberOf, Answered, Walked, AnswerOf, WalkedData, ResponseCalls;
    LookupCase(response, wild);
    WalkCase(response);
    if looked == walked && looked != [] {
      var v :| Answered(response, v) && looked == [DoubleToUint16(NumberOf(v), wild)];
      var p :| OnlyFires(response, p, looked[0]);
    }
  }

  lemma LookupCase(response: Json, wild: uint16)
    ensures var looked := LookupCalls(Reply(Some(response), wild));
            && |looked| <= 1
            && (looked == [] <==> forall v :: !Answered(response, v))
            && (looked != [] ==> exists v :: Answered(response, v) && looked == [DoubleToUint16(NumberOf(v), wild)])
            && (forall v :: Answered(response, v) ==> looked == [DoubleToUint16(NumberOf(v), wild)])
  {
    hide AnswerOf, Answered, DoubleToUint16, NumberOf;
    forall v
      ensures AnswerOf(response) == Some(v) <==> Answered(response, v)
    {
      AnswerIsAnswered(response, v);
    }
    if AnswerOf(response).Some? {
      assert Answered(response, AnswerOf(response).value);
    }
  }

  lemma WalkCase(response: Json)
    ensures var walked := ResponseCalls(Some(response));
            && (walked == [] <==> forall p :: !FiresIn(response, p))
            && (|walked| == 1 ==> exists p :: OnlyFires(response, p, walked[0]))
            && (forall p, v: uint16 :: OnlyFires(response, p, v) ==> walked == [v])
  {
    hide Fires, ReadingAt, Walk, Walked, ResponseCalls;
    forall items
      ensures Walked(response, items) <==> WalkedData(response) == Some(items)
    {
      WalkedIsData(response, items);
    }
    if WalkedData(response).Some? {
      var items := WalkedData(response).value;
      ResponseWalked(response, items);
      var data := Array(items);
      var ps := FiringPathsListed(data);
      WalkIsExact(data, ps);
      assert forall p :: FiresIn(response, p) <==> p in ps;
      if |ps| > 0 {
        assert ps[0] in ps;
      }
      if |ps| > 1 {
        assert ps[1] in ps && Before(ps[0], ps[1]);
        BeforeIrreflexive(ps[0]);
      } else if |ps| == 1 {
        assert OnlyFires(response, ps[0], Walk(data)[0]);
      }
    } else {
      ResponseWalked(response, []);
    }
  }

  /**
    * Whatever else the response contains, the walk reaches the number the lookup finds if and only if no true, false
    * or null stands before it in its element or in its value object; it is then among the calls, modulo 2^16.
    */
  lemma {:induction false} AnswerFiresIff(response: Json, items: seq<Json>, i: nat, j: nat, n: int)
    requires Answers(response, items, i, j, n)
    ensures FiresIn(response, [0, i, j]) <==> NothingBefore(items, i, j)
    ensures NothingBefore(items, i, j) ==> ToUint16(n) in ResponseCalls(Some(response))
  {
    var p := [0, i, j];
    AnswerPath(items, i, j);
    AnswerIsRead(items, i, j, n);
    PayloadOf(response, items, i, j, n);
    assert WalkedData(response) == Some(items);
    forall its
      ensures Walked(response, its) <==> its == items
    {
      WalkedIsData(response, its);
    }
    if NothingBefore(items, i, j) {
      var ps := FiringPathsListed(Array(items));
      assert Fires(Array(items), p);
      WalkIsExact(Array(items), ps);
      var k :| 0 <= k < |ps| && ps[k] == p;
      assert Walk(Array(items))[k] == ToUint16(n);
    }
  }

  // ----- Four ways to disagree -----

  /** A response whose first element holds the given entries and then one value under one key in "value". */
  function Response(before: seq<Entry>, key: string, val: Json): Json {
    Message("1", Object(before + [Entry("value", Object([Entry(key, val)]))]))
  }

  lemma ResponseLookup(before: seq<Entry>, key: string, val: Json, wild: uint16)
    requires UniqueKeys(before + [Entry("value", Object([]))])
    ensures LookupCalls(Reply(Some(Response(before, key, val)), wild))
            == if key == "value_data" then [DoubleToUint16(NumberOf(val), wild)] else []
  {
    hide DoubleToUint16, NumberOf, ResponseCalls, Walk;
    var value := Object([Entry(key, val)]);
    var element := Object(before + [Entry("value", value)]);
    RequestPayload("1", element);
    assert forall i :: 0 <= i < |element.entries| ==>
      element.entries[i].key == (before + [Entry("value", Object([]))])[i].key;
    GetUnique(element.entries, |before|);
    GetUnique(value.entries, 0);
  }

  lemma ResponseWalk(before: seq<Entry>, key: string, val: Json)
    requires before == [] || (|before| == 1 && before[0].val == True)
    requires val.Int? || val.Real?
    ensures ResponseCalls(Some(Response(before, key, val)))
            == if before == [] && val.Int? && IsReadingKey(key) then [ToUint16(val.n)] else []
  {
    hide ResponseCalls, IsReadingKey;
    var value := Object([Entry(key, val)]);
    var element := Object(before + [Entry("value", value)]);
    RequestPayload("1", element);
    SpanStep(Array([element]), 0);
    SpanStep(element, 0);
    SpanStep(value, 0);
  }

  /**
    * A true in front of the reading; another name that starts with "value_dat"; a number beyond 16 bits; a number
    * written as a real: what the lookup and the walk make of each. On the third they differ unless the conversion
    * happens to leave 7, on the others always.
    */
  lemma ReadersDisagree(wild: uint16)
    ensures BothRead(Response([Entry("done", True)], "value_data", Int(7)), wild, [7], [])
    ensures BothRead(Response([], "value_dat", Int(7)), wild, [], [7])
    ensures BothRead(Response([], "value_data", Int(65543)), wild, [wild], [7])
    ensures BothRead(Response([], "value_data", Real(7.0)), wild, [7], [])
  {
    hide Response, LookupCalls, ResponseCalls;
    var done := [Entry("done", True)];
    assert (7 as real).Floor == 7 && (7.0).Floor == 7;
    ResponseLookup(done, "value_data", Int(7), wild);
    ResponseWalk(done, "value_data", Int(7));
    assert READING_KEY <= "value_dat" && READING_KEY <= "value_data";
    ResponseLookup([], "value_dat", Int(7), wild);
    ResponseWalk([], "value_dat", Int(7));
    ResponseLookup([], "value_data", Int(65543), wild);
    ResponseWalk([], "value_data", Int(65543));
    ResponseLookup([], "value_data", Real(7.0), wild);
    ResponseWalk([], "value_data", Real(7.0));
  }
}
