# Industrial gateway training programs: a verified model

The repository holds small C and C++ programs for an industrial gateway. This project models the parts that
decide something, in the form the programs have (classes whose methods change their fields, JSON nodes changed
in place through aliases, buffers, loops), and proves what the programs are for.

| Dafny files | program | what is modelled |
|---|---|---|
| `JsonTree`, `JsonWalk`, `JsonStop`, `JsonReader` | `json_example` | the recursive response reader and its callbacks |
| `JsonLookup`, `JsonAgreement` | both | the dotted-path response reader, and when it agrees with the walk |
| `JsonHeap`, `JsonOwnership`, `JsonRelease`, `RequestTrees`, `RequestBuilders`, `GatewayRequest` | both | the two request builders on a heap of JSON nodes, serializing, and the one free of the C builder |
| `Refcount`, `RefcountPlain` | `iotHub_mbtcp` | the reference counting macros as interleaved steps on a 32-bit cell |
| `Telemetry`, `MqttClient`, `MqttLoop`, `MqttDelivery`, `MqttReadings`, `MqttStates`, `MqttMessages` | `iotHub_mbtcp` | the telemetry loop: its own variables (`MqttLoop`), a state machine it follows step by step (`MqttClient`), and properties of whole runs and of every state in them |
| `CStrings`, `UuidText`, `UuidBuffers`, `UuidScan`, `UuidCollision` | `uuid` | UUID text in fixed buffers, the duplicate scan, and what it reports for any hash |
| `Decimal`, `TimeRequest` | `update-time` | the time callback over any sequence of chunks |
| `Words` | | machine words and `Option` |

The imperative members are proved equal to specification functions (`Walk`, `CppRequest`, `TextOf`,
`MqttClient.After`, ...); the lemmas then say what those functions mean without naming their bodies: by paths
through the document, by live references, by what a reader of the text gets back.

## What was found to be false, and the exact condition

- The two response readers do not always agree. `JsonAgreement.ReadersAgreeIff`, on every response: they agree if and
  only if nothing stands at value.value_data of the first element of payload_data and no path fires in the walk, or
  something stands there and exactly one path fires, one that leads to an integer equal, modulo 2^16, to what stands
  there once converted. For a response whose only integer under a "value_dat" key is a 16-bit one at value.value_data of
  the first element, `JsonAgreement.ReadersAgree` reduces this to: no `true`, `false` or `null` stands before it in its
  element or in its value object. `JsonAgreement.ReadersDisagree` has four concrete responses, one for each way to
  fail.
- A reference count is not freed exactly once in all runs. `Refcount.FreedOnceIffWithinBound`: it is, if and
  only if there were never more than 2^32 live references; `Refcount.FalseZeroPastBound` is a concrete failure.
- The plain `++`/`--` variant does not count like the atomic ones on every schedule.
  `RefcountPlain.PlainCountsIffBalanced`: it does, throughout, if and only if at every store the stores made by anyone
  since that holder's last load cancel out modulo 2^32. The condition is about the order of loads and stores alone;
  `RefcountPlain.LostDecrement` is a concrete failure.
- An accepted telemetry message's handle is not destroyed exactly once in all runs.
  `MqttDelivery.ExactlyOnceIffNeverReuses`: it is, if and only if no iteration reuses the slot of a message the
  SDK still holds. `FirstRoundNeverReuses` shows that this holds for the first 2^32 iterations of every run, and
  `SecondRoundCanReuse` that it can fail in the next one.
- Different words in the file of MACs do not always give no output. `UuidScan.DifferentMacsSilentIff`: they do, if and
  only if the hash separates them in the octets compared. No hash does so for all words the scan accepts:
  `UuidCollision.SomeDifferentMacsReported` finds, for every hash, two different words of at most 17 digits that a file
  holding both reports. Nothing of that kind is claimed for well-formed addresses: there are 2^48 of them, and the
  octets compared have room for all.

## Where the code and its documentation disagree

The model follows the code.

- `update-time/include/request.h:5-14` promises 0xFFFFFFFF for an error; `get_time` gives 0.
- `update-time/src/request.c:14` speaks of 2016 to 2030; the constants stand for days in December 2015 and
  December 2029.
- `refcount.h:9` says that 0xFFFFFFFF references remain when the count wrongly reaches zero; it is 2^32.
- `refcount.h:92-95` and `refcount.h:102` say that gcc uses the fetch-before functions and that
  `DEC_RETURN_ZERO` is 1 there; the code uses `__sync_sub_and_fetch` and 0, which is consistent.
- `uuid/readme.txt:42` promises no output when all MACs are different; that needs the hash to separate them.
- `uuid/src/uuid.c:60` comments on type 3; the 3 goes into octet 4, not the octet RFC 4122 gives it.
- `json_example/src/mb_data_message.cpp:190` and `:214` write an error text, but `err` is passed by value, so
  `parse_payload` never returns it: a document with an unsupported value is read without a report.
- `parse_payload` blames `payload_type` also when `payload_data` is not an array, and `message_start_parse`
  names the id also when `payload` is not an object; the model keeps the texts.

## Assumptions about the environment

- The SDK confirms each accepted message once, through the callback and the slot it was given: in some DoWork
  or, for what is left, in Destroy (`iothub_client_ll.h:115-119` names BECAUSE_DESTROY). What it does, and when,
  is otherwise unrestricted; a confirmation for a slot it holds nothing for does not happen.
- A REQ socket alternates: one reply for each request.
- A JSON object is an ordered list of entries; where a lemma needs distinct keys it says so. jansson tells
  integers from reals; parson has one kind of number, which holds the integers here exactly.
- parson: a value put into an object or array belongs to it, and freeing it frees what it owns
  (`parson.h:141-143`); dotted names are split at every dot, and setting one creates the objects between.
- `malloc` succeeds, except in the reference counter's create function.
- MD5 is any function from strings to 16 octets. A new UUID is any string.
- A number outside the range that C defines for the conversion from double to `uint16_t` converts to an
  arbitrary value, which is a parameter (`Reply.wild`).
- `size_t` has 32 bits, as on the gateway; `char` arrays hold characters below 256.
- The byte after the 13th of a time response is not a digit.
- A whole run of the telemetry loop is one whose environment does at some point deliver "quit"; nothing is said
  of a run that never ends except what holds after each of its iterations.

## Model

| member | source | states |
|---|---|---|
| `JsonReader.ParseObject` | json_example/src/mb_data_message.cpp:158-197 | The loop over an object, with its early return and recursion, calls back exactly the walk of that object. |
| `JsonReader.ParseArray` | json_example/src/mb_data_message.cpp:199-220 | The same for an array. |
| `JsonWalk.WalkIsExact` | json_example/src/mb_data_message.cpp:158-220 | For every tree, given the paths to integers under a "value_dat" key that pass, at every container, only entries before its first unsupported one, in document order: the walk calls back once for each of them, in that order, with the value modulo 2^16, and never else. |
| `JsonWalk.FiringPathsListed` | json_example/src/mb_data_message.cpp:158-220 | Such a list of paths exists for every tree. |
| `JsonWalk.SupportedKinds` | json_example/src/mb_data_message.cpp:163-217 | Spelt out: an object may hold anything but true, false and null, an array only objects and arrays; a reading is an integer in an object under a key whose first nine characters are value_dat. |
| `Words.ConversionsCongruent` | json_example/src/mb_data_message.cpp:176 | An integer passed as uint16_t, or stored as uint64_t, keeps its value modulo 2^16, or 2^64, also below zero. |
| `JsonStop.StopIsContained` | json_example/src/mb_data_message.cpp:187-192 | Putting an unsupported value before any entry of any container in any document removes exactly the calls of that container's entries from there on; the calls before and after the container stay. |
| `JsonStop.Surroundings` | json_example/src/mb_data_message.cpp:158-220 | The calls made around a container do not depend on what the container holds, and whether its own calls are made does not either. |
| `JsonReader.ParsePayload` | json_example/src/mb_data_message.cpp:222-240 | Calls back the walk of payload_data if payload_type is a string and payload_data an array, nothing otherwise, and reports an error exactly in the second case: a stop inside the data is never reported. |
| `JsonReader.MessageStartParse` | json_example/src/mb_data_message.cpp:109-156 | Calls back nothing and reports an error unless the document is an object with a string id and an object payload; otherwise as the payload says. |
| `JsonReader.PayloadErrorMeaning` | json_example/src/mb_data_message.cpp:222-240 | There is no error exactly if the payload has a string payload_type and an array payload_data. |
| `JsonAgreement.ResponseWalked` | json_example/src/mb_data_message.cpp:131-156 | A response is walked exactly if it is an object with a string id and an object payload that has a string payload_type and an array payload_data; then the calls are those of the walk of that array, otherwise there are none. |
| `JsonLookup.MessageParse` | iotHub_mbtcp/src/nb_zmq_mbtcp.c:131-175 | Returns 0 exactly when the callback is run, which is then once, with the value found at the fixed names; 1 otherwise. |
| `JsonLookup.ReadingIffAnswered` | iotHub_mbtcp/src/nb_zmq_mbtcp.c:146-175 | There is a reading if and only if the document is an object with an object payload with an array payload_data whose first element is an object with an object value with an entry value_data; the reading is that entry converted. An error reply has none. |
| `JsonLookup.ConversionTruncates` | iotHub_mbtcp/src/nb_zmq_mbtcp.c:160 | A number from 0 up to 65536 is truncated toward zero, one between -1 and 0 gives 0. |
| `JsonAgreement.LookupFinds` | iotHub_mbtcp/src/nb_zmq_mbtcp.c:152-166 | The lookup finds the number at value.value_data of the first element, whatever the order of keys and whatever else is in the response. |
| `JsonAgreement.SoleReading` | json_example/src/mb_data_message.cpp:158-220 | A document with one reading gives one call if the path to the reading passes, and none otherwise. |
| `JsonAgreement.ReadersAgreeIff` | iotHub_mbtcp/src/nb_zmq_mbtcp.c:131-175 | On every response, in terms of its entries: the two readers make the same calls if and only if there is no answer at value.value_data of the first element of payload_data and no path fires in the walk, or there is one and exactly one path fires, one that leads to an integer equal, modulo 2^16, to the answer once converted. |
| `JsonAgreement.AnswerFiresIff` | json_example/src/mb_data_message.cpp:158-220 | Whatever else the response contains, the walk reaches the number the lookup finds if and only if no true, false or null precedes it in its element or value object, and then calls back with it modulo 2^16. |
| `JsonAgreement.ReadersAgree` | iotHub_mbtcp/src/nb_zmq_mbtcp.c:131-175 | For a response whose only integer under a "value_dat" key is one of 16 bits at value.value_data of the first element, the lookup calls back once with it, and the walk does so too if and only if no true, false or null precedes it in its element or value object; otherwise the walk does not call back at all. |
| `JsonAgreement.ReadersDisagree` | json_example/src/mb_data_message.cpp:174-191 | What the readers make of four responses: a true before the reading, another name that starts with "value_dat", a number beyond 16 bits, a number written as a real. |
| `JsonLookup.DottedNames` | iotHub_mbtcp/src/nb_zmq_mbtcp.c:154-159 | Each of the two dotted names, split at its dot, is a name in the object found under the other. |
| `JsonHeap.WithMemberMeaning` | json_example/src/mb_data_message.cpp:64-84 | After a member is set its name leads to the value, every other name leads where it did, the names keep their order with a new one last, and they stay distinct. |
| `JsonOwnership.Adopt` | json_example/src/mb_data_message.cpp:75-84 | An object that shows its entries through the nodes it owns takes over a value: it then shows one more entry and owns the nodes of the value as well, each in its place. |
| `RequestBuilders.AppendOnly` | json_example/src/mb_data_message.cpp:77 | An empty array given one element shows the array of what the element shows, and owns what the element owned and itself. |
| `JsonRelease.Serialize` | iotHub_mbtcp/src/nb_zmq_mbtcp.c:110 | Reading the cells node by node gives the document they show, and is possible only while they show one. |
| `JsonRelease.JsonValueFree` | iotHub_mbtcp/src/nb_zmq_mbtcp.c:115 | A value that owns no node twice gives back every node it owns, in ownership order and once each, and none of them can be read afterwards. |
| `JsonRelease.OwnedShows` | iotHub_mbtcp/src/nb_zmq_mbtcp.c:115 | What a value shows depends on the nodes it owns and on no others. |
| `RequestBuilders.LinkPayload` | json_example/src/mb_data_message.cpp:83-84 | payload is put into root before payload_data is put into payload; the heap below root still shows the complete message. |
| `RequestBuilders.BuildCppRequest` | json_example/src/mb_data_message.cpp:52-84 | The nodes reachable from root show the pure request tree for the arguments. |
| `RequestBuilders.MbDataMessage.constructor` | json_example/src/mb_data_message.cpp:242-247 | Sets the target; callback keeps whatever the memory held. |
| `RequestBuilders.MbDataMessage.RegFunc` | json_example/src/mb_data_message.cpp:52-107 | Builds the request under the new id and sends the text read from its nodes, which is that of the arguments, then passes what the response contains to the callback, if there is one. |
| `RequestBuilders.MbDataMessage.ReadU16Register` | json_example/src/mb_data_message.cpp:34-36 | Sends a U16 Holding read; what comes back goes to the callback an earlier call has left. |
| `RequestBuilders.MbDataMessage.ReadU16RegisterCallback` | json_example/src/mb_data_message.cpp:38-41 | Sets the callback, sends a U16 Holding read, and the callback sees exactly what the response contains. |
| `RequestBuilders.MbDataMessage.ReadFltRegister` | json_example/src/mb_data_message.cpp:43-45 | As the plain read, with the FLT type. |
| `RequestBuilders.MbDataMessage.WriteU16Register` | json_example/src/mb_data_message.cpp:47-50 | Clears the callback and sends a U16 Holding write of the value. |
| `RequestTrees.RequestReadsBack` | json_example/src/mb_data_message.cpp:52-84 | Both readers find, in the document built for a write, the one value written, whatever the register; in the document built for any other command they find nothing. |
| `RequestTrees.CppRequestCarries` | json_example/src/mb_data_message.cpp:64-84 | For all arguments: what stands under id, payload_type, command, address.function, .slave_id, .register, .ip_address, .ip_port, value.value_type, and under value.value_data exactly if the command starts with write. |
| `RequestTrees.CppRequestNames` | json_example/src/mb_data_message.cpp:64-84 | And no other entries, in this order. |
| `RequestTrees.CppRequestInjective` | json_example/src/mb_data_message.cpp:52-84 | Two requests are the same document only if all their arguments are the same, the value of a write included. |
| `RequestTrees.CRequestCarries` | iotHub_mbtcp/src/nb_zmq_mbtcp.c:90-108 | The same for the C request: always a U16 Holding read from unit 1, with id, register, address and port under their names, and no value. |
| `RequestTrees.CRequestNames` | iotHub_mbtcp/src/nb_zmq_mbtcp.c:90-108 | And no other entries, in this order. |
| `RequestTrees.BuildersAgree` | iotHub_mbtcp/src/nb_zmq_mbtcp.c:73-108 | The two builders' documents for a U16 Holding read from unit 1 mean the same JSON up to the order of entries and the name of the port entry. |
| `GatewayRequest.BuildCRequest` | iotHub_mbtcp/src/nb_zmq_mbtcp.c:73-108 | The nodes below root show the pure request tree, and root owns each node made for it through exactly one chain of members and elements. |
| `GatewayRequest.DotSetString` | iotHub_mbtcp/src/nb_zmq_mbtcp.c:102 | Setting "value.value_type" creates the object between and the string in it, both owned by the element. |
| `GatewayRequest.CloseRequest` | iotHub_mbtcp/src/nb_zmq_mbtcp.c:106-108 | payload_type and payload_data go into payload and payload into root; root then owns its own members, the string, what data owned, payload and itself. |
| `GatewayRequest.Gateway.GetU16Register` | iotHub_mbtcp/src/nb_zmq_mbtcp.c:65-129 | Every node made is given back exactly once and cannot be read any more; the text sent, read from the tree before the free, is that of the request; the callback runs exactly when 0 is returned; one request, one reply. |
| `Refcount.Create` | iotHub_mbtcp/inc/azure_c_shared_utility/refcount.h:66-80 | Null exactly when malloc fails; otherwise a count of 1. |
| `Refcount.StepTracks` | iotHub_mbtcp/inc/azure_c_shared_utility/refcount.h:106-127 | One INC_REF or DEC_REF on any platform keeps the cell within its type and congruent to the live references modulo 2^32, and a DEC_REF says zero exactly when the references left are a multiple of 2^32. |
| `Refcount.CountTypes` | iotHub_mbtcp/inc/azure_c_shared_utility/refcount.h:58-64 | The count is a signed 32-bit number on Windows and an unsigned one elsewhere; DEC_RETURN_ZERO is 1 for C11 and 0 elsewhere. |
| `Refcount.HoldersBalance` | iotHub_mbtcp/inc/azure_c_shared_utility/refcount.h:105-127 | In every run each holder ends with the references it had and was given, less those it gave up. |
| `Refcount.Counted.DecRef` | iotHub_mbtcp/inc/azure_c_shared_utility/refcount.h:105-127 | Takes one from the bits of the count, with wrap-around at the width and sign of the platform's type; the result equals DEC_RETURN_ZERO exactly when the count has become 0. |
| `Refcount.VerdictIsZeroCell` | iotHub_mbtcp/inc/azure_c_shared_utility/refcount.h:105-127 | On every platform the comparison with DEC_RETURN_ZERO asks whether the cell has just become 0. |
| `Refcount.CounterTracksLive` | iotHub_mbtcp/inc/azure_c_shared_utility/refcount.h:105-127 | Along every interleaving of any number of holders the counter equals the live references modulo 2^32. |
| `Refcount.VerdictMeaning` | iotHub_mbtcp/inc/azure_c_shared_utility/refcount.h:105-127 | Each DEC_REF says zero exactly when the references then left are a multiple of 2^32. |
| `Refcount.PlatformsBisimilar` | iotHub_mbtcp/inc/azure_c_shared_utility/refcount.h:106-127 | Any two of the four variants, started with the same bits, give the same bits and the same verdicts at every step of every run. |
| `Refcount.AtMostOneZero` | iotHub_mbtcp/inc/azure_c_shared_utility/refcount.h:66-128 | With never more than 2^32 live references, at most one DEC_REF says zero, and one does if and only if everything was released. |
| `Refcount.FreedOnceIffWithinBound` | iotHub_mbtcp/inc/azure_c_shared_utility/refcount.h:7-12 | A run from create that releases everything says zero exactly once if and only if there were never more than 2^32 live references. |
| `Refcount.FalseZeroPastBound` | iotHub_mbtcp/inc/azure_c_shared_utility/refcount.h:7-12 | From 2^32 + 1 references the next DEC_REF says zero while 2^32 remain. |
| `RefcountPlain.PlainCountsIffBalanced` | iotHub_mbtcp/inc/azure_c_shared_utility/refcount.h:123-127 | Split into load and store, the plain variant holds the atomic counter's value throughout a schedule if and only if, at every store, the stores made since that holder's last load cancel out modulo 2^32. |
| `RefcountPlain.BalancedVerdicts` | iotHub_mbtcp/inc/azure_c_shared_utility/refcount.h:123-127 | On such a schedule every DEC_REF gets the verdict it gets from the atomic counter. |
| `RefcountPlain.SequentialRefinesAtomic` | iotHub_mbtcp/inc/azure_c_shared_utility/refcount.h:105-127 | On sequential runs the plain variant gives every DEC_REF the verdict, and the cell the bits, that each of the other variants gives from the same bits. |
| `RefcountPlain.LostDecrement` | iotHub_mbtcp/inc/azure_c_shared_utility/refcount.h:123-127 | Two holders that release at the same time can leave a count of 1 with nobody holding a reference and nobody told zero. |
| `Telemetry.PrintText` | iotHub_mbtcp/src/iothub_client_NB301_mqtt.c:252 | The 1024-byte buffer ends up holding the whole text of the four readings. |
| `Telemetry.TextFits` | iotHub_mbtcp/src/iothub_client_NB301_mqtt.c:27 | The text and its terminator fit the buffer for all readings. |
| `Telemetry.TextDecodes` | iotHub_mbtcp/src/iothub_client_NB301_mqtt.c:252 | For a reader of JSON objects that knows nothing of the program, the text is an object with deviceId device2 and, under oilPressure, oilTemperature, outputfreq and outputvoltage, the four values, in this order. |
| `Telemetry.TextInjective` | iotHub_mbtcp/src/iothub_client_NB301_mqtt.c:252 | Different readings have different texts. |
| `Decimal.ValueOrder` | update-time/src/request.c:13 | Decimal texts of one length are ordered by value as by character, so each digit stands for its own number. |
| `MqttLoop.Client.constructor` | iotHub_mbtcp/src/iothub_client_NB301_mqtt.c:65-68 | The program starts with the initial readings, the counters at 0 and an uninitialised messages array. |
| `MqttLoop.Client.Exchange` | iotHub_mbtcp/src/nb_zmq_mbtcp.c:65-121 | One call of get_u16_register: one more request document on the socket, for that register and the configured target, and the calls its reply causes. |
| `MqttLoop.Client.Poll` | iotHub_mbtcp/src/iothub_client_NB301_mqtt.c:246-249 | Three exchanges, for registers 1, 2 and 3; each register variable takes the value its own exchange brought, if any. |
| `MqttLoop.Client.SendMessage` | iotHub_mbtcp/src/iothub_client_NB301_mqtt.c:252-279 | The text read back from the buffer becomes a message in the slot of the counter; the handle field is assigned also when creation fails; a refused message is not pending. |
| `MqttLoop.Client.SendConfirmationCallback` | iotHub_mbtcp/src/iothub_client_NB301_mqtt.c:184-191 | Counts the confirmation and destroys the handle the slot holds at that time. |
| `MqttLoop.Client.ReceiveMessageCallback` | iotHub_mbtcp/src/iothub_client_NB301_mqtt.c:121-182 | Stops the loop exactly for the four bytes "quit"; counts every message. |
| `MqttLoop.Client.RunIteration` | iotHub_mbtcp/src/iothub_client_NB301_mqtt.c:242-286 | The loop body on the program's own variables is one step of the state machine. |
| `MqttLoop.Client.RunLoop` | iotHub_mbtcp/src/iothub_client_NB301_mqtt.c:239-287 | The do-while loop leaves the state the state machine reaches on the same answers of the environment. |
| `MqttLoop.Client.Run` | iotHub_mbtcp/src/iothub_client_NB301_mqtt.c:193-304 | The whole run: with three further rounds of DoWork and Destroy after the loop, or, when a call before the loop fails, no change at all; what went out on the socket is one document for each register asked for. |
| `MqttMessages.MessagesAreThoseDue` | iotHub_mbtcp/src/iothub_client_NB301_mqtt.c:243-279 | The messages ever made are, in order, exactly one for each iteration whose 32-bit counter is below 250 and in which the SDK can create one, in the slot of that counter value, accepted if the SDK accepts it. |
| `MqttMessages.DueAreMade` | iotHub_mbtcp/src/iothub_client_NB301_mqtt.c:243-279 | Each of them belongs to such an iteration, later ones to later iterations. |
| `MqttMessages.MadeAreDue` | iotHub_mbtcp/src/iothub_client_NB301_mqtt.c:243-279 | Each such iteration has its message. |
| `MqttMessages.EndMakesNone` | iotHub_mbtcp/src/iothub_client_NB301_mqtt.c:294-300 | The last rounds and Destroy make none. |
| `MqttStates.IterationEnds` | iotHub_mbtcp/src/iothub_client_NB301_mqtt.c:242-287 | In an iteration the message is made before DoWork delivers its events; then the counter goes up by one modulo 2^32. |
| `MqttStates.MessagesConserved` | iotHub_mbtcp/src/iothub_client_NB301_mqtt.c:184-300 | When the loop condition is read, after the polls, after each event of an iteration, of the last rounds and of Destroy: messages made = held by the SDK + confirmed + refused, where confirmed counts the confirmations that have happened, and callbackCounter is that number. |
| `MqttStates.ReceivedCounted` | iotHub_mbtcp/src/iothub_client_NB301_mqtt.c:121-182 | At each of these moments receiveContext is the number of messages delivered so far, those of the last rounds included. |
| `MqttStates.EndAccounts` | iotHub_mbtcp/src/iothub_client_NB301_mqtt.c:184-300 | When Destroy has confirmed what was left, messages made = confirmed + refused, and all deliveries are counted. |
| `MqttClient.LeavesOnlyOnQuit` | iotHub_mbtcp/src/iothub_client_NB301_mqtt.c:150-153 | The loop ends after an iteration if and only if "quit" was delivered in it and in none before. |
| `MqttClient.DoWorkCalls` | iotHub_mbtcp/src/iothub_client_NB301_mqtt.c:283-297 | DoWork has been called once an iteration and three times more. |
| `MqttDelivery.RunIsSound` | iotHub_mbtcp/src/iothub_client_NB301_mqtt.c:239-287 | As long as no slot in use is reused: each pending slot names its own message and carries its own tracking id, and every accepted message is either in flight or destroyed exactly once. |
| `MqttStates.AlwaysSound` | iotHub_mbtcp/src/iothub_client_NB301_mqtt.c:184-300 | The soundness of RunIsSound holds at every moment of such a run, inside iterations and after the loop. |
| `MqttStates.PendingSlotsAreOwn` | iotHub_mbtcp/src/iothub_client_NB301_mqtt.c:253-271 | So, at every moment of such a run, whatever slot the SDK can still confirm holds the handle of a message made in that slot and not yet destroyed, carries the slot's number as tracking id, and is waited for once. |
| `MqttStates.HandlePerConfirmation` | iotHub_mbtcp/src/iothub_client_NB301_mqtt.c:184-191 | At every moment of such a run as many handles have been destroyed as messages confirmed. |
| `MqttDelivery.ExactlyOnceIffNeverReuses` | iotHub_mbtcp/src/iothub_client_NB301_mqtt.c:184-300 | At the end of a run each accepted message's handle has been destroyed exactly once, and no refused one's ever, if and only if no iteration reused the slot of a message still held. |
| `MqttDelivery.FirstRoundNeverReuses` | iotHub_mbtcp/src/iothub_client_NB301_mqtt.c:240-287 | No run of up to 2^32 iterations reuses a slot in use. |
| `MqttDelivery.FirstRoundExactlyOnce` | iotHub_mbtcp/src/iothub_client_NB301_mqtt.c:184-300 | So every such run destroys each accepted message's handle exactly once. |
| `MqttDelivery.FirstRoundSlots` | iotHub_mbtcp/src/iothub_client_NB301_mqtt.c:31 | In such a run at most 250 messages are made, each in a slot of its own. |
| `MqttDelivery.SecondRoundCanReuse` | iotHub_mbtcp/src/iothub_client_NB301_mqtt.c:240-287 | With one iteration more there is a complete run, drained by Destroy, that does not. |
| `MqttDelivery.RunInOrder` | iotHub_mbtcp/src/iothub_client_NB301_mqtt.c:243-286 | In every run, of any length, each message is made in the slot of its iteration's counter value, which is below 250. |
| `MqttReadings.LastGoodValues` | iotHub_mbtcp/src/iothub_client_NB301_mqtt.c:65-81 | Every message ever made carries, for each of the three polled registers, the value of the latest poll up to its own iteration that returned 0, or the initial constant if none did; the voltage is always the constant. |
| `MqttReadings.InitialValues` | iotHub_mbtcp/src/iothub_client_NB301_mqtt.c:65-68 | The initial constants are 11, 11 and 50 for the polled registers and 99 for the voltage. |
| `MqttReadings.ExchangesMade` | iotHub_mbtcp/src/iothub_client_NB301_mqtt.c:243-249 | The requests of a whole run are registers 1, 2 and 3 for each iteration that sends, and none for the others. |
| `UuidBuffers.WriteHex` | uuid/src/uuid.c:64-70 | The loop of overlapping snprintf calls stays inside the 33 bytes and leaves two digits an octet and a NUL. |
| `UuidBuffers.AddHyphen` | uuid/src/uuid.c:11-41 | The strncpy and strcat calls stay inside the 44- and 16-byte buffers and leave the digits grouped by hyphens. |
| `UuidBuffers.GenHashString` | uuid/src/uuid.c:46-72 | The returned buffer holds the text of the masked hash of the space identifier followed by the argument. |
| `UuidText.Masked` | uuid/src/uuid.c:59-62 | The masks leave every octet but 4 and 8 as it was. |
| `UuidText.TextRoundTrip` | uuid/src/uuid.c:11-72 | Stripping the hyphens and decoding the digits gives back the masked digest. |
| `UuidText.SameTextIffSameFreeBits` | uuid/src/uuid.c:59-72 | Two digests give the same text if and only if they agree outside the high half of octet 4 and the top three bits of octet 8. |
| `UuidText.TextShape` | uuid/src/uuid.c:11-72 | 36 characters shaped 8-4-4-4-12, a 3 as the high digit of octet 4, and the variant bits of section 4.1.1 of RFC 4122 in octet 8. |
| `UuidText.HexDigitOrder` | uuid/src/uuid.c:68 | The sixteen hexadecimal digits stand for their numbers in character order. |
| `UuidScan.ScanRow` | uuid/src/uuid_test.c:43-50 | The inner loop prints one line for each other position whose first 16 characters agree. |
| `UuidScan.GetMacTest` | uuid/src/uuid_test.c:17-66 | For the words of the file: returns 1 if and only if the file cannot be opened or the UUIDs at two different positions agree on masked octets 0 to 6, and prints every position of a word that occurs twice; an empty file gives 0 and no output. |
| `UuidScan.ScanIsExact` | uuid/src/uuid_test.c:40-52 | Something is printed if and only if two different positions agree on masked octets 0 to 6. |
| `UuidScan.ScanPrints` | uuid/src/uuid_test.c:40-52 | A line is printed if and only if it is that of a position whose text clashes with another's. |
| `UuidScan.ScanRepeats` | uuid/src/uuid_test.c:40-52 | The line of a position is printed as often as its text clashes with another one. |
| `UuidScan.ScanInOrder` | uuid/src/uuid_test.c:40-52 | The lines come in the order of their positions. |
| `UuidScan.FirstSixteen` | uuid/src/uuid_test.c:45 | The 16 characters compared are masked octets 0 to 6. |
| `UuidScan.RepeatedMacReported` | uuid/readme.txt:41 | A MAC that occurs twice is reported, whatever the hash. |
| `UuidScan.SilenceMeansDistinct` | uuid/src/uuid_test.c:34-58 | No output means that all UUIDs and all MACs are pairwise different. |
| `UuidScan.DifferentMacsSilentIff` | uuid/readme.txt:42 | Different MACs give no output if and only if the hash separates them in the octets compared. |
| `UuidCollision.SomeDifferentMacsReported` | uuid/readme.txt:42 | For every hash there are two different words of at most 17 digits that are reported when a file holds both. |
| `TimeRequest.TimeCell.RspCallback` | update-time/src/request.c:9-19 | Every chunk is accepted whole; the cell is at all times what the sequence of chunks seen so far determines. |
| `TimeRequest.TimeCell.GetTime` | update-time/src/request.c:21-24 | Reads the cell. |
| `TimeRequest.StoredExactly` | update-time/src/request.c:12-17 | A 13-byte chunk leaves the time t, not 0, if and only if t is strictly inside the window and the chunk is its plain decimal form. |
| `TimeRequest.NoSaturation` | update-time/src/request.c:13-16 | No 13-byte chunk saturates the conversion; a negative number becomes an unsigned one above the window and is stored as 0. |
| `TimeRequest.WindowRoundTrip` | update-time/src/request.c:12-17 | Every time in the window prints to exactly 13 digits and is read back. |
| `TimeRequest.LastChunkDecides` | update-time/src/request.c:7-24 | The time depends on the last 13-byte chunk alone. |
| `TimeRequest.TimeIsZeroOrInWindow` | update-time/src/request.c:15-16 | After any chunks the time is 0 or strictly inside the window, and in the second case it is what the last 13-byte chunk spells. |

## Left out

- The text of JSON documents: parsing and printing are the libraries'; documents are trees, and a text is identified
  with the tree that was read from the nodes to make it.
- The release of nodes in the C++ builder (`mb_data_message.cpp:97-99`), the `json_decref` of the borrowed payload
  in `parse_payload`, and the heap-allocated `err` texts: exactly-once release does not hold there, and nothing is
  claimed about it.
- RequestBuilders.MbDataMessage.constructor: takes what the uninitialised callback field holds as a parameter, so
  that a plain read before any other call is modelled for a null or a valid callback only.
- JsonLookup.MessageParse: does not model the texts printed when there is no reading: the code then hands `status`
  and `error_string` to `puts`, and a null pointer when one of them is missing or not a string
  (`nb_zmq_mbtcp.c:167-170`); a reply of that kind is outside it.
- GatewayRequest.Gateway.GetU16Register: does not model the nodes of the document parsed from the reply, nor that
  this document is not freed when its root is no object.
- RequestBuilders.MbDataMessage.RegFunc: does not model the release of its nodes, see above.
- MqttLoop.Client.Run: `callbackCounter` and `receiveContext` are unbounded, not C `int`s; the connection string is
  not read.
- UuidScan.GetMacTest: words longer than 17 characters are outside it, and so are more than 500, the size of the
  arrays. The entry an empty file leaves uninitialised is a parameter, assumed to hold a NUL.
- UuidBuffers.AddHyphen: does not model the `free` of its argument, nor `free` of the hashes in the scan.
- TimeRequest.TimeCell.RspCallback: does not read past the chunk, see the assumption on the byte that follows.
- `get_mac_addr`, the reading of the connection string, `init_ip_port` and the argument checks: file and argument
  handling.
- Sockets, curl and TLS setup, sleeping, printing, logging, message properties and the gateway's Modbus side.
- MD5, libuuid, and everything in the SDK headers that has no body in the repository.
- The `SHA_Ch` and `SHA_Maj` macros and the like: single bit-vector facts.
