# Formal models of seven firmware components

This Dafny project models the self-contained algorithmic parts of an IoT firmware and proves what
they are for. It is checked with `dafny verify dfyconfig.toml`.

**MQTT client** (`Mqtt*.dfy`, for `libraries/mqtt_patched.c`). The output ring buffer, the fixed
pool of request slots threaded into a delta-encoded timeout queue, the packet builders, the
resumable receive parser and the connection state machine, as classes over arrays. Module by
module: `MqttRing` (ring), `MqttMessages` (packets, space check), `MqttDeadlines` (what the queue
means), `MqttRequests` (the pool that refines it), `MqttReceive` (the specification of receiving),
`MqttSegments`, `MqttStreams` and `MqttCuts` (independence of TCP segmentation, and which cuts are
accepted), `MqttOutput` (the history of the output stream), `MqttAccounts` (what becomes of
callbacks), `MqttCalls` (the packets of publish, subscribe and connect), `MqttMachine` (the client
as a machine over values), `MqttBehaviours` (what holds of every run of the machine),
`MqttIdle` (when an idle connection pings or ends), `MqttWire` (readers of MQTT 3.1.1 that know
nothing of the client, and what they find in its packets), `MqttClient` (the client, every callback
and call), `MqttRuns` (the client runs as the machine does). Constants are those of the
source and of `src/win32/stubs/lwip/mqtt_opts.h`: a ring of 2048 bytes, a receive buffer of 256,
16 slots, timeouts of 30 s and 100 s, a timer tick every 5 s.

**Script expressions** (`Script*.dfy`, for `src/cmnds/cmd_if.c`). An evaluator on raw text that
splits at the rightmost loosest operator. `ScriptOperators` is the search, `ScriptExpressions` the
evaluator, `ScriptSyntax` what expressions look like and how the search runs over them,
`ScriptSigns` where signs may stand, `ScriptCounts` that evaluation loses no character,
`ScriptMeaning` the proof that text evaluation is tree evaluation, `ScriptGrammar` the conventional
layered grammar with operators by name, and that evaluation follows it.

**JSON** (`Json*.dfy`, for `src/cJSON/cJSON.c`). `JsonText` defines values and printed text,
`JsonUnicode` and `JsonStrings` the escapes, `JsonParser` what a text stands for, `JsonGrammar` the
grammar of RFC 8259 and what the parser makes of its texts, `JsonRoundTrip` that printing writes such
texts and parsing undoes it. `JsonList` has the items of the heap with their doubly linked lists
of children and what they stand for; `JsonChildren` and `JsonReader` the parser that builds them,
`JsonPrinter` the growing buffer they are printed to, `JsonItems` both together, `JsonCompare`
comparison and `JsonDuplicate` duplication.

**SHA-256** (`Sha*.dfy`, for `platforms/BL616/utils_sha256.c`). Both compression variants against
FIPS 180-4, and hashing in chunks. `ShaConstants`, `ShaSigmas` and `ShaExamples` pin the constants and
functions down apart from their definitions: roots of primes, bits, and values the standard prints.

**Buttons** (`Button*.dfy`, for `src/new_pins.c`). `Buttons` has the debouncer and the language of
gestures, `ButtonTiming` when each callback is told, by elapsed times alone.

**Decimal text of floats** (`Float*.dfy`, for `src/nanoprintf.h`). Sixty-bit fixed-point digits.

**Base64** (`Base64*.dfy`, for `src/base64/base64.c`). Both directions, and the encoding bit by bit.

What the code does that its names or comments do not promise, with the exact condition proved:

- A message that fills the output ring to the last byte makes it look empty, so its bytes and all
  before them are lost; everything is kept if and only if one byte stays free
  (`MqttRing.PutAllKeepsIff`, `MqttMessages.AdmittedKeptIff`).
- The space check counts in 16 bits and is right if and only if the remaining length is at most
  65531 or what is left after wrapping still exceeds the free space (`MqttMessages.AdmitsExactIff`,
  `MqttMessages.AdmitsWrapExample`).
- A publish without payload but with a payload length appends fewer bytes than its header says
  (`MqttCalls.PublishReserved`).
- Of several requests due at the same instant only the first times out at that tick; the others
  follow at the next (`MqttDeadlines.FiredAreDue`).
- A packet split inside a PUBLISH variable header or another packet's body ends the connection; these
  are the only cuts that do, and a CONNACK the client is not waiting for may be split anywhere
  (`MqttCuts.SegmentationIff`).
- A CONNECT can have a password without a user name, which section 3.1.2.9 of MQTT 3.1.1 forbids, and a
  quality of service of 3 for its will, which section 3.1.2.6 forbids; in all other cases it keeps the
  rules (`MqttWire.ConnectAllowedIff`).
- Blanks directly inside brackets around a single operand, or a bracketed one, leave text that is
  no operand; and a minus sign is taken for an operator behind `!`, behind an arithmetic operator
  and a blank, further on in the right operand of a sum, and behind blanks that begin a bracket
  with a product or a lone operand. Everywhere else text evaluation is exact
  (`ScriptMeaning.EvaluationIff`, `ScriptMeaning.NegativeFactor`).
- Strings of a JSON text are cut at an escaped NUL; texts without one, nested within the limit, are
  parsed to just the value they derive (`JsonGrammar.MeaningIff`).
- Where pointers have fewer than 6 bytes, control bytes without a short escape are printed as a
  cut-off escape (`JsonStrings.StringRoundTripIff`).
- Comparing objects that hold one name twice can fail even against a duplicate
  (`JsonCompare.CompareMeans`, `JsonDuplicate.DuplicateCompares`).
- With precision 0 and no alternative form, INF, NAN and OOR are printed without their last letter
  (`FloatPrint.PrintDecimal`); a negative precision given through a star takes away the point and
  digits of the integer part (`FloatPrint.CutInteger`).
- The button debounce counter has 8 bits and is exact for ticks of at most 181 ms, and for longer
  ones only by chance of wrapping (`Buttons.DebounceExactIff`).
- A further press of a button is judged by a counter of 16 bits, so one of 65.6 seconds counts as a
  brief one (`ButtonTiming.BriefIff`); and a hold goes on counting towards its next callback with what
  the hold before it has left (`ButtonTiming.HoldIff`).

## Model

| member | source | states |
|---|---|---|
| MqttRuns.Run | libraries/mqtt_patched.c:541-1469 | Whole runs. For any sequence of publish, subscribe, connect, disconnect, received segments, sent, poll, error, connected and timer events the client moves as the machine does, input by input. At the end, what TCP has taken followed by what is in the ring is, in order, the packets of the accepted calls, the granted acknowledgements and the pings since the last connection attempt (or a packet has filled the ring, and then bytes are missing); the callbacks accepted are those of the calls that returned without an error; and while there is a connection every slot is free or queued |
| MqttRuns.Life | libraries/mqtt_patched.c:1265-1469 | From the creation of a client on: a callback used in exactly one accepted call of the run is called at most once, and not at all once it has been given up |
| MqttRuns.Step | libraries/mqtt_patched.c:541-1469 | Each single event takes state, output and history of the client exactly where the machine says, and returns the machine's error |
| MqttRuns.DoPublish | libraries/mqtt_patched.c:1108-1170 | The client's publish is the machine's: error, identifier, bytes put into the ring, request, callback |
| MqttRuns.DoSubUnsub | libraries/mqtt_patched.c:1184-1238 | and its subscribe and unsubscribe |
| MqttRuns.DoConnect | libraries/mqtt_patched.c:1294-1450 | and its connect, which wipes everything first and queues the packet that MqttWire.ConnectRead reads back field by field |
| MqttRuns.DoDisconnect | libraries/mqtt_patched.c:1458-1469 | and its disconnect |
| MqttRuns.DoReceive | libraries/mqtt_patched.c:943-977 | A received segment: parser, acknowledgements put into the ring, callbacks lost, and the closing of a refused connection |
| MqttRuns.DoSent | libraries/mqtt_patched.c:987-1013 | What `sent` completes and that bytes only move to TCP |
| MqttRuns.DoEstablish | libraries/mqtt_patched.c:1055-1085 | The TCP connection stands: the parser starts at rest, the queue is offered |
| MqttRuns.DoTick | libraries/mqtt_patched.c:580-627 | A tick is exactly the machine's tick: connect timeout, request timeouts, silence of the server, ping |
| MqttBehaviours.RunPuts | libraries/mqtt_patched.c:541-1469 | Output conservation over every run of the machine: the bytes put into the ring since the last connection attempt are the concatenation, in order, of what each input puts there; what TCP has taken only grows while no new attempt is made; the accepted callbacks are those of the accepted calls |
| MqttBehaviours.RunKeeps | libraries/mqtt_patched.c:188-275 | In a run in which every packet leaves a byte of the ring free no byte is ever lost |
| MqttBehaviours.MovePuts | libraries/mqtt_patched.c:541-1469 | One input puts exactly its own packets into the ring: a request's packet if the call is accepted, the granted acknowledgements of a segment, a ping if it is due |
| MqttBehaviours.RunCallsOnce | libraries/mqtt_patched.c:541-573 | Over every run: a callback accepted once is called at most once, and never once it has been given up |
| MqttBehaviours.CalledAtMostOnce | libraries/mqtt_patched.c:541-573 | From the account of callbacks: one accepted once is called at most once, and not at all while it is pending or after close has dropped it |
| MqttBehaviours.MoveTells | libraries/mqtt_patched.c:541-1469 | Every input adds exactly the events it should to what the application is told |
| MqttBehaviours.RunWindow | libraries/mqtt_patched.c:395-418 | Over every run, with any other calls, replies and segments between: a waiting request with `left` seconds to go is timed out, if at all, by tick f of the connected client with (f-1)*interval <= left <= f*interval; and while it waits its deadline is earlier by exactly the ticks passed |
| MqttBehaviours.ClientTimeout | libraries/mqtt_patched.c:580-627 | With the configured constants (30 s, one tick every 5 s): after an accepted call with a callback of its own, a timeout is told if and only if there is a tick for it, that is tick 6 or 7, and by tick 7 the callback has been called or given up |
| MqttBehaviours.RunTimesOut | libraries/mqtt_patched.c:580-627 | The application is told of a request's timeout if and only if some tick of the run finds it due |
| MqttBehaviours.MoveTimesOut | libraries/mqtt_patched.c:395-418 | An input tells a timeout if and only if it is a tick of the connected client that finds the request due |
| MqttBehaviours.MoveWaits | libraries/mqtt_patched.c:317-388 | Any other input leaves a waiting request its deadline, unless it has been answered or given up |
| MqttBehaviours.MoveKeeps | libraries/mqtt_patched.c:317-388 | Calls append requests and replies take them, and neither changes another's deadline |
| MqttBehaviours.TickWaits | libraries/mqtt_patched.c:395-418 | A tick calls a due request back, or brings its deadline forward by one interval |
| MqttBehaviours.PassWaits | libraries/mqtt_patched.c:395-418 | A request passed over by the clock was due no earlier than now and keeps the rest of its time; one that is fired was due |
| MqttBehaviours.RunGone | libraries/mqtt_patched.c:541-573 | A callback that has been called or given up is never pending again, nor timed out |
| MqttIdle.Closes | libraries/mqtt_patched.c:595-608 | Over every run in which nothing is heard or sent: the connection is up as long as five seconds times the ticks are at most one and a half keep-alive times, and is closed by exactly the first tick beyond |
| MqttIdle.Pings | libraries/mqtt_patched.c:610-618 | In such a run, while no ping is due: the next tick puts the two bytes of PINGREQ (C0 00) into the ring if and only if it completes a keep-alive time, at five seconds a tick, and two of the 2048 bytes are free; otherwise it puts nothing |
| MqttIdle.GivesUp | libraries/mqtt_patched.c:587-594 | Over every run in which the server does not answer: a connection request is given up by exactly the 20th tick (100 s) |
| MqttIdle.MoveUnheard | libraries/mqtt_patched.c:580-627 | A tick counts one interval of silence and no other call of the application does |
| MqttOutput.AnsweredThen | libraries/mqtt_patched.c:638-652 | The acknowledgements of two stretches of events, put into the ring in order, are those of both together; none is refused while there is room for all, and bytes are lost exactly if one fills the ring |
| MqttOutput.AnsweredOne | libraries/mqtt_patched.c:638-652 | One acknowledgement: refused, taken, or filling the ring to the last byte |
| MqttOutput.AckBytesSize | libraries/mqtt_patched.c:638-652 | Acknowledgements take at most four bytes each |
| MqttRequests.RequestPool.QueueBound | libraries/mqtt_patched.c:284-309 | Queued requests are as many as slots in use, at most sixteen, and sixteen exactly if the pool is full |
| MqttRequests.RequestPool.QueueOrderly | libraries/mqtt_patched.c:317-339 | What the delta queue encodes is sorted by deadline and within the timeout |
| MqttStreams.AnySegmentation | libraries/mqtt_patched.c:846-933 | Segmentation independence: for every stream of well-formed packets and every split whose cuts avoid PUBLISH variable headers and other packets' bodies, the client reports the same topics, lengths, payload bytes, ends of payload, acknowledgements and completions as the stream's specification, and ends at rest |
| MqttCuts.SegmentationIff | libraries/mqtt_patched.c:654-933 | Exactly which cuts are accepted: any stream of well-formed packets that fit the buffer, cut into segments in any way, is accepted if and only if every cut is clean or lies in a CONNACK the client is not waiting for; and then it is received as if it had come in one piece |
| MqttStreams.StreamFed | libraries/mqtt_patched.c:846-933 | An unsplit stream of well-formed packets is accepted and reports, packet by packet, what the packets say |
| MqttStreams.PacketFed | libraries/mqtt_patched.c:676-837 | One packet in one segment is accepted if and only if its fixed header, topic and packet identifier (or terminator) fit the 256-byte buffer, and then reports exactly its contents |
| MqttStreams.PartFed | libraries/mqtt_patched.c:846-933 | A first part of a packet leaves the parser where it can go on if and only if the cut is clean |
| MqttStreams.PrefixFed | libraries/mqtt_patched.c:846-933 | The same for a cut anywhere in a stream of packets |
| MqttCuts.PrefixRefused | libraries/mqtt_patched.c:720-794 | A first part of a stream that ends anywhere else ends the connection at once, or is the first two bytes of a SUBACK nothing waits for |
| MqttCuts.StuckRefused | libraries/mqtt_patched.c:790-833 | and those end it with the next byte, whatever it is |
| MqttCuts.IgnoredPrefix | libraries/mqtt_patched.c:689-709 | A cut inside a CONNACK the client is not waiting for can be undone |
| MqttSegments.CutTheorem | libraries/mqtt_patched.c:846-933 | For arbitrary bytes, well-formed or not: if the first segment is accepted and ends at a clean cut, feeding both segments ends in the same parser state, session and status as feeding their concatenation, with the same reports up to how payload is divided |
| MqttSegments.CutAtRest | libraries/mqtt_patched.c:846-889 | Between packets and inside fixed headers, cutting changes nothing at all, not even the division of payloads |
| MqttSegments.Stretch | libraries/mqtt_patched.c:891-930 | Any stretch of PUBLISH payload, cut by the receive buffer as it may be, delivers its bytes once, in order, and the end exactly when the last byte is in |
| MqttSegments.StretchStart | libraries/mqtt_patched.c:713-789 | The first stretch of a PUBLISH announces topic and length if and only if the variable header is in it and fits the buffer, and then delivers the payload that follows |
| MqttSegments.StartHandled | libraries/mqtt_patched.c:718-772 | When the first frame of a PUBLISH is accepted, and the topic, identifier, total length and payload it yields |
| MqttReceive.FeedStaysUp | libraries/mqtt_patched.c:846-933 | Received bytes alone never take the client out of the states in which the connection is up |
| MqttReceive.NextRound | libraries/mqtt_patched.c:856-930 | Every round of the parser uses at least one byte of the segment and, unless the connection ends, leaves it in a valid state |
| MqttCalls.PublishReceived | libraries/mqtt_patched.c:1108-1170 | Publish and receive are inverse: the bytes of a PUBLISH fed to the client's own parser are accepted if and only if everything before the payload fits the receive buffer, and then announce the same topic and length and deliver the same payload with one end |
| MqttCalls.PublishReserved | libraries/mqtt_patched.c:1127-1164 | The bytes appended are as many as were reserved if and only if the payload is given or its length is 0 |
| MqttCalls.SubscribeBytes | libraries/mqtt_patched.c:1201-1233 | A SUBSCRIBE or UNSUBSCRIBE has exactly the size that was reserved; what it says is MqttWire.AskingRead |
| MqttCalls.ConnectBytes | libraries/mqtt_patched.c:1335-1443 | A CONNECT has exactly the size that was reserved, whatever the will, user name and password; what its bytes say is MqttWire.ConnectRead |
| MqttCalls.ConnectBody | libraries/mqtt_patched.c:1421-1443 | Variable header and payload of CONNECT have exactly the remaining length that was computed for them; what they say, and in which order, is MqttWire.PayloadRead |
| MqttCalls.NextPktId | libraries/mqtt_patched.c:174-182 | Packet identifiers are never 0 and never the one just used |
| MqttWire.ConnectRead | libraries/mqtt_patched.c:1294-1443 | A reader of CONNECT that knows only section 3.1 of MQTT 3.1.1, with its bytes written out (type 1, protocol name and level 4, every flag bit, keep-alive, then client identifier, will topic, will message, user name and password as the flags announce), finds in the packet exactly the flags and the connection info of the application, each value in its own field, and a clean session |
| MqttWire.ConnectAllowedIff | libraries/mqtt_patched.c:1294-1443 | For every info with lengths the source accepts: the packet keeps the rules of the standard for the flags if and only if the quality of service of the will is not 3 (modulo 4) and no password comes without a user name; the info read is the info given if and only if the quality of service of the will is below 4 |
| MqttWire.PayloadRead | libraries/mqtt_patched.c:1429-1443 | The payload of CONNECT is read field by field in the order of section 3.1.3 |
| MqttWire.FlagsRead | libraries/mqtt_patched.c:1335-1374 | Each bit of the connect flags says what section 3.1.2.3 makes of it |
| MqttWire.FrameRead | libraries/mqtt_patched.c:498-509 | Any packet is read as one frame: its first byte, and as many bytes as the length field of section 2.2.3 says |
| MqttWire.LengthRead | libraries/mqtt_patched.c:504-508 | The length field, least significant seven bits first, is read as the number written |
| MqttWire.FirstBytes | libraries/mqtt_patched.c:97-112 | The first byte of every type of packet, as the standard writes it in hexadecimal |
| MqttWire.PublishRead | libraries/mqtt_patched.c:1127-1167 | A PUBLISH of either side is read, by a reader of section 3.3, as what was published: DUP, quality of service, RETAIN, topic, identifier unless the quality is 0, payload |
| MqttWire.PublishBytesRead | libraries/mqtt_patched.c:1108-1170 | The bytes that the publish call queues are read as topic, payload, quality of service and retain flag of the call |
| MqttWire.AskingRead | libraries/mqtt_patched.c:1184-1238 | A reader of SUBSCRIBE and UNSUBSCRIBE (sections 3.8 and 3.10) finds identifier, topic and, for the first only, the quality of service asked for |
| MqttWire.AckRead | libraries/mqtt_patched.c:638-652 | The acknowledgements that the client sends are read as PUBACK, PUBREC, PUBREL and PUBCOMP with the identifier they are for (sections 3.4 to 3.7) |
| MqttWire.ServerRead | libraries/mqtt_patched.c:681-840 | The packets that the client is fed are those of the standard: the same readers find in their bytes what they say |
| MqttWire.ConnackAnswered | libraries/mqtt_patched.c:681-709 | The four bytes of a CONNACK (section 3.2): while connecting, code 0 opens the connection and says so, any other code refuses it with this code, whatever the flags |
| MqttWire.PacketAnswered | libraries/mqtt_patched.c:773-809 | The quality-of-service handshake on the wire (section 4.3): fed a whole packet that fits, the client answers PUBLISH of level 1 by PUBACK, of level 2 by PUBREC, PUBREL by PUBCOMP and PUBREC by PUBREL, with the identifier of the packet, and answers nothing else |
| MqttRing.RingBuffer.Put | libraries/mqtt_patched.c:188-196 | One byte more at the end of the contents; a byte that fills the ring empties it |
| MqttRing.RingBuffer.AdvanceGet | libraries/mqtt_patched.c:205-214 | Takes bytes off the front, around the end of the array |
| MqttRing.RingBuffer.Len | libraries/mqtt_patched.c:217-225 | The 16-bit difference of the positions, corrected for wrap, is the number of bytes in the ring |
| MqttRing.RingBuffer.LinearReadLength | libraries/mqtt_patched.c:230-231 | As much of the contents as lies before the end of the array; less than all only if it reaches that end |
| MqttRing.RingBuffer.Write | libraries/mqtt_patched.c:260-270 | One write to TCP: the bytes taken followed by what stays are the old contents; a refused write changes nothing |
| MqttRing.RingBuffer.SendAfterWrap | libraries/mqtt_patched.c:261-270 | The second write, from the start of the array, conserves the bytes too |
| MqttRing.RingBuffer.OutputSend | libraries/mqtt_patched.c:238-275 | Bytes taken by TCP followed by the new contents are the old contents, for any send buffer and any refusals; with room and no refusal all is taken |
| MqttRing.PutAllKeepsIff | libraries/mqtt_patched.c:188-225 | Putting bytes keeps all of them if and only if at least one place stays free |
| MqttRing.PutAllFillsEmpties | libraries/mqtt_patched.c:217-225 | Filling the ring exactly leaves it looking empty |
| MqttRing.PutAllFits | libraries/mqtt_patched.c:188-196 | Bytes that leave a place free are appended in order |
| MqttRing.PutAllConcat | libraries/mqtt_patched.c:188-196 | Putting two messages is putting their concatenation, overflow included |
| MqttRing.PutAllLength | libraries/mqtt_patched.c:188-225 | The ring never holds more than was put, and strictly less once it has been filled |
| MqttMessages.VarLenRoundTrip | libraries/mqtt_patched.c:504-508 | The remaining-length field reads back as the number written, for every number; only its last byte is below 128 |
| MqttMessages.VarLenSize | libraries/mqtt_patched.c:504-508 | One to four length bytes, in the ranges of section 2.2.3 of MQTT 3.1.1 |
| MqttMessages.AdmitsExactIff | libraries/mqtt_patched.c:518-533 | The space check means `the message is not longer than the free space` exactly when the 16-bit sum does not wrap (length at most 65531) or what is left after wrapping exceeds the free space too |
| MqttMessages.AdmitsWrapExample | libraries/mqtt_patched.c:522-532 | A remaining length of 65532 is admitted to the empty ring although the message has 65536 bytes |
| MqttMessages.AdmittedKeptIff | libraries/mqtt_patched.c:518-533 | An admitted message is kept if and only if it is shorter than the free space; one that fills the ring leaves it empty |
| MqttMessages.CheckSpace | libraries/mqtt_patched.c:518-533 | Computes the admission test of the lemmas above with its 16-bit count |
| MqttMessages.AppendRemainingLength | libraries/mqtt_patched.c:504-508 | The shifting loop appends the variable-length field of the number |
| MqttMessages.AppendFixedHeader | libraries/mqtt_patched.c:498-509 | Appends control byte and remaining length |
| MqttMessages.AppendU16 | libraries/mqtt_patched.c:461-466 | Appends the two bytes, high byte first |
| MqttMessages.AppendBuf | libraries/mqtt_patched.c:468-475 | Appends the given number of bytes in order |
| MqttMessages.AppendString | libraries/mqtt_patched.c:477-486 | Appends length and bytes of a string |
| MqttDeadlines.FiredAreDue | libraries/mqtt_patched.c:395-418 | Who is timed out after t > 0 seconds: exactly the requests with less than t to go, and the first of those with exactly t |
| MqttDeadlines.SurvivorsNotDue | libraries/mqtt_patched.c:395-418 | Who is left had at least t seconds to go |
| MqttDeadlines.ElapseFires | libraries/mqtt_patched.c:395-418 | The walk calls back a prefix of the queue, in order, and moves every other deadline forward by exactly t |
| MqttDeadlines.ElapseCallbacks | libraries/mqtt_patched.c:395-418 | Time only splits the callbacks: those called followed by those left are those there were |
| MqttDeadlines.AppendCallbacks | libraries/mqtt_patched.c:317-339 | Appending adds just the one callback, last |
| MqttDeadlines.WithoutCallbacks | libraries/mqtt_patched.c:360-388 | Taking a request removes just its callback |
| MqttDeadlines.AppendOrderly | libraries/mqtt_patched.c:317-339 | Deadlines stay sorted and none exceeds the timeout when a request is appended |
| MqttDeadlines.WithoutOrderly | libraries/mqtt_patched.c:360-388 | and when one is taken |
| MqttDeadlines.ElapseOrderly | libraries/mqtt_patched.c:395-418 | and when time passes |
| MqttRequests.RequestPool.Append | libraries/mqtt_patched.c:317-339 | Refinement: the delta queue afterwards encodes the old list of absolute deadlines and the new request at exactly the full timeout; the slots are all accounted for again |
| MqttRequests.RequestPool.Take | libraries/mqtt_patched.c:360-388 | Unchains the first request with this packet identifier and leaves every other deadline as it was; nothing happens if there is none |
| MqttRequests.RequestPool.TimeElapsed | libraries/mqtt_patched.c:395-418 | The loop over deltas does what the list of absolute deadlines demands: same survivors at d - t, same callbacks in the same order, slots freed |
| MqttRequests.RequestPool.Clear | libraries/mqtt_patched.c:424-434 | Frees every queued slot and leaves an empty queue |
| MqttRequests.RequestPool.Init | libraries/mqtt_patched.c:440-449 | All slots free, nothing queued |
| MqttRequests.RequestPool.Create | libraries/mqtt_patched.c:291-309 | Hands out a free slot with the request in it, none if and only if the pool is full; the queue is untouched |
| MqttRequests.RequestPool.Delete | libraries/mqtt_patched.c:346-352 | Returns a held slot to the pool; the queue is untouched |
| MqttRequests.RequestPool.FindLast | libraries/mqtt_patched.c:326-330 | The walk to the tail adds up the deltas to the last deadline |
| MqttRequests.RequestPool.FindRequest | libraries/mqtt_patched.c:365-371 | Finds the first match in the queue and the slot before it |
| MqttRequests.RequestPool.Unlink | libraries/mqtt_patched.c:373-386 | Takes the k-th slot out of the chain, its delta going to the next, and removes exactly the k-th deadline |
| MqttRequests.RequestPool.PopFirst | libraries/mqtt_patched.c:402-410 | Removing the first slot removes the first deadline |
| MqttRequests.RequestPool.AgeFirst | libraries/mqtt_patched.c:413-416 | Shortening the first delta brings all deadlines forward alike |
| MqttRequests.RequestPool.ElapseFirst | libraries/mqtt_patched.c:401-417 | Each round of the loop keeps what the whole elapse will do, and comes closer to its end |
| MqttRequests.DeadlinesAppend | libraries/mqtt_patched.c:317-339 | A slot behind a chain adds one deadline, the sum of all deltas |
| MqttRequests.DeadlinesUnchain | libraries/mqtt_patched.c:381-384 | Adding a removed delta to its successor removes one deadline and leaves the others |
| MqttRequests.DeadlinesShift | libraries/mqtt_patched.c:413-416 | A smaller first delta is the same list, aged |
| MqttRequests.DeadlinesFacts | libraries/mqtt_patched.c:395-418 | Deadlines encoded by deltas are sorted, at most the sum of the deltas, and in the order of the chain |
| MqttRequests.LinkedLastThreaded | libraries/mqtt_patched.c:333-338 | Linking a slot behind the last keeps the pool threaded by exactly the queued slots |
| MqttRequests.UnlinkedThreaded | libraries/mqtt_patched.c:375-385 | Bypassing the k-th slot keeps it threaded by all the others |
| MqttRequests.UnlinkedDeadlines | libraries/mqtt_patched.c:375-385 | and removes exactly the k-th deadline |
| MqttAccounts.HandleAccounts | libraries/mqtt_patched.c:676-837 | No packet calls a callback that is not pending, or one twice; only a packet that ends the connection can lose one |
| MqttAccounts.FeedAccounts | libraries/mqtt_patched.c:846-933 | The same for any bytes in any parser state: callbacks called and callbacks pending afterwards are those pending before, none added, none lost while the segment is accepted |
| MqttAccounts.TakeUnnumbered | libraries/mqtt_patched.c:1002-1008 | Taking requests with identifier 0 takes the oldest of them |
| MqttAccounts.SentAccounts | libraries/mqtt_patched.c:1002-1008 | Completing every QoS 0 request on `sent` calls each of their callbacks once and leaves all others pending |
| MqttAccounts.BalancedThrough | libraries/mqtt_patched.c:676-837 | The account accepted = called + pending + dropped survives any change that calls or keeps only what was pending |
| MqttAccounts.BalancedClosing | libraries/mqtt_patched.c:541-573 | It survives closing, where pending callbacks become dropped ones |
| MqttAccounts.FeedBalanced | libraries/mqtt_patched.c:846-933 | It survives received bytes, with nothing newly dropped if they are accepted |
| MqttAccounts.SentBalanced | libraries/mqtt_patched.c:987-1013 | It survives the completion of QoS 0 requests |
| MqttAccounts.ElapseBalanced | libraries/mqtt_patched.c:395-418 | It survives time passing |
| MqttAccounts.AppendBalanced | libraries/mqtt_patched.c:317-339 | It survives an accepted request, whose callback is added |
| MqttClient.Client.ParseIncoming | libraries/mqtt_patched.c:846-933 | Refinement: the loop that reads its buffered fixed header again for every segment does to session, history and parser position what the resumable specification parser does, and puts into the ring exactly the granted acknowledgements of its events |
| MqttClient.Client.ParseStep | libraries/mqtt_patched.c:856-930 | One iteration keeps what remains to be done equal to the specification's rest, makes progress in bytes or in header bytes read again, and answers its events |
| MqttClient.Client.ReadAgain | libraries/mqtt_patched.c:858-876 | Reading a header byte again recovers the partial remaining length and header position |
| MqttClient.Client.ReadNew | libraries/mqtt_patched.c:863-890 | A new header byte is stored and takes the parser one specification round further |
| MqttClient.Client.FinishHeader | libraries/mqtt_patched.c:876-889 | A complete header with no body is handled at once, any other opens the body |
| MqttClient.Client.ReadBody | libraries/mqtt_patched.c:891-930 | A body frame no longer than buffer, segment and packet allow is handled as the specification's round |
| MqttClient.Client.MessageReceived | libraries/mqtt_patched.c:675-837 | Dispatch of a frame by packet type: status, session and events as specified, and the acknowledgement bytes the events call for; slots accounted for unless the connection ends |
| MqttClient.Client.OnConnack | libraries/mqtt_patched.c:689-709 | While connecting, a CONNACK too short ends the connection, code 0 completes it and any other code is passed on; otherwise a CONNACK changes nothing |
| MqttClient.Client.OnPublishStart | libraries/mqtt_patched.c:718-772 | The first frame of a PUBLISH: topic and identifier or disconnect |
| MqttClient.Client.OnPayload | libraries/mqtt_patched.c:773-789 | Payload delivery, with the acknowledgement of QoS 1 and 2 after the last byte |
| MqttClient.Client.OnReply | libraries/mqtt_patched.c:810-828 | A reply completes the first request with its identifier, at most once, and frees its slot; a SUBACK too short for its code ends the connection |
| MqttClient.Client.OnNumbered | libraries/mqtt_patched.c:790-833 | Packets with an identifier: too short or identifier 0 ends the connection, PUBREC and PUBREL are answered, replies complete requests |
| MqttClient.Client.Respond | libraries/mqtt_patched.c:638-652 | An acknowledgement goes into the ring whole if the ring admits it, and else not at all; then bytes may move to TCP, and nothing else happens to the output |
| MqttClient.Client.QueueAck | libraries/mqtt_patched.c:638-652 | The four bytes of an acknowledgement, at the end of what has been put into the ring |
| MqttClient.Client.Send | libraries/mqtt_patched.c:238-275 | Bytes only move from the ring to TCP, in order |
| MqttClient.VarLenValueSnoc | libraries/mqtt_patched.c:875 | One more length byte adds its seven bits above all those before, which it does not overlap |
| MqttClient.PartialSnoc | libraries/mqtt_patched.c:871-876 | The incremental remaining length is the value of the bytes read so far |
| MqttClient.HeaderGrown | libraries/mqtt_patched.c:871-890 | The header is complete exactly with the first length byte below 128, and the accumulated length is then the packet's |
| MqttClient.RoundDone | libraries/mqtt_patched.c:856-930 | Parsing a segment is one round followed by parsing the rest |
| MqttClient.Client.Close | libraries/mqtt_patched.c:541-573 | Drops every pending request without a call, reports the end once if there was a connection, stops the timer |
| MqttClient.Client.ReceiveCb | libraries/mqtt_patched.c:943-977 | A closed connection ends the client; a segment has the specified effect on session, history, output, account and watchdog, or ends the connection if it is refused; an error code changes nothing |
| MqttClient.Client.Receive | libraries/mqtt_patched.c:943-977 | The same below the closing: session, history, acknowledgements and account after a segment |
| MqttClient.Client.ReceiveSegment | libraries/mqtt_patched.c:943-977 | and with the closing of a connection whose segment is refused |
| MqttClient.Client.SentCb | libraries/mqtt_patched.c:987-1013 | When connected, `sent` completes exactly the pending requests without identifier and keeps the others in order; bytes only move to TCP |
| MqttClient.Client.CompleteSent | libraries/mqtt_patched.c:1002-1008 | The loop over identifier 0 completes them all, oldest first |
| MqttClient.Client.ErrCb | libraries/mqtt_patched.c:1020-1030 | A TCP error closes; pending callbacks are dropped |
| MqttClient.Client.PollCb | libraries/mqtt_patched.c:1038-1047 | Polling only moves bytes from the ring to TCP |
| MqttClient.Client.TcpConnectCb | libraries/mqtt_patched.c:1055-1085 | A new TCP connection starts the parser at rest and sends what is queued, in order |
| MqttClient.Client.CyclicTimer | libraries/mqtt_patched.c:580-627 | Connecting: gives up after the connect timeout. Connected: times out exactly the due requests, puts a ping into the ring if one is due and fits, and closes if the server is unresponsive |
| MqttClient.Client.ConnectTick | libraries/mqtt_patched.c:587-594 | Closes exactly when the connect timeout is reached |
| MqttClient.Client.ConnectedTick | libraries/mqtt_patched.c:595-619 | Times out due requests before anything else, then watches the server, then pings |
| MqttClient.Client.Watch | libraries/mqtt_patched.c:602-608 | Closes exactly when the server has been silent for more than one and a half keep-alive periods |
| MqttClient.Client.KeepAlive | libraries/mqtt_patched.c:610-618 | PINGREQ exactly when a keep-alive period has passed without sending and the ring admits it |
| MqttClient.Client.TimeOutRequests | libraries/mqtt_patched.c:596-597 | Requests elapse by one interval; callbacks called are those of the deadline list |
| MqttClient.Client.Publish | libraries/mqtt_patched.c:1108-1170 | Every error case; on success exactly the PUBLISH bytes are queued, the request is last in the queue at full timeout, and its callback is accepted; on failure nothing is queued, pending or accepted |
| MqttClient.Client.SubUnsub | libraries/mqtt_patched.c:1184-1238 | The same for SUBSCRIBE and UNSUBSCRIBE, whose errors are found in another order |
| MqttClient.Client.Connect | libraries/mqtt_patched.c:1294-1450 | Every error case; on success a fresh ring holds exactly the CONNECT packet, from which a reader of the standard gets back the info given (MqttWire.ConnectRead); on failure the client is disconnected with nothing queued, or untouched if it was connected already |
| MqttClient.Client.Disconnect | libraries/mqtt_patched.c:1458-1469 | Ends the connection without a report and drops what is pending |
| MqttClient.Client.Reserve | libraries/mqtt_patched.c:1142-1150 | A slot if and only if there is one and the ring admits the message; otherwise the pool is as before |
| MqttClient.Client.Accept | libraries/mqtt_patched.c:1167 | A reserved slot joins the queue and its callback the account |
| MqttClient.Client.GeneratePacketId | libraries/mqtt_patched.c:174-182 | Advances the identifier, skipping 0 |
| MqttClient.Client.constructor | libraries/mqtt_patched.c:1265-1270 | A new client meets the invariant: disconnected, with nothing in the ring, nothing pending, nothing reported |
| ScriptMeaning.EvaluationIsMeaning | src/cmnds/cmd_if.c:876-999 | Text evaluation is tree evaluation: for every expression over the thirteen binary operators, `!`, brackets, blanks, names, numbers and signed numbers, evaluating its text gives the value of its tree, for any meaning of operands and operators, provided blanks directly inside brackets surround binary expressions only (or follow a negation) and the signs fit: at the start of an expression, behind a comparison or logical operator, or directly behind an arithmetic one, but none further on in the right operand of a sum and none behind `!` |
| ScriptGrammar.SentenceEvaluates | src/cmnds/cmd_if.c:877-999 | The conventional reading. For a layered grammar with operators named by their texts (conditions of comparisons joined by the two logical operators, comparisons of sums, sums of products, products of names, brackets and negations, each layer from left to right), every sentence evaluates to the value that this grammar gives it, for any meaning of names and operators |
| ScriptGrammar.ComparisonsFirst | src/cmnds/cmd_if.c:57-119 | For all names a, b, c, d, each of the six comparisons on either side and both logical operators between, the text `a x b y c z d` is y applied to `a x b` and `c z d` |
| ScriptGrammar.SumsFirst | src/cmnds/cmd_if.c:57-119 | A sum on either side of a comparison is evaluated first, for each sign and each comparison |
| ScriptGrammar.ProductsFirst | src/cmnds/cmd_if.c:57-119 | A product on either side of a sum is evaluated first, for each of the three operators and both signs |
| ScriptGrammar.LeftToRight | src/cmnds/cmd_if.c:57-119 | Two operators of one class associate to the left: `a x b y c` is y applied to `a x b` and c |
| ScriptGrammar.Spelling | src/cmnds/cmd_if.c:57-71 | Which text is which of the thirteen operator numbers |
| ScriptGrammar.Ranks | src/cmnds/cmd_if.c:57-71 | The priorities of the table order the four classes: products bind tighter than sums, sums than comparisons, comparisons than the logical operators |
| ScriptMeaning.EvaluationIff | src/cmnds/cmd_if.c:876-999 | That condition on blanks and signs is exact: with operands and operators left symbolic the evaluator returns the tree if and only if it holds |
| ScriptMeaning.MissHeld | src/cmnds/cmd_if.c:74-119 | Where signs do not fit, the value is that of another expression, or the evaluator is stuck: never that of the tree |
| ScriptMeaning.SplitElsewhere | src/cmnds/cmd_if.c:914-966 | Split anywhere but at its root, an expression is taken for another one, since no character is lost |
| ScriptMeaning.NegativeFactor | src/cmnds/cmd_if.c:97-116 | The value of 2+3*-1 is (2 + 3 * nothing) - 1, for every meaning of operators: the sign behind a product is taken for the operator to split at |
| ScriptSigns.RootSeen | src/cmnds/cmd_if.c:82-116 | If the signs fit, the search ends at the outermost operator |
| ScriptSigns.RootFits | src/cmnds/cmd_if.c:82-116 | If it ends there, the signs around that operator fit |
| ScriptSigns.LooseRootSeen | src/cmnds/cmd_if.c:97-116 | Comparisons and logical operators are found whatever signs there are |
| ScriptSigns.Caught | src/cmnds/cmd_if.c:97-116 | Within the right operand of a sum or product, a sign that does not directly follow the operator, or any further sign, is found as an operator |
| ScriptSigns.Tighter | src/cmnds/cmd_if.c:97-116 | Behind an operator looser than all of an expression, the search changes nothing but the sign it expects |
| ScriptSigns.Bounded | src/cmnds/cmd_if.c:97-116 | No operator is found looser than the outermost one and a minus |
| ScriptCounts.Conserved | src/cmnds/cmd_if.c:877-999 | Conservation, for every text and slice: the tree an evaluation comes to has exactly the characters of the slice, but for blanks, brackets and second characters of operators |
| ScriptMeaning.PrintedEvaluates | src/cmnds/cmd_if.c:57-119 | Every tree, written with only the brackets the priority table needs and around signed numbers, evaluates to its value; which operators the table puts above which is ScriptGrammar.ComparisonsFirst, SumsFirst, ProductsFirst and LeftToRight |
| ScriptMeaning.PrintFits | src/cmnds/cmd_if.c:57-72 | Writing a tree with needed brackets only yields a well-formed text that means the tree |
| ScriptMeaning.ParsedIff | src/cmnds/cmd_if.c:876-999 | What the evaluator takes the text for has only atoms as leaves if and only if the blanks fit, and then is the tree that was written |
| ScriptMeaning.EvalHeld | src/cmnds/cmd_if.c:876-999 | Inside any text, with blanks around it, a slice that holds an expression evaluates to it |
| ScriptMeaning.EvalWithin | src/cmnds/cmd_if.c:914-998 | The same after blanks and brackets have been stripped |
| ScriptMeaning.FindHeld | src/cmnds/cmd_if.c:74-119 | The operator found in a slice is the one the search over the expression comes to, a sign at the very start being expected |
| ScriptMeaning.FindFit | src/cmnds/cmd_if.c:74-119 | If signs fit it is the root of the tree, and none if the root is no binary operator |
| ScriptMeaning.MatchExpr | src/cmnds/cmd_if.c:858-875 | The bracket that matches the first character of an expression is its last character if and only if the expression is bracketed as a whole |
| ScriptMeaning.ClosingExpr | src/cmnds/cmd_if.c:858-875 | Brackets within an expression balance: the search for a closing bracket passes over it |
| ScriptMeaning.StripHeld | src/cmnds/cmd_if.c:901-904 | Stripping brackets goes from a bracketed expression to the inside, and stops at blanks |
| ScriptSyntax.ScanExpr | src/cmnds/cmd_if.c:74-119 | Scanning the text of an expression does what the search over its tree does: brackets, operators by priority, signs expected or not |
| ScriptSyntax.ScanOp | src/cmnds/cmd_if.c:98-111 | At an operator the two-character one wins over its one-character prefix, and counts unless a looser one is known; then a minus directly behind it is expected as a sign |
| ScriptOperators.FindOperator | src/cmnds/cmd_if.c:74-119 | The loops over positions and operators, with nesting level, best priority in a byte and sign skipping, compute the operator of the specification; what the specification makes of sentences of the conventional grammar is ScriptGrammar.SentenceEvaluates |
| ScriptOperators.TryOperators | src/cmnds/cmd_if.c:98-111 | The inner loop tries every operator of the table in order |
| ScriptOperators.FindOp | src/cmnds/cmd_if.c:74-119 | An operator found lies in the slice and is spelt out there |
| ScriptOperators.FindMatchingBrace | src/cmnds/cmd_if.c:858-875 | The loop finds the bracket that brings the nesting level back to 0, or the end of the text |
| ScriptExpressions.EvaluateExpression | src/cmnds/cmd_if.c:876-999 | The evaluator terminates on every text and slice, its measure being the slice, and computes what the specification evaluator does, which gives every sentence of the conventional grammar its value (ScriptGrammar.SentenceEvaluates) |
| ScriptExpressions.EvaluateSlice | src/cmnds/cmd_if.c:914-998 | The same for a stripped slice |
| ScriptExpressions.Trim | src/cmnds/cmd_if.c:887-904 | The loops that strip blanks and brackets find the slice that is left |
| JsonGrammar.TextParsed | src/cJSON/cJSON.c:1110-1187 | Every text that derives a value by the grammar of RFC 8259, written apart from the parser (any blanks around every token, any of the nine escapes or the byte itself for a character, four hexadecimal digits in either case, surrogate pairs, integers of 32 bits without leading zeros, perhaps a byte order mark before it), is parsed as this value with its strings and names cut at the first NUL, if it is nested at most 1000 deep, and refused if it is nested deeper |
| JsonGrammar.MeaningIff | src/cJSON/cJSON.c:1110-1187 | Parsing yields just the value that such a text stands for if and only if no string or name in it has an escaped NUL and it is nested within the limit |
| JsonGrammar.DocRead | src/cJSON/cJSON.c:1327-1379 | The same within any text and at any depth, with the offset behind the value |
| JsonGrammar.ArrayDerived | src/cJSON/cJSON.c:1456-1551 | and for arrays with any blanks inside |
| JsonGrammar.ItemsRead | src/cJSON/cJSON.c:1488-1528 | and the list of their items |
| JsonGrammar.ObjectDerived | src/cJSON/cJSON.c:1616-1726 | and for objects |
| JsonGrammar.EntriesRead | src/cJSON/cJSON.c:1646-1704 | and the list of their entries |
| JsonGrammar.StringDerived | src/cJSON/cJSON.c:788-914 | A string of the grammar is read as the bytes its characters stand for, up to the first NUL |
| JsonGrammar.CharRead | src/cJSON/cJSON.c:825-892 | Each character is one unit of the literal and is read as what it stands for: a plain byte, one of the nine escapes, the UTF-8 of a code point or of a surrogate pair |
| JsonGrammar.ShortMeant | src/cJSON/cJSON.c:851-872 | The letters behind a backslash mean what section 7 of RFC 8259 says, with all codes written out |
| JsonGrammar.NumberDerived | src/cJSON/cJSON.c:314-388 | An integer of the grammar is read as what its digits are worth |
| JsonGrammar.CutIff | src/cJSON/cJSON.c:788-914 | Values are kept whole exactly when no string has an escaped NUL |
| JsonRoundTrip.PrintDerives | src/cJSON/cJSON.c:1386-1840 | What is printed, formatted or not, is a text of that grammar and derives the value: the derivation shows where formatting puts line breaks, tabs and spaces, and what is escaped |
| JsonRoundTrip.EntriesSpelt | src/cJSON/cJSON.c:1756-1820 | Formatting puts each member on a line of its own, behind as many tabs as values are open, with a tab behind the colon, and the closing bracket on a line one tab shorter |
| JsonRoundTrip.ItemsSpelt | src/cJSON/cJSON.c:1577-1601 | Elements stay on one line with a space behind each comma |
| JsonRoundTrip.ParseOfPrint | src/cJSON/cJSON.c:1110-1187 | Parse undoes print: the text of any tree of null, booleans, 32-bit integers, strings, arrays and objects, formatted or not, parses to the same tree if it is nested at most 1000 deep, and is refused if it is nested deeper (sections 2 to 7 of RFC 8259) |
| JsonItems.PrintAndParse | src/cJSON/cJSON.c:1110-1265 | Round trip of items: printing a tree of items and parsing the text makes new items with the same value, in order at every level, if and only if the value is nested no deeper than 1000 |
| JsonRoundTrip.ValueRead | src/cJSON/cJSON.c:1327-1379 | Within any text and at any depth: a printed value is read back, and the offset is behind it, if and only if depth and height stay within the nesting limit |
| JsonReader.ParseJson | src/cJSON/cJSON.c:1110-1187 | The parser, moving an offset and a depth, succeeds exactly when the specified parse does, and then has built new items with proper lists at every level that stand for the value parsed; otherwise there is no item. For every text of the grammar of RFC 8259 the specified parse is the value the text derives (JsonGrammar.TextParsed) |
| JsonReader.ParseBuffer.ReadValue | src/cJSON/cJSON.c:1327-1379 | Fills an item by dispatch on the next character: the value read is what the item stands for, everything below it is new and in order, its place in a list and its name are untouched; offset and depth as specified |
| JsonReader.ParseBuffer.ReadArray | src/cJSON/cJSON.c:1456-1551 | Elements between brackets become the children, the first one's prev being the last; the depth limit; depth restored on success |
| JsonReader.ParseBuffer.ReadElements | src/cJSON/cJSON.c:1488-1528 | The loop over commas builds a chain of new items for the elements of the recursive specification, in order |
| JsonReader.ParseBuffer.ReadElement | src/cJSON/cJSON.c:1490-1526 | A new item is linked behind the others before its value is read into it |
| JsonReader.ParseBuffer.ReadObject | src/cJSON/cJSON.c:1616-1726 | Members between braces, the same way |
| JsonReader.ParseBuffer.ReadMembers | src/cJSON/cJSON.c:1646-1704 | The loop over commas, names and colons builds the chain of named items |
| JsonReader.ParseBuffer.ReadMember | src/cJSON/cJSON.c:1648-1702 | A new item is linked, named and filled |
| JsonReader.ParseBuffer.ReadName | src/cJSON/cJSON.c:1668-1688 | The name is read as the item's text and then moved; a colon must follow |
| JsonChildren.AddChild | src/cJSON/cJSON.c:1490-1512 | The next item is linked behind the last one; the items before keep their values and what is below them |
| JsonChildren.ChildBuilt | src/cJSON/cJSON.c:1488-1526 | Once it stands for a value it is one more child, in order |
| JsonChildren.FinishArray | src/cJSON/cJSON.c:1529-1541 | Closing the chain makes an array of the values, with its list in order |
| JsonChildren.FinishObject | src/cJSON/cJSON.c:1705-1716 | or an object of the names and values |
| JsonReader.ParseBuffer.ReadNumber | src/cJSON/cJSON.c:314-388 | Takes the run of number characters, at most 63, that the conversion accepts as an integer |
| JsonReader.ParseBuffer.ReadString | src/cJSON/cJSON.c:788-914 | The item's text is the decoded literal, cut at the first NUL as C strings are; the offset is behind the closing quote; what literals of the grammar decode to is JsonGrammar.StringDerived |
| JsonReader.ParseBuffer.MeasureString | src/cJSON/cJSON.c:801-823 | The first pass finds the closing quote and counts the escapes |
| JsonReader.ParseBuffer.SkipWhitespace | src/cJSON/cJSON.c:1053-1076 | Moves over blanks but never to the end of the text |
| JsonStrings.StringRoundTripIff | src/cJSON/cJSON.c:788-1036 | A printed string is read back if and only if it has no control byte without a short escape, or pointers have at least 6 bytes, on which the length of the \u text is bounded |
| JsonStrings.StringRead | src/cJSON/cJSON.c:788-1036 | The same inside any text |
| JsonStrings.Unescape | src/cJSON/cJSON.c:825-892 | The unescaping loop decodes the literal and never writes more than the estimate made before it; what each escape decodes to is JsonGrammar.CharRead |
| JsonStrings.TokenFits | src/cJSON/cJSON.c:826-889 | Each escape writes no more bytes than the estimate reserves for the characters it uses |
| JsonStrings.LiteralBytes | src/cJSON/cJSON.c:667-785 | A \u literal of 6 or 12 characters yields at most half as many bytes |
| JsonStrings.EscapedByte | src/cJSON/cJSON.c:990-1031 | Every byte's escape is decoded as that byte |
| JsonUnicode.EscapedScalar | src/cJSON/cJSON.c:667-785 | For every Unicode scalar value, its escape as one unit or a surrogate pair, in either letter case, is read as that value |
| JsonUnicode.Utf8RoundTrip | src/cJSON/cJSON.c:730-777 | The UTF-8 written for every code point decodes to it, in the shortest of the four lengths (section 3 of RFC 3629) |
| JsonUnicode.Utf8Form | src/cJSON/cJSON.c:730-777 | Lead bytes and following bytes lie in the ranges of section 3 of RFC 3629 |
| JsonUnicode.LiteralAt | src/cJSON/cJSON.c:677-728 | A literal accepted is a scalar value, never a lone surrogate, and lies in the string |
| JsonUnicode.ParseHex4 | src/cJSON/cJSON.c:630-663 | The value of four hexadecimal digits, 0 if one is none |
| JsonUnicode.EncodeUtf8 | src/cJSON/cJSON.c:762-779 | The loop that writes from the last byte to the first writes the code point's UTF-8 |
| JsonUnicode.Utf16LiteralToUtf8 | src/cJSON/cJSON.c:667-785 | Writes the UTF-8 of the literal and reports its length, or nothing and 0 for an invalid one |
| JsonPrinter.Print | src/cJSON/cJSON.c:1202-1250 | Through every reallocation the growing buffer ends up holding exactly the text of the value the item stands for; where pointers have at least 6 bytes, printing succeeds whenever the text stays below 2 GB |
| JsonPrinter.PrintBuffer.PrintValue | src/cJSON/cJSON.c:1382-1453 | What is visible afterwards is what was written before, followed by the text of the value the item stands for |
| JsonPrinter.PrintBuffer.PrintArray | src/cJSON/cJSON.c:1554-1613 | The same for arrays, depth restored |
| JsonPrinter.PrintBuffer.PrintElements | src/cJSON/cJSON.c:1577-1601 | and their children, walked along their links, each offset update by string length being exact |
| JsonPrinter.PrintBuffer.PrintElement | src/cJSON/cJSON.c:1577-1601 | one child, and a comma exactly if another follows |
| JsonPrinter.PrintBuffer.PrintObject | src/cJSON/cJSON.c:1729-1840 | and objects, with the indentation of the depth |
| JsonPrinter.PrintBuffer.PrintMembers | src/cJSON/cJSON.c:1756-1820 | and theirs |
| JsonPrinter.PrintBuffer.PrintNext | src/cJSON/cJSON.c:1758-1817 | one named child, and a comma exactly if another follows |
| JsonPrinter.PrintBuffer.PrintMember | src/cJSON/cJSON.c:1758-1817 | one member: indentation, name, colon, value, separator |
| JsonPrinter.PrintBuffer.Ensure | src/cJSON/cJSON.c:448-531 | Growing keeps everything written; on success the needed bytes and one more are there; when it fails |
| JsonPrinter.PrintBuffer.UpdateOffset | src/cJSON/cJSON.c:534-544 | Advancing by the length of the C string at the offset takes in exactly what was written there |
| JsonPrinter.PrintBuffer.PrintString | src/cJSON/cJSON.c:917-1036 | The escaped string in quotes is visible behind what was written; one escaped or plain copy, the same text |
| JsonPrinter.PrintBuffer.CountEscapes | src/cJSON/cJSON.c:945-968 | The counting pass counts exactly the bytes that escaping adds |
| JsonPrinter.PrintBuffer.WriteEscaped | src/cJSON/cJSON.c:987-1031 | The writing pass writes every byte's escape at the place the counting pass reserved |
| JsonPrinter.PrintBuffer.Emit | src/cJSON/cJSON.c:1741-1754 | Fixed text is appended within the reserved bytes |
| JsonPrinter.VisibleAt | src/cJSON/cJSON.c:1024-1033 | With small pointers the text of a string ends in its first control byte without a short escape |
| JsonPrinter.StringWritten | src/cJSON/cJSON.c:970-1036 | However short some escape is, the string's visible text is well terminated within the reserved bytes |
| JsonList.Item.Append | src/cJSON/cJSON.c:1971-2002 | The item with all below it becomes the last child, first.prev being the last; every child, and all below it, is in order and stands for the value it stood for, and an array's value gains the item's as its last |
| JsonList.Item.LinkLast | src/cJSON/cJSON.c:1971-2002 | The linked list refines a sequence: afterwards it is the old one and the new item |
| JsonList.Item.Insert | src/cJSON/cJSON.c:2278-2305 | Inserts before the given index or appends behind the end; a negative index changes nothing; every child, and all below it, is in order and stands for the value it stood for; an array's value gains the item's at that place |
| JsonList.Item.InsertBefore | src/cJSON/cJSON.c:2290-2303 | All links around the new item, first or not, fit the children with it inserted; every child, and all below it, is in order and stands for the value it stood for |
| JsonList.Item.LinkBefore | src/cJSON/cJSON.c:2290-2303 | and with an item inserted |
| JsonList.Item.Detach | src/cJSON/cJSON.c:2202-2236 | Removes the item at its place, whether first, last, only or between, and clears its links; every child, and all below it, is in order and stands for the value it stood for, the detached one too; an array's value loses that element |
| JsonList.Item.Unlink | src/cJSON/cJSON.c:2202-2236 | and without an item |
| JsonList.Item.Replace | src/cJSON/cJSON.c:2307-2354 | Puts the replacement at the item's place, for every position, the only child included; every child, and all below it, is in order and stands for the value it stood for; an array's value has the replacement's value there |
| JsonList.Grafted | src/cJSON/cJSON.c:1971-2354 | Trees within trees: when the list of any item, however deep, has been changed and nothing else, everything around it is in order, with the changed part in its place |
| JsonList.GrownValue | src/cJSON/cJSON.c:1971-2305 | An array with one more child stands for its elements with one more at that place |
| JsonList.ShrunkValue | src/cJSON/cJSON.c:2202-2236 | without one of its children, for its elements without that one |
| JsonList.SwappedValue | src/cJSON/cJSON.c:2307-2354 | and with another in its place, for its elements with that one replaced |
| JsonList.Item.LinkInstead | src/cJSON/cJSON.c:2307-2354 | and with another in its place |
| JsonList.Item.GetItem | src/cJSON/cJSON.c:1866-1883 | The item at an index, null behind the end |
| JsonCompare.CompareMeans | src/cJSON/cJSON.c:3001-3124 | Comparison holds if and only if both trees denote the same value, arrays as sequences and objects as finite maps, and neither holds members of one name that differ |
| JsonCompare.MembersMean | src/cJSON/cJSON.c:3083-3119 | For objects: looking up every member of each in the other means equal maps |
| JsonCompare.CompareEquivalence | src/cJSON/cJSON.c:3001-3124 | On separate copies, comparison is symmetric and transitive, and reflexive exactly on coherent trees; one and the same item equals itself at once |
| JsonCompare.UniqueCoherent | src/cJSON/cJSON.c:3001-3124 | Trees whose objects have unique names are coherent, so comparison is an equivalence on them |
| JsonCompare.TwiceUnequal | src/cJSON/cJSON.c:3083-3119 | Concrete counterexample: an object with one name twice and different values does not compare equal to a separate copy of itself |
| JsonCompare.CloseIsEqual | src/cJSON/cJSON.c:547-551 | For integers in range, equality up to relative precision is equality |
| JsonDuplicate.Duplicate | src/cJSON/cJSON.c:2721-2802 | A recursive duplicate is made of new items, with proper lists at every level, and is the same in every field at every level; the original is untouched; without recursion it is one item without children |
| JsonDuplicate.CopyChildren | src/cJSON/cJSON.c:2757-2790 | Walking the children, each copy is crosswired with the one before, and the first one's prev is the last |
| JsonDuplicate.CopyChild | src/cJSON/cJSON.c:2757-2785 | One child is copied with all below it and linked behind the copies before |
| JsonDuplicate.SameDenotes | src/cJSON/cJSON.c:2721-2802 | What is the same in every field stands for the same value |
| JsonDuplicate.DuplicateCompares | src/cJSON/cJSON.c:2721-3124 | A duplicate compares equal to its original if and only if the value is coherent |
| JsonCompare.GetObjectItem | src/cJSON/cJSON.c:1895-1925 | Walks the children to the first with the name, and gives up at one without a name |
| JsonCompare.CompareItems | src/cJSON/cJSON.c:3001-3124 | Walking the links of two items, comparison says whether their values compare equal, and at once that an item equals itself; for items with parts in common if one of them is coherent |
| JsonCompare.CompareChildren | src/cJSON/cJSON.c:3048-3073 | Two arrays' children are compared in step until one list ends |
| JsonCompare.FindAll | src/cJSON/cJSON.c:3087-3100 | The loop over the children of one object looks each up in the other |
| JsonCompare.OneValue | src/cJSON/cJSON.c:3022-3029 | An item stands for one value, so the shortcut for one and the same item is right on coherent values |
| ShaCompress.ProcessUnrolled | platforms/BL616/utils_sha256.c:199-230 | For every state and block, eight unrolled rounds at a time with permuted register arguments and the schedule extended in place give the compression function of section 6.2.2 of FIPS 180-4, whose constants and functions ShaConstants, ShaSigmas and ShaExamples pin down apart from it |
| ShaCompress.ProcessRolled | platforms/BL616/utils_sha256.c:179-198 | So does the variant with a rotation of the registers every round, so both variants agree |
| ShaCompress.SteppedRound | platforms/BL616/utils_sha256.c:161-167 | A round step on the register array seen j places rotated is one round of the standard seen j+1 places rotated |
| ShaCompress.EightRounds | platforms/BL616/utils_sha256.c:204-224 | Eight steps are eight rounds with the registers back in place |
| ShaCompress.P | platforms/BL616/utils_sha256.c:161-167 | The step macro changes two registers, as specified |
| ShaCompress.R | platforms/BL616/utils_sha256.c:156-159 | The schedule macro extends the message schedule by one word |
| ShaCompress.Majority | platforms/BL616/utils_sha256.c:153 | The majority function in four operations is that of the standard |
| ShaCompress.Choice | platforms/BL616/utils_sha256.c:154 | The choice function in three operations is that of the standard |
| ShaConstants.CubeRoots | platforms/BL616/utils_sha256.c:77-142 | The constants are the fractional parts of cube roots: for each t some n satisfies (n*2^32 + K(t))^3 <= p*2^96 < (n*2^32 + K(t) + 1)^3, where p is the t-th prime |
| ShaConstants.SquareRoots | platforms/BL616/utils_sha256.c:63-72 | The initial hash value is, in the same way, the fractional parts of the square roots of the first eight primes |
| ShaConstants.FirstPrimes | platforms/BL616/utils_sha256.c:77-142 | The 64 numbers of that table are primes, and all primes up to the last |
| ShaConstants.Increasing | platforms/BL616/utils_sha256.c:77-142 | and stand in increasing order |
| ShaSigmas.BigSigma0Bit | platforms/BL616/utils_sha256.c:150 | Each bit of the result is the exclusive or of the bits 2, 13 and 22 places up, around the word (section 4.1.2 of FIPS 180-4) |
| ShaSigmas.BigSigma1Bit | platforms/BL616/utils_sha256.c:151 | of those 6, 11 and 25 places up |
| ShaSigmas.Sigma0Bit | platforms/BL616/utils_sha256.c:147 | of those 7 and 18 places up, around, and 3 places up, if there is one |
| ShaSigmas.Sigma1Bit | platforms/BL616/utils_sha256.c:148 | of those 17 and 19 places up, around, and 10 places up, if there is one |
| ShaExamples.FirstRound | platforms/BL616/utils_sha256.c:161-167 | The first round for the message "abc" has the registers that FIPS 180-2, appendix B.1, prints |
| ShaExamples.SixteenthWord | platforms/BL616/utils_sha256.c:156-159 | Word 16 of the schedule of the bytes 0 to 63, as a number: which words, rotations and byte order go into it |
| ShaExamples.ByteOrder | platforms/BL616/utils_sha256.c:22-30 | Words are written most significant byte first |
| ShaExamples.DigestOrder | platforms/BL616/utils_sha256.c:294-304 | The digest is the eight words in their order |
| ShaBits.MajorityLaw | platforms/BL616/utils_sha256.c:153 | The bit identity behind it |
| ShaBits.ChoiceLaw | platforms/BL616/utils_sha256.c:154 | The bit identity behind it |
| ShaStream.HashChunks | platforms/BL616/utils_sha256.c:231-305 | Streaming independence: for any list of chunks and any choice of variant for each, updates followed by finish give SHA-256 of the concatenation |
| ShaStream.Context.Update | platforms/BL616/utils_sha256.c:231-267 | State is the fold over the complete blocks of everything so far, the buffer its tail, the counter its length; the invariant survives any input |
| ShaStream.Context.Finish | platforms/BL616/utils_sha256.c:276-305 | Padding ends on a block boundary, and the output is the digest of the message |
| ShaStream.Context.Count | platforms/BL616/utils_sha256.c:243-248 | The two-word counter with carry is the length modulo 2^64 |
| ShaStream.Context.Process | platforms/BL616/utils_sha256.c:169-230 | Either variant folds the next block of the message into the state |
| ShaStream.Context.FillBlock | platforms/BL616/utils_sha256.c:250-256 | Completing a partial block folds one block more |
| ShaStream.Context.WholeBlocks | platforms/BL616/utils_sha256.c:258-266 | The block loop folds every whole block and keeps the rest |
| ShaStream.Context.Starts | platforms/BL616/utils_sha256.c:56-75 | The initial state of section 5.3.3 of FIPS 180-4, nothing counted |
| ShaStream.FoldConcat | platforms/BL616/utils_sha256.c:250-262 | Folding a concatenation at a block boundary is folding the parts in turn |
| ShaStream.LengthField | platforms/BL616/utils_sha256.c:282-286 | The eight length bytes are 8 times the message length, modulo 2^64, from the two counter words |
| ShaStream.ZeroBytesLeast | platforms/BL616/utils_sha256.c:288-291 | Padding uses the fewest zero bytes that leave room for the length |
| ShaStream.PaddingCut | platforms/BL616/utils_sha256.c:269-291 | The slice of the padding table is a one bit and those zeros |
| Buttons.Run | src/new_pins.c:2061-2198 | Over every run of readings with any times: the callbacks told, the gestures they end and the levels are exactly those of the machine, reading by reading; when each callback is told, in elapsed times, is ButtonTiming.RunDeclared |
| Buttons.RunsAreGestures | src/new_pins.c:2093-2197 | Whatever the levels and times, the callbacks of the machine's turns are words of the gesture language, the last perhaps unfinished |
| ButtonTiming.RunDeclared | src/new_pins.c:2061-2198 | Timing over every run from rest, however long, with constant times and calls that miss no time awaited: the callbacks are those declared by how long the debounced level has been pressed and released, without states and counters |
| ButtonTiming.CallDeclared | src/new_pins.c:2061-2198 | Each single call calls back what the times up to it declare |
| ButtonTiming.HoldStartIff | src/new_pins.c:2117-2122 | The start of a hold is told if and only if the button has been pressed since a call that told the press, the time from that call to the one before is at most the long time, and the time up to this call is more |
| ButtonTiming.HoldIff | src/new_pins.c:2179-2189 | After a hold or its start is told, the next hold is told exactly by the first call at which more than the repeat time has passed since then; the count begins at 0 after a hold, and after the start of one with what the hold before has left |
| ButtonTiming.HoldFollows | src/new_pins.c:2179-2189 | Every hold told follows a start or a hold told during the same press |
| ButtonTiming.SingleClickIff | src/new_pins.c:2138-2143 | After one press that was no hold, the click is told if and only if the button has been released for more than the short time since the release for the first time; it is told as a single click |
| ButtonTiming.ChangeTurns | src/new_pins.c:2093-2195 | A change of level: a press within the short time after a release goes on with the gesture, a release goes on with it if its press was no hold, or was a further one shorter than the short time; every other begins or ends one |
| ButtonTiming.BriefIff | src/new_pins.c:2164-2176 | The 16-bit counter judges a further press rightly, for all short times, if and only if the press lasted less than 65536 ms |
| Buttons.TurnInLanguage | src/new_pins.c:2093-2197 | Each turn of the machine keeps them there |
| Buttons.LevelRuns | src/new_pins.c:2079-2090 | The levels the machine sees are those of the debouncer |
| Buttons.ChangesIff | src/new_pins.c:2079-2090 | For ticks of at most 181 ms the debounced level changes if and only if the readings that differ from it, in a row up to now, total at least 75 ms |
| Buttons.LongestStreak | src/new_pins.c:2079-2090 | The counter holds the total of the longest unbroken run of differing readings |
| Buttons.DebounceExactIff | src/new_pins.c:2079-2090 | For which tick lengths the 8-bit counter compares exactly: below 75 ms, or 75 to 181 ms modulo 256 |
| Buttons.Button.Handle | src/new_pins.c:2061-2198 | One tick: debounced level, gesture position and callbacks as the machine specifies, with 16-bit tick counters; by elapsed times, ButtonTiming.CallDeclared |
| Buttons.Button.Debounce | src/new_pins.c:2079-2090 | The 8-bit debounce counter as specified |
| Buttons.Button.Advance | src/new_pins.c:2093-2197 | The transitions of the machine, whose timing ButtonTiming.HoldStartIff, HoldIff, SingleClickIff and ChangeTurns state |
| Buttons.Button.TellClick | src/new_pins.c:2138-2160 | A click of k is told only after a number of releases that is k modulo 16, k from 1 to 5; other counts end without one |
| Buttons.Button.ReleaseAgain | src/new_pins.c:2164-2176 | A further release counts if it comes within the short time, and otherwise ends the gesture without a click |
| Buttons.Button.EndHold | src/new_pins.c:2190-2195 | A hold ends with a release and no click |
| Buttons.Button.constructor | src/new_pins.c:808-816 | A new button is idle at the level read |
| Buttons.GoesOn | src/new_pins.c:2093-2197 | A callback that continues the open gesture keeps the log in the gesture language |
| Buttons.GestureEnds | src/new_pins.c:2093-2197 | and so does one that completes it |
| FloatPrint.PrintDecimal | src/nanoprintf.h:736-1021 | The text of a number: sign, exact integer part, and the fraction cut off after the precision or eight digits behind its leading zeros, zeros from there on; never rounded. With precision 0 and no alternative form the names INF, NAN and OOR lose their last letter; a negative precision, as a star can give, takes the fraction, the point and further digits of the integer part away |
| FloatPrint.ExactTruncation | src/nanoprintf.h:533-601 | Integer part and p digits together are the absolute value times 10^p, cut off to an integer |
| FloatPrint.UnitsExact | src/nanoprintf.h:546-578 | From a magnitude of 2^-37 on, the fixed-point value is exactly the magnitude |
| FloatPrint.IeeeValue | src/nanoprintf.h:546-578 | The value meant is that of IEEE 754: one and the 23 bits of fraction, times two to the biased exponent less 127 |
| FloatPrint.BufferBound | src/nanoprintf.h:603-641 | The digits, the point and the zeros of any number take at most 22 of the 32 bytes of the buffer |
| FloatPrint.FtoaRev | src/nanoprintf.h:603-641 | The buffer holds the digits in reverse, within 22 bytes, or a reversed name |
| FloatPrint.CutAndFill | src/nanoprintf.h:916-950 | Cutting or filling up the digits generated gives the fraction that is to be shown, whatever was generated |
| FloatPrint.CutBody | src/nanoprintf.h:916-1020 | Dropping reversed characters from the front and padding behind prints integer part and shown fraction |
| FloatPrint.CutInteger | src/nanoprintf.h:917-919 | A negative precision cuts into the integer part |
| FloatPrint.FractionReversed | src/nanoprintf.h:628-634 | The fraction digits taken off one by one, and the zeros, are the decimal digits of the fraction in reverse, leading zeros included |
| FloatPrint.WriteDigits | src/nanoprintf.h:628-631 | The digit loop writes the reversed decimal digits |
| FloatPrint.WriteInt | src/nanoprintf.h:639 | The integer loop writes at least one digit |
| FloatPrint.PutReversed | src/nanoprintf.h:1014 | Characters are put out from the last to the first |
| FloatText.SplitAbs | src/nanoprintf.h:533-601 | In range exactly below 2^64; integer part exact; zeros, digit count and digits of the fraction as its decimal expansion has them |
| FloatText.IntegerPart | src/nanoprintf.h:552-566 | The shifted mantissa is the integer part, in 64 bits; numbers from 2^23 on have no fraction |
| FloatText.CountZeros | src/nanoprintf.h:580-588 | The leading-zero loop ends, since a non-zero remainder strictly grows, with exactly the number of leading zeros |
| FloatText.FractionDigits | src/nanoprintf.h:590-599 | The digit loop yields up to eight digits behind the zeros, all of them if it stops earlier |
| FloatText.FewZeros | src/nanoprintf.h:580-588 | A non-zero fraction has at most 11 leading zeros, and at most 6 beside a non-zero integer part |
| FloatDigits.DigitsTruncate | src/nanoprintf.h:576-599 | n digits generated by multiplying and masking are the fraction times 10^n cut off, and the remainder is the rest |
| FloatDigits.LeadCountIs | src/nanoprintf.h:580-588 | The loop's count of zeros is the position of the first non-zero digit |
| FloatDigits.Exhausted | src/nanoprintf.h:592 | Once the remainder is 0 all further digits are 0 |
| FloatDigits.TakenApart | src/nanoprintf.h:628-631 | Taking a number apart from the right yields its digits in reverse |
| Base64.DecodeEncode | src/base64/base64.c:18-143 | Round trip: every byte sequence is decoded from its encoding (section 4 of RFC 4648) |
| Base64Bits.EncodedBits | src/base64/base64.c:18-53 | Bit by bit: the k-th character of an encoding is the letter that section 4 of RFC 4648 gives to the bits 6k to 6k+5 of the input, missing bits being 0, and padding where all of them are missing |
| Base64Bits.GroupBits | src/base64/base64.c:34-49 | The four digits of a group are its 24 bits |
| Base64.RoundTrip | src/base64/base64.c:18-143 | Encoding any bytes and decoding the text succeeds and yields the bytes |
| Base64.EncodeValid | src/base64/base64.c:18-107 | Every character of an encoding is one the decoder accepts |
| Base64.DecodedSizeOfEncode | src/base64/base64.c:55-76 | The decoded size computed from the encoding is the length of the input |
| Base64.EncodeLength | src/base64/base64.c:3-14 | Encodings have the length computed for them, 4 for every 3 bytes begun |
| Base64.DecodeSize | src/base64/base64.c:55-76 | A decodable text yields exactly the bytes that its length and padding announce |
| Base64.PaddingOfEncode | src/base64/base64.c:38-49 | An encoding ends in 0, 1 or 2 padding characters, as the length modulo 3 demands |
| Base64.UngroupGroup | src/base64/base64.c:18-143 | One group of 1 to 3 bytes survives encoding and decoding |
| Base64.B64Encode | src/base64/base64.c:18-53 | A new NUL-terminated text with the encoding; none exactly for empty input |
| Base64.EncodeGroup | src/base64/base64.c:34-49 | Writes one group of four characters and nothing else |
| Base64.B64EncodedSize | src/base64/base64.c:3-14 | Rounds up to whole groups |
| Base64.B64DecodedSize | src/base64/base64.c:55-76 | Three bytes for four characters, less one per padding character, in wrap-around arithmetic |
| Base64.B64Decode | src/base64/base64.c:109-143 | Refuses exactly too small a buffer, a length that is no multiple of 4, or a foreign character; what is decodable is decoded within the buffer |
| Base64.DecodeGroup | src/base64/base64.c:129-140 | One group of four characters to up to three bytes, everything before kept |
| Base64.CharFromTable | src/base64/base64.c:16 | The character of each digit is that of the encoder's table |
| Base64.InverseFromTable | src/base64/base64.c:102-106 | The value of each character is that of the decoder's table |

## Left out

MQTT client:

- lwIP itself: TCP may take or refuse any write and offer any send buffer; a received segment is one contiguous byte sequence, so chained buffers and the zero-copy limit they cause do not appear.
- Remaining-length fields of more than four bytes: the source shifts by more than its integers hold; the model stops there (`Overlong`, and `modelled == false` in the client).
- Application callbacks that call back into the client: callbacks are logged, not run. Which callbacks the application has set only decides whether a logged event is seen by anyone.
- The NUL written temporarily behind a received topic; log messages; memory allocation; TLS and address parameters of connect.
- Uniqueness of packet identifiers: the 16-bit counter can come round while an old request is pending; replies then complete the older one, as `RequestPool.Take` says.
- MqttClient.Client.Publish: a payload, if given, is at least as long as its length says; topics are byte sequences without their terminating NUL.
- MqttClient.Client.SubUnsub: the quality of service is below 3, which the source asserts.
- MqttClient.Client.OnNumbered: whether an acknowledgement fits the ring depends on the ring, so the event that records it says that the client answers, and `Respond` when the bytes go out.
- MqttRuns.Run: stops before a segment in which a remaining-length field has more than four bytes; up to there the client runs as the machine does.

Script expressions:

- The values of constants and channels and single-precision arithmetic: atoms and operators are opaque, so the results hold for whatever they mean; the buffer that operands are copied to, and its size.
- Exponents in literals, a sign before anything but a digit, unbalanced brackets and texts with NUL inside are not part of the grammar; the evaluator specification, and the conservation of characters, cover every text all the same.
- A slice whose brackets cross (`Stuck`): the source would copy a negative number of bytes.

JSON:

- Floating-point numbers, their locale, raw items, reference items and constant names: numbers are integers of 32 bits. Number texts that are no such integer are `Unmodelled` for the parser.
- JsonGrammar.TextParsed: texts that the parser accepts although the grammar does not derive them (other control characters as blanks, raw control characters in strings, leading zeros) are described by the parse specification only.
- Allocation failure and allocator hooks; error positions; deletion; minifying; printing into a caller's buffer of no bytes.
- JsonReader.ParseBuffer.ReadNumber: fractions, exponents and larger numbers are not modelled, because what is stored for them depends on rounding.
- JsonList.Item.Replace: the replaced item is unlinked and stays; the source also frees it.
- JsonCompare.CompareItems: names are compared with case; what is said of two different items that have parts in common, neither of them coherent, is left open.
- Null pointers as arguments, which the source refuses; creating items one by one and naming them when they are added to an object.
- JsonUnicode.EscapedScalar: escapes of NUL are read by the source as the end of the C string, which ReadString models by cutting there.

SHA-256:

- The 224-bit variant, which the source switches off; wiping contexts; the context must be used by one caller at a time.

Buttons:

- What callbacks do to channels and relays, reading the pin, and the event field, which nothing reads.
- ButtonTiming.RunDeclared: for constant times, and calls so frequent that adding the time between two of them to a configured time stays within 16 bits (with times of at most 25.5 s, as they are configured, calls at most 40 s apart).
- Buttons.ChangesIff: for ticks of at most 181 ms; for longer ones the 8-bit counter can wrap (Buttons.DebounceExactIff).

Decimal text of floats:

- Field widths and the other float formats; what is printed for INF, NAN and OOR is stated, not whether it should be.

Base64:

- Texts that consist of valid characters but are padded inside: the source reads its table at the padding character and shifts a negative number; the model says `Undefined`.
- Base64.B64Decode: nothing is stated about the buffer when such a text is given.

Not modelled at all, because it is glue or would only add easy members: WiFi, HTTP pages, pin roles, drivers, configuration storage, scripting languages other than expressions, platform entry points.
