# A verified model of the MQTT bundle and of the RT-Thread services beside it

The repository has two halves: a WeChat applet whose only substantial code is a bundled MQTT stack
(`Applets/utils/mqtt.js`), and firmware built on RT-Thread (`Device/`). This project models the parts of both
where a mistake would be hard to see, and proves for all inputs, all runs or all reachable states what they
promise.

| file | what it models |
|---|---|
| `Punycode.dfy` | the RFC 3492 encoder and decoder, with adaptive bias and the two overflow checks |
| `PunycodeStandard.dfy`, `PunycodeSamples.dfy` | what a Punycode string stands for by RFC 3492 alone, and samples |
| `Utf8.dfy`, `StringDecoder.dfy` | the UTF-8 codec of the bundled Buffer and its streaming decoder |
| `Utf8Standard.dfy`, `AsciiStream.dfy` | both by the numbers of RFC 3629, for bytes that are valid and bytes that are not |
| `BufferList.dfy` | the fragmented buffer under the parser |
| `PacketCodec.dfy` | the fields of MQTT 3.1 and 3.1.1 packets, written and read back |
| `PacketStream.dfy`, `PacketParser.dfy` | the resumable parser, as a state machine over bytes and as the object that runs it |
| `PacketText.dfy`, `PacketWriter.dfy` | packets with JavaScript strings, and the writers |
| `WireFormat.dfy`, `WireErrors.dfy` | the bytes of packets by position, as MQTT 3.1.1 gives them, and the errors |
| `PacketExchange.dfy` | both ends together: packets written, cut into chunks and parsed |
| `Properties.dfy`, `PropertyFormat.dfy` | the property block of MQTT 5 packets, and how the standard reads it |
| `Session.dfy` | the client session as a state machine: QoS 1 and 2, the store, replay after reconnect |
| `Traffic.dfy` | what the client writes and queues |
| `PacketReplay.dfy` | the packets replayed after a reconnect |
| `OutgoingSafety.dfy`, `OutgoingLoss.dfy`, `OutgoingWrites.dfy` | when a message published is kept until it is acknowledged, how it is lost, and what is written under its id |
| `IncomingDelivery.dfy` | what becomes of messages received over whole runs |
| `MqttClient.dfy` | the client object, whose handlers are the steps of that machine |
| `SmpLock.dfy`, `SmpLedger.dfy` | the lock all CPUs share, its nesting, its hand-over at a context switch, and its counters as a ledger |
| `Printf.dfy`, `PrintfMeaning.dfy` | `rt_vsnprintf` and `print_number`, and what each conversion prints |
| `Crc8.dfy`, `CrcDivision.dfy`, `SensorScale.dfy` | the checksum of the SHT3x sensor, as a remainder too, the readout that relies on it and its scale |
| `RtList.dfy` | the intrusive circular list |
| `MallocAlign.dfy` | aligned allocation on top of the heap |
| `DmaRing.dfy` | UART reception through a circular DMA buffer |

Code that only computes is a function; code that updates fields, buffers or loop variables is a class or a method
whose `ensures` ties it to such a function, and the theorems are about the functions. Bit masks and shifts on
non-negative numbers are written with `/` and `%`. Where the code and its comments differ, the model follows the
code. What two parts of the code merely agree on among themselves is also measured against a standard written out
with its own numbers: RFC 3492, RFC 3629, MQTT 3.1.1 and 5.0, polynomial division, the sensor's data sheet.

## Results that are not what one would expect

- Punycode: the encoder bounds `delta`, the decoder bounds `i + delta`. `RoundTrip` says exactly which strings come
  back (`Fits`), `RoundTripCanOverflow` shows one that does not, and `ShortRoundTrip` that up to 1927 code units
  always do. The encoder adapts its bias with the count at the start of a pass, the decoder with the current one;
  the biases agree only because the delta of a repeat is below that count (`SameBias`, `RepeatDelta`).
- `utf8ToBytes` drops one replacement character when a string ends in two lead surrogates, and only then
  (`LosesOnlyTwoLeads`).
- CONNECT counts UTF-16 units for its client id. A packet whose client id is not ASCII is always refused by the
  parser (`ConnectReadsBack`, both directions).
- A slice of a `BufferList` whose end comes before its start is not empty when the start lies in a fragment longer
  than the distance and the end in an earlier one (`List.Slice`, both directions).
- The client does not check that an id is free before it draws it. A message can take over an id that is still
  stored. Some run then loses it before any acknowledgement of its own exactly if another packet under that id, an
  older message or the PUBREL of one, has yet to be read by a replay that some acknowledgement will resume, or if
  such a PUBREL is still in the queue (`NoLoss`, `LossPossible`). Runs from a new client lead there (`MessageLost`).
- `divide` treats every base but 10 as 16, so `%o` prints octal digits only of numbers below 8 (`DigitsExact`,
  `OctalExact`), and a precision of 0 leaves out the digits of any number (`NumberExact`).
- `rt_malloc_align` with a size close to 2^32 wraps; the region returned lies inside the block exactly when it does
  not (`RegionInside`, `SizeWraps`).
- An idle interrupt of the UART served before a waiting full mark does harm exactly when a part of the lap was
  reported already (`LateIdle`): it then reports 2^32 minus the index, and the mark handler the whole buffer again
  (`LateServiceReportsTwice`).
- The driver computes temperatures up to 0.0027 degrees above those of the sensor's data sheet, never below
  (`TemperatureClose`).
- Two wrong bits pass the sensor's checksum exactly when 127 divides their distance (`TwoErrors`).

## Model

| member | source | states |
|---|---|---|
| Punycode.Ucs2RoundTrip | Applets/utils/mqtt.js:9640-9685 | encoding the code points of any string of UTF-16 units, lone surrogates included, gives the string back |
| Punycode.ComputeUcs2Decode | Applets/utils/mqtt.js:9640-9664 | the loop with its one-unit look-ahead yields the code points by recursion |
| Punycode.WriteInt | Applets/utils/mqtt.js:9928-9942 | the inner loop writes the generalized variable-length digits of delta |
| Punycode.ReadDigits | Applets/utils/mqtt.js:9794-9820 | reading those digits back yields i + q * w, or the overflow error exactly when that exceeds 2^31 - 1, for any position in the number |
| Punycode.ReadNext | Applets/utils/mqtt.js:9794-9820 | the decoder's inner loop reads one integer and reports each of its errors as the recursive reader does |
| Punycode.ComputeAdapt | Applets/utils/mqtt.js:9731-9739 | the bias loop computes the adapted bias |
| Punycode.AdaptBound | Applets/utils/mqtt.js:9731-9739 | no delta the code can meet drives the bias above 213, which keeps the weights from overflowing on their own |
| Punycode.KeptInsert | Applets/utils/mqtt.js:9834-9835 | the decoder's splice turns the code points emitted so far into those emitted one step later |
| Punycode.RepeatDelta | Applets/utils/mqtt.js:9912-9943 | the delta of a repeated code point is below the count fixed at the start of its pass |
| Punycode.SameBias | Applets/utils/mqtt.js:9912-9943 | adapting with that count and with the current one gives the same bias at every step |
| Punycode.StaysInStep | Applets/utils/mqtt.js:9899-9952 | from any pair of encoder and decoder states that agree on n, i and bias, decoding what the encoder still emits yields the whole input, or overflow exactly when a step does not fit |
| Punycode.PointsRoundTrip | Applets/utils/mqtt.js:9748-9954 | for every sequence of code points the encoder accepts, decoding its output gives the sequence back if it fits and the overflow error otherwise |
| Punycode.RoundTrip | Applets/utils/mqtt.js:9748-9954 | the same for every string |
| Punycode.ShortRoundTrip | Applets/utils/mqtt.js:9748-9954 | strings of at most 1927 units are always encoded and decoded back |
| Punycode.RoundTripCanOverflow | Applets/utils/mqtt.js:9748-9954 | a sequence that is encoded but not decoded, because the two limits differ |
| Punycode.OverflowAhead | Applets/utils/mqtt.js:9912-9925 | when the scan's delta passes the limit, the encoding by steps overflows too, so the early check loses nothing |
| Punycode.Decode | Applets/utils/mqtt.js:9748-9840 | the decoder computes the recursive decoding with its errors, and ends |
| Punycode.InsertPoint | Applets/utils/mqtt.js:9822-9835 | one insertion with the new n, i and bias, or the overflow of n |
| Punycode.CopyBasic | Applets/utils/mqtt.js:9771-9782 | the basic code points before the last delimiter are copied, a non-basic one is an error |
| Punycode.Encode | Applets/utils/mqtt.js:9849-9954 | the scanning encoder computes the step-by-step encoding with its overflow error, and ends |
| Punycode.Scan | Applets/utils/mqtt.js:9912-9947 | one pass over the input emits what is due at n, with the count fixed before it, and leaves delta as the next pass needs it |
| Punycode.FindSmallest | Applets/utils/mqtt.js:9903-9908 | the smallest code point not below n |
| PunycodeStandard.EncodesByStandard | Applets/utils/mqtt.js:9849-9954 | whatever is encoded is the basic code points, a hyphen if there are any, and digits which, read by section 3 of RFC 3492 with the numbers of its section 5, stand for the input |
| PunycodeStandard.DecodesByStandard | Applets/utils/mqtt.js:9748-9840 | whatever is decoded, of letters and digits behind the last hyphen, is what that reading yields |
| PunycodeStandard.RefusesByStandard | Applets/utils/mqtt.js:9748-9840 | what is refused is too large, breaks off within an integer, or has a code point that is not basic in front, which is exactly the error for that |
| PunycodeStandard.DigitsStand | Applets/utils/mqtt.js:9928-9942 | the digits written for a number are, each times the product of 36 - t over those before it, that number |
| PunycodeStandard.BiasIs | Applets/utils/mqtt.js:9731-9739 | the bias is that of section 3.4 of RFC 3492 |
| PunycodeStandard.PairStands | Applets/utils/mqtt.js:9640-9664 | two surrogates are the code point RFC 2781 says |
| PunycodeSamples.Umlaut | Applets/utils/mqtt.js:9849-9954 | a word with one umlaut, encoded and decoded |
| PunycodeSamples.TwoScripts | Applets/utils/mqtt.js:9849-9954 | sample (N) of section 7.1 of RFC 3492, encoded and decoded |
| Utf8.ReadsBytes | Applets/utils/mqtt.js:3360-3431 | decoding the UTF-8 of any scalar values yields them |
| Utf8.ReadsValid | Applets/utils/mqtt.js:3360-3431 | encoding what valid UTF-8 decodes to yields the bytes |
| Utf8.SliceAfterToBytes | Applets/utils/mqtt.js:4075-4153 | decoding the bytes of a string gives it back if it is well-formed UTF-16, and otherwise its scalar values with U+FFFD for lone surrogates, short of the lost one |
| Utf8.LosesOnlyTwoLeads | Applets/utils/mqtt.js:4106-4111 | a replacement character is lost if and only if the string ends in two lead surrogates, and then exactly one |
| Utf8.ToBytesAfterSlice | Applets/utils/mqtt.js:3360-3431 | encoding the decoding of valid UTF-8 is the identity |
| Utf8.SliceWellFormed | Applets/utils/mqtt.js:3360-3431 | arbitrary bytes decode to well-formed UTF-16 |
| Utf8.Utf8Slice | Applets/utils/mqtt.js:3360-3431 | the decoding loop computes the decoding of the clamped range, and ends |
| Utf8.Utf8ToBytes | Applets/utils/mqtt.js:4075-4153 | the encoding loop, with its remembered lead surrogate, computes the encoding |
| Utf8Standard.ReadsAllBytes | Applets/utils/mqtt.js:3360-3431 | any bytes decode to the characters RFC 3629 sees in them, with one U+FFFD for each byte that begins none |
| Utf8Standard.WritesBits | Applets/utils/mqtt.js:4075-4153 | a character is written in the fewest bytes, and its bits are where RFC 3629 puts them |
| Utf8Standard.WritesPair | Applets/utils/mqtt.js:3360-3431 | above 0xFFFF a character becomes the two surrogates of RFC 2781 |
| StringDecoder.StreamIsSlice | Applets/utils/mqtt.js:12675-12799 | for valid UTF-8 in any chunks, the concatenated results of write and end are the decoding of the whole |
| StringDecoder.StreamOfPrefix | Applets/utils/mqtt.js:12675-12799 | text cut off anywhere yields all its complete characters, and at the end one U+FFFD if a character was cut |
| StringDecoder.TextSplits | Applets/utils/mqtt.js:12716-12791 | the text of a chunk stops in front of a character it cuts off, and keeps its bytes |
| StringDecoder.AtMostThreePending | Applets/utils/mqtt.js:12675-12799 | whatever the bytes, valid or not, never more than three are pending |
| StringDecoder.Decoder.Write | Applets/utils/mqtt.js:12675-12689 | write on the object with its four-byte buffer is the step of the stream |
| StringDecoder.Decoder.End | Applets/utils/mqtt.js:12795-12799 | end returns the last text and one U+FFFD for pending bytes |
| AsciiStream.AsciiKept | Applets/utils/mqtt.js:12675-12799 | whatever the bytes, valid or not, and wherever they are cut, the ASCII characters come through, each once and in order |
| BufferList.List.Append | Applets/utils/mqtt.js:7191-7219 | the contents grow by the new bytes at the end |
| BufferList.List.Offset | Applets/utils/mqtt.js:7179-7188 | the fragment and place found stand for the offset, empty fragments included; past the end a place in the last fragment, without fragments nothing |
| BufferList.List.Slice | Applets/utils/mqtt.js:7255-7261 | a slice over any fragments, with negative and excess ends, is the slice of their concatenation if and only if it does not stray |
| BufferList.StraysPossible | Applets/utils/mqtt.js:7299-7303 | two fragments and a range that strays |
| BufferList.List.Copy | Applets/utils/mqtt.js:7264-7328 | all three paths of copy yield the range of the concatenation; a range that ends before it starts yields nothing if and only if it does not stray |
| BufferList.List.ReadUInt8 | Applets/utils/mqtt.js:7410-7416 | a byte at an offset is that byte of the concatenation |
| BufferList.List.Consume | Applets/utils/mqtt.js:7358-7371 | the front is dropped from the concatenation, and length stays its size |
| PacketCodec.ReadsBody | Applets/utils/mqtt.js:7579-8018 | for every packet a writer accepts, the payload parser reads back its fields from its bytes, whatever follows them in the buffer |
| PacketCodec.BodyTail | Applets/utils/mqtt.js:8237-8846 | the bytes after the fixed header are as many as the remaining length each writer adds up |
| PacketCodec.ReadsConnectFields | Applets/utils/mqtt.js:7670-7731 | flags and optional fields of CONNECT are read back together |
| PacketCodec.ReadsSubscriptions | Applets/utils/mqtt.js:7806-7829 | any list of filters with their QoS is read back, up to the end of the packet |
| PacketStream.ReadsLength | Applets/utils/mqtt.js:8019-8051 | a remaining length is read as soon as all its bytes have arrived, and not before |
| PacketStream.RunAwaits | Applets/utils/mqtt.js:7538-7553 | however the parser's loop is interrupted, what it holds and what is to come stay the rest of the packets, and none is lost or emitted twice |
| PacketStream.AnyChunking | Applets/utils/mqtt.js:7538-7632 | the bytes of any list of packets, in any chunks, make the parser emit exactly those packets in order, with no error and nothing left over |
| WireFormat.WritesByPosition | Applets/utils/mqtt.js:8182-8846 | for every packet a writer accepts: its first byte, its length field, and each field at its place, by the numbers of sections 2 and 3 of MQTT 3.1.1, with nothing between or behind them and reserved bits 0 |
| WireFormat.ReadsByPosition | Applets/utils/mqtt.js:7579-8018 | whatever the parser reads, from any bytes, stands where the standard puts it |
| WireFormat.HeaderRead | Applets/utils/mqtt.js:7554-7565 | type, dup, QoS and retain of any first byte |
| WireFormat.LengthRead | Applets/utils/mqtt.js:8019-8051 | a length field of one to four bytes, seven bits a byte |
| WireFormat.ConnackWritten | Applets/utils/mqtt.js:8423-8452 | the four bytes of CONNACK |
| WireFormat.ConnackRead | Applets/utils/mqtt.js:7738-7758 | bit 0 of the first byte is the session flag, the second byte the code |
| WireFormat.AckWritten | Applets/utils/mqtt.js:8514-8550 | the four bytes of each acknowledgement, the id high byte first |
| WireFormat.AcceptsConforming | Applets/utils/mqtt.js:8252-8362 | the writers refuse exactly what the standard forbids of the fields |
| WireErrors.FailsByPosition | Applets/utils/mqtt.js:7579-8018 | every packet is read or refused as its bytes say, with the error of the first field that is missing or wrong |
| PacketParser.Parser.Parse | Applets/utils/mqtt.js:7538-7553 | a call of parse on the object feeds one chunk to that machine and returns the bytes left |
| PacketParser.Parser.ParsePayload | Applets/utils/mqtt.js:7579-7633 | the payload parsers, working on a position in the fragmented buffer, compute the readers of PacketCodec with their errors |
| PacketParser.Parser.ParseVarByteNum | Applets/utils/mqtt.js:8019-8051 | the loop with its multiplier computes the length field, up to five bytes |
| PacketParser.Parser.ParseSubscriptions | Applets/utils/mqtt.js:7806-7829 | the loop over filters yields the list or the first error |
| PacketText.TextAnyChunking | Applets/utils/mqtt.js:8237-8511 | packets with well-formed strings come out of the parser as they were written, strings included, in any chunks |
| PacketText.ConnectReadsBack | Applets/utils/mqtt.js:8269-8271 | CONNECT is read back if its client id is ASCII and refused otherwise |
| PacketText.TextLengthIsRaw | Applets/utils/mqtt.js:8252-8362 | the declared length is the number of bytes if and only if the client id is ASCII |
| PacketText.SameName | Applets/utils/mqtt.js:7646-7650 | comparing protocol names after decoding is comparing their bytes |
| PacketExchange.GenerateAll | Applets/utils/mqtt.js:8182-8213 | packets generated one after the other write the stream of the whole list |
| PacketExchange.ParseAll | Applets/utils/mqtt.js:7538-7553 | a new parser given that stream in any chunks emits the packets as they were written, raises no error and keeps no byte |
| PacketExchange.Exchange | Applets/utils/mqtt.js:7538-8213 | what one end generates the other receives, wherever the bytes are cut |
| PacketWriter.GenVarByteInt | Applets/utils/mqtt.js:7449-7475 | the bytes of a length below 2^28, in a buffer of the precomputed size; larger ones throw |
| PacketWriter.CalcLengthIs | Applets/utils/mqtt.js:7449-7455 | the precomputed size is the number of bytes of the length field |
| PacketWriter.Stream.Generate | Applets/utils/mqtt.js:8182-8213 | a packet is written completely or, when a check fails, not at all |
| PacketWriter.AcceptsWritable | Applets/utils/mqtt.js:8237-8362 | the writers' checks let through exactly the packets that read back |
| PacketWriter.Stream.WriteConnect | Applets/utils/mqtt.js:8364-8421 | the fields of CONNECT in their order |
| PacketWriter.Stream.WriteSubscriptions | Applets/utils/mqtt.js:8641-8663 | the loop writes each filter and its options |
| PacketWriter.Stream.WritePublish | Applets/utils/mqtt.js:8454-8511 | topic, id for QoS above 0, payload |
| Properties.GetProperties | Applets/utils/mqtt.js:9004-9124 | for well-typed properties the length is that of the block, prefix included; refused exactly when an entry is empty |
| Properties.WriteProperties | Applets/utils/mqtt.js:9205-9220 | the block written is the length prefix and all entries, arrays and user properties expanded |
| Properties.SendProperties | Applets/utils/mqtt.js:9004-9220 | the length computed beforehand is the number of bytes written afterwards |
| Properties.BlockEnds | Applets/utils/mqtt.js:8019-8051 | read back as a length field, the prefix ends the block where it ends |
| PropertyFormat.ReadsBlock | Applets/utils/mqtt.js:9145-9220 | read by section 2.2.2 of MQTT 5.0, identifier by identifier, a block gives its length and then exactly its properties in order |
| PacketReplay.ReplayOnReconnect | Applets/utils/mqtt.js:1362-1460 | when 'connect' is emitted, the packets replayed are those stored at CONNACK, in store order, and then the QoS 1 or 2 messages accepted during the replay; each once and each after the previous one completed, and the store is empty |
| PacketReplay.StepContents | Applets/utils/mqtt.js:1362-1460 | every event keeps: the packets replayed so far, unread in the stream and not replayed in the store are the pending ones, unchanged |
| Session.StepKeeps | Applets/utils/mqtt.js:1362-1460 | every event keeps the replay invariant: stream, store, ids marked and packets on the wire agree on what is done |
| Session.StepReachable | Applets/utils/mqtt.js:929-1460 | every event keeps ids in the store unique, and callbacks of earlier connections harmless |
| Session.IdsDistinct | Applets/utils/mqtt.js:1310-1318 | any 65535 consecutive ids are in 1..65535 and different |
| Traffic.NothingElseWritten | Applets/utils/mqtt.js:929-993 | in every run, over all its connections, the packets written besides the replay and those queued are those the events call for and those queued before, each as often |
| Traffic.QueueInOrder | Applets/utils/mqtt.js:206-230 | the queue is first in, first out, over closes and reconnects |
| Traffic.StepMoves | Applets/utils/mqtt.js:929-993 | what each event writes at once and what it leaves in the queue |
| OutgoingSafety.StepStreaming | Applets/utils/mqtt.js:1396-1455 | every event keeps: the replay stream has each id once and is read to its end before it ends |
| OutgoingSafety.NoLoss | Applets/utils/mqtt.js:460-482 | an accepted QoS 1 or 2 message that is not overwritable stays stored through any events until a PUBREC with its id, and it or its PUBREL from then on until a PUBACK or PUBCOMP with its id, while fewer than 65535 ids are drawn, even when it takes over an id still stored |
| OutgoingLoss.LossPossible | Applets/utils/mqtt.js:1396-1438 | for every overwritable message a run that puts another packet in its place, without an id drawn and without a PUBACK, PUBREC or PUBCOMP under its id |
| OutgoingLoss.MessageLost | Applets/utils/mqtt.js:1310-1438 | a run from a new client, over the wrap-around of the ids, to a reachable state in which an accepted message is overwritten by an older one or by its PUBREL, is never sent and never acknowledged |
| OutgoingWrites.OnlyItself | Applets/utils/mqtt.js:460-482 | under the conditions of NoLoss, until a PUBREC with its id nothing but the message itself is written under its id |
| OutgoingWrites.NotSentAgain | Applets/utils/mqtt.js:1222-1237 | after a PUBREC on a connection whose replay has passed the message, only PUBRELs are written under its id, on any connection, until its PUBCOMP |
| OutgoingWrites.AckForgets | Applets/utils/mqtt.js:1193-1265 | a PUBACK or PUBCOMP leaves nothing under its id in the store, outstanding or to be replayed |
| OutgoingWrites.CloseForgets | Applets/utils/mqtt.js:103-115 | a close forgets subscriptions that wait for their SUBACK, and nothing else |
| IncomingDelivery.ExactlyOnce | Applets/utils/mqtt.js:1114-1142 | in every run the messages delivered are those the received packets call for: each PUBREL delivers the latest PUBLISH of its id since the last PUBREL |
| IncomingDelivery.NoSecondDelivery | Applets/utils/mqtt.js:1273-1294 | a repeated PUBREL without a new PUBLISH delivers nothing |
| IncomingDelivery.EveryReleaseAnswered | Applets/utils/mqtt.js:1273-1294 | in every run, over all its connections and for every id, the PUBCOMPs written plus those queued are as many as the PUBRELs received, known or not, plus those queued before |
| IncomingDelivery.EveryPublishAnswered | Applets/utils/mqtt.js:1114-1172 | likewise PUBACKs answer the QoS 1 PUBLISHes received, PUBRECs those with QoS 2, and nothing any other |
| MqttClient.Client.Handle | Applets/utils/mqtt.js:417-1460 | whatever the event, the handlers of the object do one step of the session and keep its invariant |
| MqttClient.Client.HandleAll | Applets/utils/mqtt.js:417-1460 | after any run the fields of the object are those of the session, and the results on delivery, answers, packets written and queued, stored messages and replay hold of them |
| MqttClient.Client.OnConnect | Applets/utils/mqtt.js:1362-1460 | the handler starts the replay on the object as in the model |
| MqttClient.Client.ReadStream | Applets/utils/mqtt.js:1396-1438 | one read of the store's stream: skip, resend with a resuming callback, or stop |
| MqttClient.Client.OnStreamEnd | Applets/utils/mqtt.js:1440-1455 | at the end of the stream the replay is over or starts again |
| MqttClient.Client.HandleAck | Applets/utils/mqtt.js:1193-1265 | PUBACK and PUBCOMP complete the exchange, remove the packet and run its callback |
| MqttClient.Client.HandlePubrec | Applets/utils/mqtt.js:1222-1237 | PUBREC replaces the stored message by its PUBREL |
| MqttClient.Client.HandlePublish | Applets/utils/mqtt.js:1114-1172 | delivery or storing by QoS, and the answer |
| MqttClient.Client.HandlePubrel | Applets/utils/mqtt.js:1273-1294 | delivery from the store, removal, and PUBCOMP |
| MqttClient.Client.Publish | Applets/utils/mqtt.js:417-485 | a publish draws an id, is stored and sent or queued, and is noted during a replay |
| MqttClient.Client.StorePacket | Applets/utils/mqtt.js:977-993 | what is queued and what goes to the store while offline |
| MqttClient.Client.OnClose | Applets/utils/mqtt.js:200-203 | a close keeps the store and the non-volatile callbacks |
| MqttClient.Client.DrawId | Applets/utils/mqtt.js:1310-1318 | the id drawn and its wrap-around |
| SmpLock.StepKeeps | Device/rt-thread/src/cpu.c:20-185 | every step of every CPU keeps: a CPU holds the lock if and only if its thread's nest is up and it is not waiting, and all counters add up |
| SmpLock.RunSafe | Device/rt-thread/src/cpu.c:126-185 | after any interleaving from power-on at most one CPU is inside, only the holder releases, and each scheduler count is the thread's spin locks, held or being taken or released, plus one if its nest is up |
| SmpLock.HandOff | Device/rt-thread/src/cpu.c:176-185 | a context switch leaves the lock held exactly when the incoming thread's nest is positive |
| SmpLock.NestedPairs | Device/rt-thread/src/cpu.c:126-168 | while the outermost pair is open, nested pairs and whatever other CPUs do neither take nor release the lock |
| SmpLock.TakenAndReleased | Device/rt-thread/src/cpu.c:126-185 | over any run, the times taken and released differ by whether it is held |
| SmpLock.SchedulesWithoutSpinLocks | Device/rt-thread/src/scheduler.c:333 | a thread inside has scheduler_lock_nest 1 exactly when it holds no spin lock and none of its spin lock calls is under way |
| SmpLedger.CountersCountCalls | Device/rt-thread/src/cpu.c:20-185 | over any run the two counters of a thread grow by the calls it made less the calls it undid |
| SmpLedger.HeldWhileOpen | Device/rt-thread/src/cpu.c:126-168 | from power-on a running thread that is not waiting holds the lock exactly while it made more lock than unlock calls |
| SmpLedger.LockTakes | Device/rt-thread/src/cpu.c:126-147 | a call when the lock is free takes it |
| SmpLock.Kernel.CpusLock | Device/rt-thread/src/cpu.c:126-147 | the function up to its spin lock is one step |
| SmpLock.Kernel.CpusUnlock | Device/rt-thread/src/cpu.c:153-168 | the function is one step |
| SmpLock.Kernel.CpusLockStatusRestore | Device/rt-thread/src/cpu.c:176-185 | the function is the hand-over |
| SmpLock.Kernel.DisablePreemption | Device/rt-thread/src/cpu.c:20-40 | the function is one step |
| SmpLock.Kernel.EnablePreemption | Device/rt-thread/src/cpu.c:45-66 | the function up to rt_schedule is one step |
| Printf.Vsnprintf | Device/rt-thread/src/kservice.c:777-1040 | for every format, arguments and size: the length of the whole rendering, as much of it as fits and a terminator, nothing at or past the size |
| Printf.Format | Device/rt-thread/src/kservice.c:810-1025 | the loop over the format writes its rendering |
| Printf.TakeDirective | Device/rt-thread/src/kservice.c:820-883 | flags, width, precision and qualifier are read as the grammar says, from the format or the arguments |
| Printf.SkipAtoi | Device/rt-thread/src/kservice.c:588-595 | the number at the front of the format |
| Printf.Sink.PrintNumber | Device/rt-thread/src/kservice.c:606-775 | the loops over a shrinking size write sign, padding, zeros and digits as the layout says |
| Printf.FillDigits | Device/rt-thread/src/kservice.c:676-683 | the digits fit the temporary buffer and are its contents in reverse |
| Printf.NumberParts | Device/rt-thread/src/kservice.c:643-774 | the text is blanks, sign, digits and blanks, with blanks on one side only |
| Printf.NumberExact | Device/rt-thread/src/kservice.c:643-774 | the digits printed are the magnitude in the base asked for if and only if it is zero, or precision is not 0 and the base is not 8 or the magnitude below 8 |
| Printf.NumberWidth | Device/rt-thread/src/kservice.c:685-774 | the width is the maximum of the field width and sign plus digits or precision, less the digits left out at precision 0 |
| Printf.SignedMagnitude | Device/rt-thread/src/kservice.c:652-664 | signed 32-bit numbers keep their size and sign, the smallest included |
| Printf.Divide | Device/rt-thread/src/kservice.c:568-586 | quotient and remainder by 10, or by 16 for every other base |
| Printf.DigitsBack | Device/rt-thread/src/kservice.c:568-586 | the digits of any number in base 10 or 16 read back as the number |
| Printf.DigitsExact | Device/rt-thread/src/kservice.c:568-586 | the digits are the number in its own base if and only if the base is not 8 or the number is below 8 |
| Printf.OctalExact | Device/rt-thread/src/kservice.c:967-1015 | an octal directive prints the octal digits exactly of numbers below 8, and the hexadecimal ones of all |
| PrintfMeaning.ReadsSpec | Device/rt-thread/src/kservice.c:820-883 | flags, width, precision, qualifier and conversion written into a format are what is understood |
| PrintfMeaning.StarWidth | Device/rt-thread/src/kservice.c:836-848 | a width from the arguments counts as one in the format; a negative one also sets the minus flag |
| PrintfMeaning.StarPrecision | Device/rt-thread/src/kservice.c:850-866 | a precision from the arguments counts as one in the format; a negative one is 0 |
| PrintfMeaning.PrintsInteger | Device/rt-thread/src/kservice.c:967-1022 | every integer conversion, with any flags, width, precision and qualifier, prints the sign the flags ask for and digits that represent the number meant, in its base, its letter case and its field; an octal one prints hexadecimal digits |
| PrintfMeaning.PrintsNoDigits | Device/rt-thread/src/kservice.c:685-774 | with precision 0 it prints no digits but zeros that fill the field |
| PrintfMeaning.PrintsPlain | Device/rt-thread/src/kservice.c:967-1022 | without flags and width: sign and digits, and no zero in front |
| PrintfMeaning.PrintsDecimal | Device/rt-thread/src/kservice.c:979-981 | a minus sign exactly for negative numbers, and the decimal digits of the size, for every 32-bit number |
| PrintfMeaning.PrintsChar | Device/rt-thread/src/kservice.c:890-911 | the low byte of the argument, in its field |
| PrintfMeaning.PrintsString | Device/rt-thread/src/kservice.c:913-943 | the text cut to a precision above 0, or the null text, in its field |
| PrintfMeaning.PrintsPointer | Device/rt-thread/src/kservice.c:945-960 | eight hexadecimal digits of the pointer |
| PrintfMeaning.PrintsPercent | Device/rt-thread/src/kservice.c:962-965 | one percent sign |
| PrintfMeaning.PrintsUnknown | Device/rt-thread/src/kservice.c:984-999 | what is no directive is printed as it stands and takes no argument |
| PrintfMeaning.PrintsText | Device/rt-thread/src/kservice.c:810-818 | everything else is copied |
| PrintfMeaning.DigitTable | Device/rt-thread/src/kservice.c:638-645 | the two tables of digits |
| Printf.Sink.PutString | Device/rt-thread/src/kservice.c:913-943 | a string, padded on the side the flags say |
| Printf.FieldFilled | Device/rt-thread/src/kservice.c:890-943 | a padded character or string fills its field and stands at the side the flags say |
| Printf.WidthReads | Device/rt-thread/src/kservice.c:588-595 | a width or precision written in decimal is read back as its number, up to the first character that is no digit |
| Printf.Sink.PutChar | Device/rt-thread/src/kservice.c:890-911 | a character, padded likewise |
| Crc8.ComputeCrc | Device/packages/sht3x-v1.0.0/sht3x.c:70-81 | the two loops compute the checksum register |
| Crc8.RegisterIsFeed | Device/packages/sht3x-v1.0.0/sht3x.c:70-81 | byte by byte and bit by bit give the same register |
| CrcDivision.CrcIsRemainder | Device/packages/sht3x-v1.0.0/sht3x.c:70-81 | the checksum is the remainder of the message, its first byte inverted and eight zeros behind it, divided by x^8 + x^5 + x^4 + 1 |
| CrcDivision.CrcOfNothing | Device/packages/sht3x-v1.0.0/sht3x.c:70-81 | the checksum of no bytes |
| CrcDivision.CheckValue | Device/packages/sht3x-v1.0.0/sht3x.c:70-81 | the check value of the data sheet, 0x92 for BE EF |
| Crc8.Linear | Device/packages/sht3x-v1.0.0/sht3x.c:70-81 | registers of two messages differ by the register of their difference |
| Crc8.BurstDetected | Device/packages/sht3x-v1.0.0/sht3x.c:70-81 | messages of any length that differ within eight consecutive bits have different checksums |
| Crc8.OddDetected | Device/packages/sht3x-v1.0.0/sht3x.c:70-81 | so do messages that differ in an odd number of bits |
| Crc8.ComesRound | Device/packages/sht3x-v1.0.0/sht3x.c:70-81 | shifting by d bits leaves the register of a single bit unchanged if and only if 127 divides d |
| Crc8.TwoErrors | Device/packages/sht3x-v1.0.0/sht3x.c:70-81 | messages of any length that differ in two bits have the same checksum if and only if 127 divides the distance of the bits |
| Crc8.FewErrorsDetected | Device/packages/sht3x-v1.0.0/sht3x.c:107-117 | one to three wrong bits in up to fifteen bytes are detected; the driver reads three at a time |
| Crc8.Residue | Device/packages/sht3x-v1.0.0/sht3x.c:70-81 | a message followed by one byte leaves zero if and only if that byte is its checksum |
| Crc8.CorruptionRejected | Device/packages/sht3x-v1.0.0/sht3x.c:107-117 | a frame that passes the driver's test fails it after any such corruption |
| Crc8.Sensor.ReadSingleShot | Device/packages/sht3x-v1.0.0/sht3x.c:93-136 | success exactly when both checksums are right; each value is stored when its own is |
| SensorScale.WordOrder | Device/packages/sht3x-v1.0.0/sht3x.c:108-114 | the high byte of a reading comes first |
| SensorScale.TemperatureClose | Device/packages/sht3x-v1.0.0/sht3x.c:108 | the temperature is that of the data sheet, or less than 0.0027 degrees above it |
| SensorScale.HumidityClose | Device/packages/sht3x-v1.0.0/sht3x.c:114 | the humidity is that of the data sheet to a millionth of a percent |
| RtList.Node.constructor | Device/rt-thread/include/rtservice.h:47-50 | a node alone is a ring |
| RtList.InsertAfter | Device/rt-thread/include/rtservice.h:58-65 | in a ring with the node at any index, the new node comes right behind it; every ring apart from it stays a ring |
| RtList.InsertBefore | Device/rt-thread/include/rtservice.h:73-80 | likewise right in front of the node |
| RtList.Remove | Device/rt-thread/include/rtservice.h:86-92 | without the node at any index the rest is a ring, the removed node is one, and so is every ring apart from them |
| RtList.Rotate | Device/rt-thread/include/rtservice.h:47-118 | a ring can be read from any of its nodes |
| RtList.SameRing | Device/rt-thread/include/rtservice.h:47-118 | the links determine the sequence |
| RtList.IsEmpty | Device/rt-thread/include/rtservice.h:98-101 | empty means the head alone |
| RtList.Len | Device/rt-thread/include/rtservice.h:107-118 | the walk ends and counts the nodes besides the head |
| MallocAlign.RegionInside | Device/rt-thread/src/kservice.c:1229-1266 | the region and the word in front of it lie in the block if and only if no size wrapped, and then the pointer is aligned |
| MallocAlign.Heap.Allocate | Device/rt-thread/src/kservice.c:1229-1266 | the pointer returned, the word stored in front of it, and nothing for a failed allocation |
| MallocAlign.SizeWraps | Device/rt-thread/src/kservice.c:1229-1266 | for every size within three bytes of 2^32 four bytes are asked for, and the region lies outside the block |
| MallocAlign.FreesTheBlock | Device/rt-thread/src/kservice.c:1275-1281 | whatever was written to the region, the block freed is the block allocated |
| MallocAlign.Heap.RealPointer | Device/rt-thread/src/kservice.c:1275-1281 | the pointer freed is the block remembered at the allocation, if only the region was written since |
| MallocAlign.Heap.UseAndFree | Device/rt-thread/src/kservice.c:1229-1281 | allocating, writing anything anywhere in the region and freeing hands back the block the heap returned |
| MallocAlign.MaskIsRemainder | Device/rt-thread/src/kservice.c:1249-1256 | masking with a power of two minus one takes the remainder |
| DmaRing.Conserved | Device/drivers/drv_usart.c:578-592 | in every run where marks are serviced in time, reports are contiguous ranges that hold the received bytes in order and add up to them at each report |
| DmaRing.StepKeeps | Device/drivers/drv_usart.c:651-681 | each byte and each interrupt in time keeps that, without underflow |
| DmaRing.StepExact | Device/drivers/drv_usart.c:578-681 | from any state that conserves the bytes, an event keeps it so if and only if it is a byte or its handler's arithmetic is right there: no wrap since the last report or the index back at the old one, and for a mark at index 0 exactly one wrap |
| DmaRing.RunExact | Device/drivers/drv_usart.c:578-681 | a run conserves the bytes throughout if and only if all its events are of that kind |
| DmaRing.IdleExact | Device/drivers/drv_usart.c:578-592 | the idle handler keeps the bytes conserved if and only if there was no wrap or the index met the old one, and then reports all of them if there was no wrap |
| DmaRing.LateIdle | Device/drivers/drv_usart.c:578-592 | an idle interrupt before a waiting mark keeps the bytes conserved if and only if no full mark waits or nothing of its lap was reported |
| DmaRing.LateIdleReports | Device/drivers/drv_usart.c:578-592 | otherwise it reports 2^32 minus the index, and the mark handler then the whole buffer |
| DmaRing.MarkExact | Device/drivers/drv_usart.c:651-681 | the mark handler keeps the bytes conserved if and only if there was one wrap that ends at index 0, or none and the index is not 0, or the index met the old one |
| DmaRing.ByteBeforeMark | Device/drivers/drv_usart.c:651-681 | once a byte arrives while a full mark waits, each handler keeps the bytes conserved if and only if the old index was 1 |
| DmaRing.LateServiceReportsTwice | Device/drivers/drv_usart.c:1113-1118 | in a buffer of any size above one, a run from the start whose last idle interrupt comes before the full mark reports the whole buffer a second time |
| DmaRing.Uart.UartIsr | Device/drivers/drv_usart.c:578-592 | the handler, from the counter register, is that step |
| DmaRing.Uart.DmaIsr | Device/drivers/drv_usart.c:651-681 | the handler is that step |

## Left out

- Punycode.Decode: a code unit below 22, between 9 and A or between Z and a gives a negative digit in the source; the model stops there with an error of its own.
- Punycode.ReadNext: stops likewise at such a code unit.
- Utf8.Utf8ToBytes: the optional limit on the number of bytes is not modelled, because only partial writes into a fixed buffer use it.
- BufferList.List.Append: a single buffer is appended; arrays, other lists, strings and numbers are not.
- BufferList.List.Copy: always into a new buffer, as `slice` does.
- BufferList: `shallowSlice`, `duplicate`, writable streams and the other numeric readers.
- PacketParser.Parser.Parse: requires that no error was raised before. After an error `_resetState` keeps `_pos`, and reading goes on from a wrong place.
- PacketParser.Parser.ParsePayload: stops with an error of its own at protocol level 5 and at a PUBLISH whose id reaches past its end.
- PacketStream.AnyChunking: is about packets the writers accept; parsers of malformed packets look past the end of the packet, so what they do depends on the chunks.
- PacketCodec.ReadsBody: protocol level 5 is not parsed (the model stops with an error), nor is a PUBLISH whose id reaches past its end.
- PacketWriter.Stream.Generate: JavaScript's type checks and default values are replaced by types; protocol names other than MQTT and MQIsdp, numbers out of range and the dup flag on acknowledgements, for which the header tables have no entry, are excluded.
- Properties.GetProperties: is about properties of the types their names call for and says nothing of others.
- Properties: MQTT 5 packets as a whole, `getPropertiesByMaximumPacketSize`, and parsing of properties, where repeated falsy values overwrite each other; null values and values of wrong type inside arrays.
- PacketReplay.ReplayOnReconnect: assumes a broker that acknowledges only ids sent on the connection, and that ids drawn during the replay are not in use.
- Session: unsubscribe, `end`, `reconnect`, `removeOutgoingMessage`, custom handlers and stores, topic aliases, keepalive and all timers.
- MQTT sockets, WebSockets, TLS and the applet's pages.
- SmpLock.StepKeeps: calls are assumed to be paired and nested less than 65536 deep, and a switch in an interrupt to happen at nest 1; `rt_enter_critical`, priorities and the ready queues are not modelled.
- Printf.Vsnprintf: the size is taken to be at most that of the buffer, so the unlimited `rt_vsprintf` is not covered; an argument of the wrong kind reads as 0 or as the null text; widths do not wrap at 32 bits.
- Printf.TakeDirective: width and precision do not wrap at 32 bits.
- Printf.SkipAtoi: the number does not wrap at 32 bits.
- MallocAlign.Heap.Allocate: alignments that are not powers of two; the heap itself is a parameter and is assumed to return four-aligned blocks below the top of memory.
- RtList: the singly linked list and the iteration macros, which would only add easier members.
- DmaRing.Conserved: the copy from the buffer to the reader happens later and is not modelled; the ranges are compared when they are reported.
- Clock, GPIO, ADC, I2C and display drivers and the application threads, which are register setup and calls into libraries.
