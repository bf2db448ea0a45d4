# A verified model of the DDMP client

This project models, in Dafny, the part of the `ddmp` package that decides things: the wire
format of the cooler's protocol, the session that reads it, the confirmation of writes, the two
clients that wait for it, and the discovery of coolers on the network. It proves what those
parts promise, over every input and every run.

| file | what it models |
|---|---|
| `Common.dfy` | bytes, options, results |
| `Base64.dfy` | base64 (section 4 of RFC 4648), written out |
| `LineStream.dfy` | frames, lines ended by CR, the incremental line decoder |
| `Floats.dfy` | doubles as reals rounded by a function `fl`, and the scaling by 1000 |
| `Codecs.dfy`, `Topics.dfy` | the codecs of payloads, the table of topics |
| `Sessions.dfy`, `Models.dfy` | the cached values, the events, the per-compartment state |
| `Readings.dfy` | what each topic's payload means, from its bytes |
| `Writes.dfy`, `ConfirmedWrites.dfy` | SET frames, what confirms them, sequences of them |
| `ScalarWrites.dfy` | what each write sends and which payloads confirm it, from values and bytes |
| `KnownAnswers.dfy` | lines, frames and DNS messages byte for byte |
| `Links.dfy` | a session and a cooler joined by two byte channels |
| `AsyncClients.dfy`, `SyncClients.dfy` | the pending-write protocol on asyncio, the client on two threads |
| `Answers.dfy` | which answer a call gets, over every run and every chunking |
| `ClientsAndCoolers.dfy` | the asyncio client and a cooler joined, a set-point there and back |
| `DnsNames.dfy`, `DnsMessages.dfy`, `Queries.dfy` | names with compression pointers, messages, queries (RFC 1035) |
| `Collectors.dfy`, `Discoveries.dfy` | DNS-SD resolution (RFC 6763), the merging of hits |

How the source's things are stated here:

* An object whose methods change its fields is a class; its methods are proved against functions
  on a value of its state, and what the source promises is proved about those functions, over
  all sequences of calls.
* Concurrency is a state machine. For asyncio a step is the code between two suspension points;
  for threads it is one access to shared state. A step that is not possible changes nothing, so
  that every sequence of steps is a run.
* `fl` stands for the rounding of a real to a double, and is given to every function that
  computes with doubles. It is any function that is monotone, odd and accurate to two millionths
  up to ten thousand million (`Floats.IsRounding`); half a unit in the last place of a double is
  more accurate than that (`Floats.HalfUlpIsEnough`).
* Releases of the standard library differ in whether base64 decoding takes excess padding behind
  a full quantum. The constant that says so (`Base64.TAKES_EXCESS`) has no value, and everything
  holds either way.
* Sockets, clocks and timeouts are parameters of the steps: any chunk, any failure, at any time.

Things the proofs found out about the code, each stated by a lemma below:

* A client that is closed before its reader task has taken its first step leaves its waiters
  waiting until their timeout: a task cancelled before it starts never runs its `finally` block
  (`AsyncClients.CloseStrandsIff`, `AsyncClients.StrandedWaiter`).
* A call whose confirmation has arrived returns it exactly when no timeout or cancellation comes
  before the call has run again (`Answers.ConfirmationIsReportedIff`); a run from the start in
  which a confirmed call reports a timeout is `Answers.TimeoutAfterConfirmation`.
* A set-point within the tolerance of the published value is confirmed by the old array, which
  the cooler publishes first, before anything is stored (`Writes.OldArrayConfirmsIff`; 2.25 while
  2.2 is published: `Writes.ConfirmedByTheOldArray`). The next write then starts from the old
  array and undoes it (`ConfirmedWrites.NextStartsFromStoredIff`,
  `ConfirmedWrites.EarlyConfirmationLosesTheWrite`).
* `_MdnsCollector.add` can raise: exactly when a name in a PTR or SRV record leads to a lone
  pointer byte at the end of the datagram (`Collectors.AddRaisesIff`,
  `Collectors.LoneByteExists`).
* The state cannot be built when the last `nocpt` payload had one to three bytes
  (`Models.StateFailsIff`; a line of the cooler that does it:
  `Models.ShortCountFailsTheState`).
* A written name is read back exactly if each of its labels has 1 to 191 bytes
  (`DnsNames.NameRoundTripIff`), though labels of 0 to 255 bytes are written: an empty label cuts
  the name short (`DnsNames.EmptyLabelCutsTheName`; "a..b" is read as "a":
  `DnsNames.DoubledDotCutsTheName`), and the empty name is written as two zero bytes, of which
  one is read (`DnsNames.EmptyNameTakesTwoBytes`).
* Of two unconfirmed writes to different compartments the first survives exactly if the array
  held its value already (`Writes.UnconfirmedWritesOverwrite`; one that is lost:
  `Writes.LostWrite`).
* A client whose reader has ended on its own, as when the cooler hangs up, never closes its
  writer: `close` returns at once because the client counts as closed
  (`AsyncClients.CloseReleasesIff`, `AsyncClients.WriterIsLeft`).
* A write that switches the cooler or the ice maker on is confirmed by a payload of one to three
  bytes, whatever they are, because such a payload is kept as bytes and bytes are true; one that
  switches it off is confirmed by an empty payload (`ScalarWrites.SwitchConfirmsIff`).
* `WriteRejected` is documented (src/ddmp/errors.py:24-25) as also raised when a different
  value is published. The code raises it for a NAK only (src/ddmp/session.py:72-77), and so
  does the model.

## Model

| member | source | states |
|---|---|---|
| `Base64.DecodeEncode` | src/ddmp/protocol.py:87-89 | decoding inverts encoding, for every byte string |
| `Base64.LetterIsTable1` | src/ddmp/protocol.py:87-89 | the alphabet is that of table 1 in RFC 4648, letter by letter: capitals, small letters, digits, plus and slash |
| `Base64.QuantumIsBits` | src/ddmp/protocol.py:87-89 | three, two or one bytes are written as the four, three or two groups of six bits of the number they are, high bits first, and then padding |
| `Base64.DecodeImage` | src/ddmp/protocol.py:131-131 | a line that decodes begins with a line of the length of its bytes' encoding, which is that encoding exactly when its pad bits are zero; what follows is excess padding behind a full quantum, and there is none where the library refuses it |
| `Base64.EncodeAlphabet` | src/ddmp/protocol.py:87-89 | an encoding holds letters of the alphabet and padding only, hence no CR and no white space, four for every three bytes begun |
| `Frames.DecodeEncode` | src/ddmp/protocol.py:84-98 | decoding a frame's bytes gives the frame back |
| `LineStream.LineDecoder.constructor` | src/ddmp/protocol.py:115-117 | a new decoder is empty and has dropped nothing |
| `LineStream.LineDecoder.Feed` | src/ddmp/protocol.py:119-139 | the loop over the buffer returns the frames, and leaves the buffer and the count, of splitting everything received at CR and reading each line |
| `LineStream.LinesIff` | src/ddmp/protocol.py:123-127 | the lines and the rest are the one way to write the input as CR-ended lines without CR and a rest without CR |
| `LineStream.FeedConcat` | src/ddmp/protocol.py:119-139 | from any decoder state, feeding two chunks gives the frames, buffer and count of feeding their concatenation |
| `LineStream.ChunkingIsInvisible` | src/ddmp/protocol.py:119-139 | the same for any number of chunks |
| `LineStream.RestHasNoCR` | src/ddmp/protocol.py:122-127 | what is left in the buffer never holds a CR, and is left alone when split again |
| `LineStream.FeedAccountsForEveryCR` | src/ddmp/protocol.py:122-138 | the CRs consumed are the frames, the dropped lines and the blank lines together |
| `LineStream.ReadEncodeLine` | src/ddmp/protocol.py:87-98 | the line of a frame holds no CR and is read, after stripping, as that frame |
| `LineStream.ReadPaddedLine` | src/ddmp/protocol.py:126-136 | white space around it does not matter |
| `LineStream.ReadBlankLine` | src/ddmp/protocol.py:126-129 | and a line of white space alone is passed over, and not counted as dropped |
| `LineStream.SpaceIff` | src/ddmp/protocol.py:126-126 | white space there is the blank and the controls 9 to 13 |
| `LineStream.TransmissionIsExact` | src/ddmp/protocol.py:112-143 | frames interleaved with blank and undecodable lines, cut into any chunks, come out as exactly those frames in order, with the bad lines counted and nothing pending, whether the library takes excess padding or not |
| `KnownAnswers.SubscribeLine` | tests/test_protocol.py:47-50 | the subscription to the measured temperatures, 12 04 00 00 1A, is the line "EgQAABo=", byte for byte |
| `KnownAnswers.PublishIsHeard` | tests/test_protocol.py:52-58 | the line "EAQAABrQBwAA", cut in two anywhere, is heard by a new session as 2.0 degrees, and cached |
| `KnownAnswers.OtherFrames` | tests/test_session.py:54-66 | a NAK is a refusal, an action of no meaning is unhandled, and a publish of no topic keeps its bytes |
| `Floats.HalfUlpIsEnough` | src/ddmp/protocol.py:209-219 | the error allowed to `fl` covers a relative error of 2^-53 on everything an int32 scales to |
| `Floats.MilliRoundTrip` | src/ddmp/protocol.py:209-219 | dividing an int32 by 1000, multiplying by 1000 and rounding gives the int32, whatever `fl` |
| `Floats.RoundIff` | src/ddmp/protocol.py:218-219 | rounding gives the nearest integer, and of two the even one |
| `Floats.HalvesGoToEven` | src/ddmp/protocol.py:218-219 | a product that is rounded to half a milli-unit is sent as its even neighbour, whatever it was exactly |
| `Floats.ToMilliMonotone` | src/ddmp/protocol.py:218-219 | scaling and rounding keep order, so rounding cannot cross a bound |
| `Floats.ToMilliNear` | src/ddmp/protocol.py:218-219 | a value that fits is sent within 0.501 milli-units |
| `Floats.FromMilliNear` | src/ddmp/protocol.py:214-216 | a published int32 is read within two millionths of its thousandth |
| `Codecs.Int32sOfPack` | src/ddmp/protocol.py:162-164 | unpacking inverts packing, for any number of int32s |
| `Codecs.PackOfInt32s` | src/ddmp/protocol.py:162-164 | packing inverts unpacking on the whole int32s of any payload, and drops the odd bytes at its end |
| `Codecs.MillisRoundTrip` | src/ddmp/protocol.py:222-229 | encoding a decoded array gives the whole int32s of the payload bit by bit |
| `Codecs.PairsRoundTrip` | src/ddmp/protocol.py:232-245 | the same for the whole pairs of a payload |
| `Codecs.EncodeEachIs` | src/ddmp/protocol.py:205-229 | an array encodes exactly when every element does, and then int32 by int32 |
| `Readings.WrittenHolds` | src/ddmp/protocol.py:174-175 | the four bytes written for an int32 are its 32 bits in two's complement, low byte first |
| `Readings.SwitchReading` | src/ddmp/protocol.py:188-196 | cooler power, compressor and ice maker: on unless the first four bytes are all zero |
| `Readings.NumberReading` | src/ddmp/protocol.py:167-260 | compartment counts, product type, battery protection and power source: the int32 whose bytes stand first, of either sign |
| `Readings.MilliReading` | src/ddmp/protocol.py:209-219 | volts and amperes: a double within two millionths of a thousandth of that int32 |
| `Readings.ShortIsRaw` | src/ddmp/protocol.py:157-159 | a payload of less than four bytes for any of these is kept as it is |
| `Readings.TemperaturesReading` | src/ddmp/protocol.py:222-229 | temperatures, set-points and offsets: such a double for every whole four bytes, in order |
| `Readings.FlagsReading` | src/ddmp/protocol.py:199-206 | compartment power and doors: a flag for every whole four bytes, in order |
| `Readings.RangesReading` | src/ddmp/protocol.py:232-245 | ranges: a lowest and a highest such double for every whole eight bytes, in order |
| `Readings.CodesReading` | src/ddmp/protocol.py:289-294 | error codes: low byte plus 256 times high byte, for every whole two bytes, in order |
| `Readings.TextReading` | src/ddmp/protocol.py:268-272 | texts: what stands before the first NUL, or all, without the white space around it |
| `Readings.BlankIff` | src/ddmp/protocol.py:272-272 | white space there is the blank, the controls 9 to 13 and the separators 28 to 31 |
| `Readings.MacReading` | src/ddmp/protocol.py:278-283 | the hardware address: two hexadecimal digits for each of six bytes, colons between them |
| `KnownAnswers.BelowZero` | tests/test_protocol.py:102-106 | B0 B9 FF FF is minus eighteen, read and written |
| `Topics.TopicAtIff` | src/ddmp/protocol.py:332-381 | the index by address finds a topic exactly at that topic's address, so no two share one |
| `KnownAnswers.LiveAddresses` | tests/test_protocol.py:145-151 | each address of the table with its topic, by number |
| `Topics.WritableIff` | src/ddmp/protocol.py:332-392 | the writable topics are those at parameters 03, 05, 0B, 0D and 11 of class 1A |
| `Topics.NeverWriteIff` | src/ddmp/protocol.py:395-410 | the addresses of the never-write list, as ranges |
| `Topics.WritableIsSafe` | src/ddmp/protocol.py:391-410 | no writable topic has an address of the never-write list |
| `Sessions.Session.constructor` | src/ddmp/session.py:91-95 | a new session has no values, no payloads and an empty decoder |
| `Sessions.Session.Publish` | src/ddmp/session.py:110-120 | a publish updates the payload of its address and the value of its topic, and nothing else |
| `Sessions.Session.Feed` | src/ddmp/session.py:99-108 | events and new state are those of absorbing, in order, the frames decoded |
| `Sessions.ReceivedConcat` | src/ddmp/session.py:99-120 | two chunks leave the state and give the events of their concatenation |
| `Sessions.ValuesFollowRaw` | src/ddmp/session.py:110-120 | in every reachable session a topic has a value exactly when its address has a payload, the value is the codec's reading of it, and array topics hold lists |
| `Models.SetAttribute` | src/ddmp/models.py:136-139 | one array is spread over the slots, and the other attributes stay |
| `Models.SlotCount` | src/ddmp/models.py:134-134 | the count is the least that covers every array and the published number |
| `Models.FromValues` | src/ddmp/models.py:125-140 | there are as many slots as the longest array or the published number, and slot i holds element i of each array that has one, and nothing else |
| `Models.StateFailsIff` | src/ddmp/models.py:134-134 | in a reachable session building the state fails exactly when the last `nocpt` payload has one to three bytes |
| `Models.CountIs` | src/ddmp/models.py:134-134 | otherwise the published number is the int32 of that payload, and 0 when there is none |
| `Models.AttributesIff` | src/ddmp/models.py:125-133 | the arrays spread over the compartments are those of the per-compartment topics |
| `Models.ShortCountFailsTheState` | src/ddmp/models.py:134-134 | and one line of the cooler, a `nocpt` publish of one byte, makes it fail |
| `Writes.WriteExpectation.constructor` | src/ddmp/session.py:55-62 | nothing is observed yet |
| `Writes.WriteExpectation.Matches` | src/ddmp/session.py:64-77 | the verdict is that of the event, and the value last published there is kept as observed |
| `Writes.OnlyWritableTopicsAreSet` | src/ddmp/session.py:139-168 | every frame built is a SET for a writable topic at that topic's address, never one of the never-write list |
| `Writes.SetPointFrame` | src/ddmp/session.py:150-162 | a set-point frame carries the int32s last published, with the one compartment at the milli-units asked for |
| `Writes.PowerFrame` | src/ddmp/session.py:150-162 | a power frame carries the truth values last published, with the one compartment replaced |
| `ScalarWrites.SwitchFrame` | src/ddmp/session.py:163-188 | for cooler power and the ice maker any value is taken and one int32 is sent, 1 for on and 0 for off: of texts "1", "true", "on" and "yes" are on, in small letters or capitals and with white space around or not, and of other values the true ones |
| `ScalarWrites.ProtectionFrame` | src/ddmp/session.py:163-187 | for battery protection "low", "medium" and "high", in small letters or capitals, send 0, 1 and 2, and a number its own int32, if it fits one |
| `ScalarWrites.LevelOf` | src/ddmp/protocol.py:262-265 | every number and each of those words has a level |
| `ScalarWrites.NoLevelIsRefused` | src/ddmp/protocol.py:262-265 | any other word is refused, and so is a list or a pair |
| `ScalarWrites.PowerWordFrame` | src/ddmp/session.py:150-162 | the compartment asked for is sent as 1 for on and 0 for off, in the same words |
| `ScalarWrites.PowerAcceptedIff` | src/ddmp/session.py:150-162 | and is accepted exactly when the array has been published and has that compartment |
| `ScalarWrites.TruthyIff` | src/ddmp/session.py:183-183 | the values that are not true are false, the zeros, and the empty text, bytes and list |
| `ScalarWrites.ArrayRefusals` | src/ddmp/session.py:150-156 | a write to an array is refused as unknown exactly when none has been published, and as of no such compartment exactly when there is one without it; no compartment given is the first |
| `ScalarWrites.NotWritableIff` | src/ddmp/protocol.py:413-435 | an address is refused as unknown exactly when no topic has it, and as not writable exactly when a topic has it that is none of the five |
| `KnownAnswers.SwitchCooler` | tests/test_session.py:108-112 | `True` and "Off" for cooler power are 11 0B 00 00 1A and then 01 00 00 00 or 00 00 00 00 |
| `KnownAnswers.MediumProtection` | tests/test_protocol.py:114-119 | "Medium" for battery protection is 11 0D 00 00 1A 01 00 00 00 |
| `KnownAnswers.SetTwoDegrees` | tests/test_session.py:78-82 | 2.0 degrees over 1.0 are 11 05 00 00 1A D0 07 00 00 |
| `Writes.SetPointStaysInRange` | src/ddmp/session.py:170-175 | the int32 sent lies between the two int32s published as the compartment's range |
| `Writes.SetPointAcceptedIff` | src/ddmp/session.py:147-175 | a set-point is accepted exactly when the array is known, the compartment is in it, the number fits an int32 in milli-units, and it lies in the published range if there is one |
| `ScalarWrites.DegreesFrame` | src/ddmp/session.py:157-162 | the compartment asked for is sent in thousandths of the degrees asked for: a whole number and a truth value exactly, a double within 0.501 |
| `ScalarWrites.WholeDegreesAcceptedIff` | src/ddmp/session.py:147-175 | a whole number is accepted exactly when the array is known and has the compartment, and its thousandths fit an int32 and lie between the two published as the range, if there is one |
| `ScalarWrites.OtherDegrees` | src/ddmp/session.py:184-185 | a truth value is accepted too when there is no range, and a list or a pair is refused |
| `Writes.UnconfirmedWritesOverwrite` | src/ddmp/session.py:150-162 | a second write from the same published array carries the first one's compartment at its old int32, so the first survives it exactly when the array held the int32 asked for already |
| `Writes.LostWrite` | src/ddmp/session.py:150-162 | two accepted writes of which the second frame undoes the first: 5.0 for compartment 0 of 2.0, 3.0, and then 6.0 for compartment 1 |
| `Writes.OldArrayConfirmsIff` | src/ddmp/session.py:64-77 | the old array, published again, confirms a set-point exactly when the value asked for is within the tolerance of the one published, and otherwise decides nothing |
| `Writes.ConfirmedByTheOldArray` | src/ddmp/session.py:64-77 | one it confirms: 2.25 while 2.2 is published |
| `ScalarWrites.SetPointConfirmsIff` | src/ddmp/session.py:80-87 | an array confirms a set-point exactly when it has as many compartments as were sent, the one asked for within 0.051 of the request and each other within 0.051 of what was published before |
| `ScalarWrites.PowerConfirmsIff` | src/ddmp/session.py:80-84 | an array confirms a write of compartment power exactly when it has as many compartments as were sent, each on or off as it was sent |
| `ScalarWrites.SwitchConfirmsIff` | src/ddmp/session.py:83-84 | a payload confirms a write of cooler power or the ice maker exactly when it shows what was asked for: by its first int32, or, when it is too short for one, by not being empty |
| `ScalarWrites.ProtectionConfirmsIff` | src/ddmp/session.py:85-86 | a payload confirms a battery protection level exactly when its first four bytes are the int32 sent |
| `Writes.RoundedEchoConfirms` | src/ddmp/session.py:147-162 | if the cooler publishes every int32 it was sent rounded to within half a tenth of a degree, the write is confirmed |
| `Writes.OtherGridValueDoesNotConfirm` | src/ddmp/session.py:80-87 | a request on the tenth-degree grid is not confirmed by an array with another grid value there |
| `Writes.ExactEchoConfirms` | src/ddmp/session.py:139-168 | for each of the five topics, publishing the very payload sent confirms the write |
| `ConfirmedWrites.WriteLeaves` | README.md:63-69 | when the cooler publishes the old array any number of times and then the one it stored, a write leaves the session at the stored array, or, exactly if the old array passes for it, at the old one |
| `ConfirmedWrites.NextStartsFromStoredIff` | src/ddmp/session.py:64-77 | so the next write starts from what was stored exactly when the old array does not pass for the new one or equals it |
| `ConfirmedWrites.ConfirmedWritesAddUp` | src/ddmp/session.py:139-162 | after any sequence of such writes in which no old array passes for a new one, the array is the first one with each written compartment at its last value: exactly, but for the compartments the cooler itself has rounded since, which are at the tenth of a degree it rounded them to |
| `ConfirmedWrites.EveryFrameCarriesTheWholeArray` | src/ddmp/session.py:157-162 | every frame of the sequence carries exactly the session's int32s with the one compartment at the milli-units asked for, so each other compartment at its last value, or as it was, unless the cooler has rounded it since |
| `ConfirmedWrites.ExactWritesAddUp` | src/ddmp/session.py:139-162 | with a cooler that stores what it is sent, the array holds exactly the last value written to each compartment and the first int32 of each other, the rest of the array included; with no write nothing changes |
| `ConfirmedWrites.EarlyWriteIsLost` | src/ddmp/session.py:64-77 | where an old array does pass, writes do not add up: the next one, for whatever compartment, sends the old array again |
| `ConfirmedWrites.EarlyConfirmationLosesTheWrite` | src/ddmp/session.py:64-77 | such a pair: 2.25 over 2.2, stored as 2.3, and then 6.0 for the other compartment |
| `Links.ClientFollowsCooler` | src/ddmp/session.py:99-120 | in every run of a session and a cooler, cached payloads plus decoder leftover plus bytes in flight give the last payload published for every address; drained, they agree |
| `Links.CoolerHearsClient` | tests/fake_cooler.py:89-124 | the cooler has served a prefix of what was asked, and all of it once the channel is drained |
| `Links.NewValueArrives` | README.md:63-67 | however often the old value is repeated first, a client that has read everything after the new value was published holds it, as payload and as value |
| `Links.SubscribedValueArrives` | tests/fake_cooler.py:115-117 | a subscription brings the payload stored: once the cooler has read it and nothing writes there again, a client that has read everything holds that payload, and its reading |
| `AsyncClients.RunKeepsInv` | src/ddmp/aio.py:103-173 | every run keeps: a waiting future means no decisive event since registration, a completed one names the first, pending holds the live calls once each, the queue holds the events and then the end marks |
| `AsyncClients.AnswersAreTrue` | src/ddmp/aio.py:103-123 | a returned value was published on the address, within tolerance, after the call registered, as the first event to decide it; a rejection means a NAK came first; a lost connection that nothing did |
| `AsyncClients.NoWaiterIsStranded` | src/ddmp/aio.py:157-163 | no registered call is left waiting once the reader has finished, and a waiting call has missed no event |
| `AsyncClients.FuturesSettleOnce` | src/ddmp/aio.py:165-173 | over all runs a future is completed at most once, an answer is given once, a closed client stays closed and sends nothing |
| `AsyncClients.ReasonIsKept` | src/ddmp/aio.py:141-159 | in any run a reader that ends on its own leaves its reason for good, and a closed client |
| `AsyncClients.ClosedKeepsNoReason` | src/ddmp/aio.py:153-159 | and a client that was closed first never gets one |
| `AsyncClients.EachAcceptedWriteIsSentOnce` | src/ddmp/aio.py:90-95 | what is sent is one frame for each write accepted while open, in order, each to a writable topic |
| `AsyncClients.EventsReachTheQueue` | src/ddmp/aio.py:141-163 | the queue holds exactly the events of the bytes read, in order, however chunked, and then one end mark for the reader and one for `close` |
| `AsyncClients.CloseStrandsIff` | src/ddmp/aio.py:64-70 | in any run that begins with `close` and in which the reader ends, a registered call, draining or awaiting, that was waiting and that nothing of its own ends is left waiting exactly when the reader had not taken its first step |
| `AsyncClients.StrandedUntilStopped` | src/ddmp/aio.py:103-123 | such a call hears nothing more and waits, whatever happens, until a timeout, a cancellation or a failed drain ends it |
| `AsyncClients.StrandedWaiter` | src/ddmp/aio.py:64-70 | a run that strands one |
| `AsyncClients.AsyncClient.constructor` | src/ddmp/aio.py:21-37 | a new client is open, waits for nothing and has a reader that has not started |
| `AsyncClients.AsyncClient.SetBegins` | src/ddmp/aio.py:103-114 | `set` up to its first suspension: registered and sent, or refused with nothing left registered |
| `AsyncClients.AsyncClient.SetDrained` | src/ddmp/aio.py:113-115 | once drained a call awaits its future, or returns if that is complete |
| `AsyncClients.AsyncClient.SetDrainFails` | src/ddmp/aio.py:113-123 | a failed drain ends the call, as a timeout if it is one, and unregisters it |
| `AsyncClients.AsyncClient.SetStops` | src/ddmp/aio.py:115-116 | a timeout or cancellation cancels a future that is still waiting, and no other; a cancellation that follows a timeout before the call runs again prevails |
| `AsyncClients.AsyncClient.SetResumes` | src/ddmp/aio.py:115-123 | a call that runs again returns what its future or its interruption says, and is unregistered |
| `AsyncClients.AsyncClient.Resolve` | src/ddmp/aio.py:165-173 | an event completes exactly the registered waiting futures it decides |
| `AsyncClients.AsyncClient.ReaderGets` | src/ddmp/aio.py:144-152 | a chunk is fed, and each event resolves the waiters and is queued, in order |
| `AsyncClients.AsyncClient.FailWaiters` | src/ddmp/aio.py:160-162 | every registered waiting future fails, and no other changes |
| `AsyncClients.AsyncClient.ReaderFinishes` | src/ddmp/aio.py:157-163 | the `finally` block: reason kept, closed, waiters failed, end mark queued |
| `AsyncClients.AsyncClient.ReaderCancelled` | src/ddmp/aio.py:153-163 | a cancelled reader runs its `finally` block if it had started, and nothing if not |
| `AsyncClients.AsyncClient.CloseBegins` | src/ddmp/aio.py:64-68 | the first `close` marks the client closed and cancels the reader; a later one does nothing |
| `AsyncClients.AsyncClient.CloseReleases` | src/ddmp/aio.py:69-77 | once the reader is over the socket is shut down and the writer closed |
| `AsyncClients.AsyncClient.CloseEnds` | src/ddmp/aio.py:78-80 | `close` ends after that, with an end mark |
| `AsyncClients.CloseReleasesIff` | src/ddmp/aio.py:64-80 | in any run that begins with the first `close` and in which it has returned, the writer is closed exactly when the reader had not finished before |
| `AsyncClients.EndedReaderLeavesTheWriter` | src/ddmp/aio.py:64-66 | after a reader that ended on its own no step of any run closes the writer |
| `AsyncClients.WriterIsLeft` | src/ddmp/aio.py:64-66 | so a client whose cooler hangs up keeps its writer, whatever is called on it afterwards |
| `Answers.ConfirmedInEveryRun` | src/ddmp/aio.py:103-173 | over any run and any chunking, if the first event to decide a waiting call confirms it, its future holds the value published, and the call returns it or has yet to run |
| `Answers.RejectedInEveryRun` | src/ddmp/aio.py:103-173 | the same for a NAK, with a rejection |
| `Answers.UnansweredInEveryRun` | src/ddmp/aio.py:103-173 | and if no event decides it, it waits or has lost the connection |
| `Answers.ConfirmationIsReportedIff` | src/ddmp/aio.py:113-123 | in whatever run, a call whose confirmation has arrived and that has returned returned that value exactly when it was not stopped while it awaited; stopped, it reports a timeout or a cancellation |
| `Answers.TimeoutAfterConfirmation` | src/ddmp/aio.py:113-120 | a run from the connected client that ends with a timeout though the confirmation is in the future |
| `Answers.StoppedCallReports` | src/ddmp/aio.py:113-123 | in any run a call that was stopped while it awaited has yet to run again or has reported the timeout, or the cancellation, that stopped it |
| `Answers.FailedDrainReports` | src/ddmp/aio.py:113-123 | a call whose drain fails reports that failure, as a timeout if it is one, for good |
| `Answers.ClosedClientRefuses` | src/ddmp/aio.py:90-114 | a write that is accepted by the session of a closed client is refused as not connected, and nothing is sent |
| `Answers.WriteIsAnswered` | src/ddmp/aio.py:103-173 | for any write, over any run and any chunking: the cooler publishes an old payload, which does not confirm it, any number of times and then one that does; the call returns the value of that one or has yet to run |
| `Answers.WriteIsConfirmed` | src/ddmp/aio.py:103-173 | so for each of the five writable topics, when the cooler publishes the very payload it was sent |
| `Answers.SetPointIsConfirmed` | src/ddmp/aio.py:103-173 | and for a set-point too far from the old array for that to confirm it, when the cooler publishes the array rounded to within half a tenth of a degree: the call returns exactly that array or has yet to run |
| `Answers.OldArrayIsTheAnswer` | src/ddmp/aio.py:103-173 | and a set-point near enough is answered, in the same generality, with the old array |
| `ClientsAndCoolers.ClientAndCoolerAgree` | src/ddmp/aio.py:141-152 | in every joint run of client, cooler and channels, the client's events are those of a prefix of what the cooler sent, and its cache, decoder leftover and bytes in flight make what the cooler published last |
| `ClientsAndCoolers.AnswersComeFromTheCooler` | src/ddmp/aio.py:103-173 | in every joint run a value returned was published by the cooler, at the topic's address and within the tolerance, and a rejection is a NAK of the cooler there |
| `ClientsAndCoolers.CoolerSendsOldThenNew` | tests/fake_cooler.py:112-124 | from the steps of the cooler: one that serves the SETs of an address, stores there only new payloads, reads all it is asked and then announces what it stores sends for that address the old payload any number of times and then a new one, no later than the announcement |
| `ClientsAndCoolers.WriteRoundTrip` | src/ddmp/aio.py:82-173 | the whole way, for any write and over every joint run: the frame is put on the wire, such a cooler serves it, and once the client has read as far as the announcement, in any chunks, the call has returned the value of a new payload or has yet to run |
| `ClientsAndCoolers.ExactRoundTrip` | src/ddmp/aio.py:82-173 | so for each of the five topics with a cooler that stores what it is sent: the call returns the value of that payload |
| `ClientsAndCoolers.SetPointRoundTrip` | src/ddmp/aio.py:82-173 | and for a set-point far enough from the one published, with a cooler that may round to within half a tenth of a degree: the call returns the array sent or the array stored |
| `ClientsAndCoolers.WaitingWriteIsAnswered` | src/ddmp/aio.py:103-173 | in any joint run from a state in which a call waits: once the client has read past old payloads to one that confirms, the call has its value |
| `SyncClients.ClosesAreNotifiedOnce` | src/ddmp/sync_client.py:185-194 | in every interleaving `on_close` is called at most once, with the reason kept, when the client is closed, its socket released and the reader's loop over |
| `SyncClients.EventsAreDelivered` | src/ddmp/sync_client.py:163-184 | `on_event` has received exactly the events of the bytes fed, in order, but for those still to be delivered |
| `SyncClients.ClosedIsForEver` | src/ddmp/sync_client.py:98-131 | the closed mark is never cleared, a released socket takes nothing, and after the mark nothing is sent but at most the one frame that had passed the check |
| `SyncClients.ClosedReaderReadsNoMore` | src/ddmp/sync_client.py:163-184 | once the client is closed, a reader between two reads never feeds the session again |
| `SyncClients.LocalCloseHasNoReason` | src/ddmp/sync_client.py:168-186 | a client closed before its reader settled on an error keeps and reports none |
| `SyncClients.SyncClient.constructor` | src/ddmp/sync_client.py:47-71 | a new client has no socket, no reader and is not closed |
| `SyncClients.SyncClient.Connect` | src/ddmp/sync_client.py:79-94 | a client that has had a socket raises; another gets one, and a reader |
| `SyncClients.SyncClient.PrepareSet` | src/ddmp/sync_client.py:139-144 | the frame is built from the values cached at that moment, or the write is refused |
| `SyncClients.SyncClient.CheckOpen` | src/ddmp/sync_client.py:122-125 | the check raises when there is no socket or the client is closed |
| `SyncClients.SyncClient.Write` | src/ddmp/sync_client.py:126-130 | a frame is written unless the socket is released or fails |
| `SyncClients.SyncClient.BeginClose` | src/ddmp/sync_client.py:98-102 | the first `close` sets the mark; a later one does nothing |
| `SyncClients.SyncClient.ReaderJudges` | src/ddmp/sync_client.py:168-175 | a failure counts as an error only if the client is not closed by then |
| `SyncClients.SyncClient.FeedSession` | src/ddmp/sync_client.py:176-177 | the chunk is fed and its events are to be delivered |
| `SyncClients.SyncClient.Deliver` | src/ddmp/sync_client.py:178-184 | the events are given to `on_event` one by one, whether it raises or not |
| `SyncClients.SyncClient.Notify` | src/ddmp/sync_client.py:190-194 | `on_close` is called with the reason, last of all |
| `SyncClients.SyncClient.Do` | src/ddmp/sync_client.py:75-195 | one step of either thread, by the method of that step, keeps the invariant and leaves the state of the state machine |
| `SyncClients.SyncClient.DoAll` | src/ddmp/sync_client.py:75-195 | so the class goes through any interleaving as the state machine does, and what is proved of its runs holds of the class |
| `DnsNames.ReadName` | src/ddmp/discovery.py:121-147 | the loop, which always ends, reads the name of its denotation, with its end, or fails with the right error |
| `DnsNames.ReadNameRefinesNames` | src/ddmp/discovery.py:121-147 | it returns some labels exactly when the name there means them (section 4.1.4 of RFC 1035) by way of at most 64 pointers |
| `DnsNames.PointerLeads` | src/ddmp/discovery.py:133-142 | two bytes that are 192 and a target of 14 bits, high byte first, are read as the name at that target, when this takes less than 64 pointers more, and end behind the two bytes |
| `DnsNames.PointerIsLow14Bits` | src/ddmp/discovery.py:134-134 | the target is the low 14 bits of the two bytes as one number |
| `DnsNames.WalkIsComplete` | src/ddmp/discovery.py:133-142 | a name of more pointers than that fails as a loop |
| `DnsNames.NamesUnique` | src/ddmp/discovery.py:121-147 | a name has one meaning |
| `DnsNames.CyclesFail` | src/ddmp/discovery.py:139-141 | a name that runs into a pointer cycle has none, and the code fails |
| `DnsNames.NameStaysInside` | src/ddmp/discovery.py:145-147 | a name that is read ends after where it began and inside the data |
| `DnsNames.ReadNameMonotone` | src/ddmp/discovery.py:121-147 | appending bytes changes neither the reading nor the end of a readable name, even with forward pointers |
| `DnsNames.ClipIsSlice` | src/ddmp/discovery.py:143-143 | the bytes taken are those of the slice, which stops at the end of the data |
| `DnsNames.EncodeName` | src/ddmp/discovery.py:113-118 | the loop writes the labels between dots and the root, and fails on a label of 256 bytes |
| `DnsNames.SplitOfJoin` | src/ddmp/discovery.py:115-115 | splitting joined labels gives them back, when none is empty or holds a dot |
| `DnsNames.NamesAreShort` | src/ddmp/discovery.py:133-143 | every label read has 1 to 191 bytes |
| `DnsNames.NameRoundTripIff` | src/ddmp/discovery.py:113-147 | a written name, whatever it is, is read back as its labels, up to its end, anywhere in a message, exactly when every label has 1 to 191 bytes |
| `DnsNames.JoinOfSplit` | src/ddmp/discovery.py:113-118 | and those labels, joined, are the name without the dots around it |
| `DnsNames.EmptyLabelCutsTheName` | src/ddmp/discovery.py:113-147 | a name with an empty label inside is read back as what stands before it |
| `DnsNames.DoubledDotCutsTheName` | src/ddmp/discovery.py:113-147 | so "a..b", none of whose labels is too long, is read back as "a" |
| `DnsNames.EmptyNameTakesTwoBytes` | src/ddmp/discovery.py:113-118 | the empty name is written as two zero bytes and read as one |
| `DnsMessages.ParseResponse` | src/ddmp/discovery.py:179-198 | the parser returns the records of walking the questions and then the records |
| `DnsMessages.PassQuestions` | src/ddmp/discovery.py:187-189 | the first loop stops after the questions, or where a name cannot be read |
| `DnsMessages.CollectRecords` | src/ddmp/discovery.py:190-195 | the second loop collects the records up to the first that is not there |
| `DnsMessages.ParseIsBounded` | src/ddmp/discovery.py:179-198 | n records take at least 12 + 11 n bytes whatever the header claims, rdata lies inside the message, and offsets strictly increase |
| `DnsMessages.TruncationKeepsRecords` | src/ddmp/discovery.py:179-198 | the records of a cut message are the first of the whole, the last possibly with shorter rdata |
| `DnsMessages.WireNameIsRead` | src/ddmp/discovery.py:121-147 | a name laid out in full or ending in a pointer is read as what it stands for, up to its own end |
| `DnsMessages.ParseInvertsEncode` | src/ddmp/discovery.py:179-198 | every message whose names resolve, in full or through at most 64 pointers, parses into exactly its records |
| `KnownAnswers.AnswerIsParsed` | src/ddmp/discovery.py:179-198 | an answer of an A record and a TXT record whose owner is C0 0C, byte for byte, is parsed into those two records of one name |
| `KnownAnswers.AnswerIsLearned` | src/ddmp/discovery.py:209-228 | and teaches a collector the address and the attribute |
| `DnsMessages.TargetsAreRead` | src/ddmp/discovery.py:212-224 | each record is reported where its rdata stands, so the name that ends the rdata of a PTR or SRV record is read as the name it stands for |
| `Queries.BuildQuery` | src/ddmp/discovery.py:164-176 | the loop packs the header and each question, or fails where one cannot be packed |
| `Queries.QueryIsRead` | src/ddmp/discovery.py:164-198 | a query for ordinary names is a message of just these questions, which a reader passes to its very end, finding no record |
| `Queries.QueryIsFound` | src/ddmp/discovery.py:164-176 | and at the start of each question a reader finds the name, the type and the class asked for |
| `Queries.ClassIs` | src/ddmp/discovery.py:171-171 | the class is 1, with the high bit for a unicast answer |
| `Queries.HeaderIs` | src/ddmp/discovery.py:173-173 | the header is zero but for the number of questions, high byte first |
| `Queries.AskedIs` | src/ddmp/discovery.py:172-172 | without questions of its own a query asks for the PTR records of the service |
| `KnownAnswers.DefaultQuery` | tests/test_discovery.py:108-112 | the query for the service "a", byte for byte, with and without the wish for a unicast answer |
| `KnownAnswers.DottedName` | src/ddmp/discovery.py:113-118 | ".a.b." is written as 1 "a" 1 "b" 0 |
| `Collectors.ParseTxt` | src/ddmp/discovery.py:150-161 | the loop reads the items one by one, the last of a key counting |
| `Collectors.TxtRoundTrip` | src/ddmp/discovery.py:150-161 | a TXT record of attributes, with a value or without (section 6.3 of RFC 6763), is read as those attributes, the last of a key counting, values stripped and empty where there is none |
| `Collectors.AttributeIsRead` | src/ddmp/discovery.py:154-160 | an attribute alone is read with its key as it stands and its value without the white space around it |
| `Collectors.PtrTeaches` | src/ddmp/discovery.py:212-217 | a PTR record of the service, laid out in full or with pointers, teaches the instance it names |
| `Collectors.SrvTeaches` | src/ddmp/discovery.py:218-224 | an SRV record teaches the port and the host it names, under its owner name |
| `Collectors.TxtAndAddressTeach` | src/ddmp/discovery.py:225-228 | a TXT record teaches its entries under its owner name, an A record an address under its owner name in lower case |
| `Collectors.WholeAnswerResolves` | src/ddmp/discovery.py:209-266 | one message with one PTR record of the service, one SRV and one TXT record of the instance it names and an A record of the host, among any others and however the names are compressed, lists that service with its port, host, attributes and address, and leaves nothing to ask |
| `Collectors.RecordIsHeard` | src/ddmp/discovery.py:209-228 | what a record teaches is learned in whichever datagram it comes, unless one before it there raises |
| `Collectors.RoundLeaves` | src/ddmp/discovery.py:249-266 | once datagrams, any number in any order, have answered every question asked, what is still missing are addresses of hosts that the answers named, none of them known |
| `Collectors.RoundSettles` | src/ddmp/discovery.py:249-266 | so nothing is missing if the answers came with the addresses of those hosts |
| `Collectors.TwoRoundsSettle` | src/ddmp/discovery.py:249-266 | and otherwise nothing is missing after a second round, of answers to the questions left |
| `Collectors.NamedOnlyIsAsked` | src/ddmp/discovery.py:252-256 | an instance that is only named, by a PTR record alone, is asked for by its SRV and its TXT record |
| `Collectors.LookupIff` | src/ddmp/discovery.py:268-276 | a lookup succeeds exactly when some key is the name but for case |
| `Collectors.LookupFinds` | src/ddmp/discovery.py:268-276 | it gives the value of the name itself if that is a key, and otherwise of the first key that is the name but for case |
| `Collectors.LowerIff` | src/ddmp/discovery.py:271-274 | two names are the same but for case exactly when they are as long and each byte is the same or a letter in its other case |
| `Collectors.LowerIsSmall` | src/ddmp/discovery.py:271-274 | a name in small letters holds no capital |
| `Collectors.ServiceOrQuestion` | src/ddmp/discovery.py:230-266 | an instance has a service exactly when no SRV question is asked for it |
| `Collectors.QuestionsAreExact` | src/ddmp/discovery.py:249-266 | an SRV question is asked for each instance without a service, a TXT question for each without a service or a TXT entry, an A question for each host of a service without an address, and no other |
| `Collectors.ListsFollowTheOrder` | src/ddmp/discovery.py:230-266 | services and questions come in the order of the instances |
| `Collectors.NothingMissingIff` | src/ddmp/discovery.py:249-266 | nothing is missing exactly when every instance has a service, a TXT entry and an address |
| `Collectors.Dedupe` | src/ddmp/discovery.py:237-237 | the addresses of a service are those heard, without repetition |
| `Collectors.DedupeKeepsTheOrder` | src/ddmp/discovery.py:237-237 | in the order in which they were first heard |
| `Collectors.ResolvedStays` | src/ddmp/discovery.py:209-228 | over any datagrams, instances with a service and addresses of hosts only grow |
| `Collectors.ResolvedIff` | src/ddmp/discovery.py:230-247 | and those instances are exactly the ones listed as services |
| `Collectors.SameDatagramTwice` | src/ddmp/discovery.py:209-266 | adding a datagram a second time changes neither the services nor the questions, even when it raises |
| `Collectors.AddRaisesIff` | src/ddmp/discovery.py:212-224 | `add` raises exactly when a name it reads leads, past at most 64 pointers, to a lone pointer byte at the end |
| `Collectors.OrdinaryEndsNeverRaise` | src/ddmp/discovery.py:209-228 | so no datagram whose last byte is below 192 makes it raise |
| `Collectors.LoneByteRaises` | src/ddmp/discovery.py:218-224 | every response of one SRV record whose target is one pointer byte makes it raise |
| `Collectors.LoneByteExists` | src/ddmp/discovery.py:218-224 | so, whatever service is browsed, some datagram makes it raise |
| `Collectors.MdnsCollector.constructor` | src/ddmp/discovery.py:202-207 | a new collector knows nobody |
| `Collectors.MdnsCollector.Add` | src/ddmp/discovery.py:209-228 | a datagram teaches the facts of its records in order, up to the one that raises |
| `Collectors.MdnsCollector.AddRecord` | src/ddmp/discovery.py:211-228 | one record teaches one fact, nothing, or raises |
| `Collectors.MdnsCollector.ListServices` | src/ddmp/discovery.py:230-247 | the services of the instances, in the order given |
| `Collectors.MdnsCollector.ListMissing` | src/ddmp/discovery.py:249-266 | the follow-up questions, in the order given |
| `Discoveries.MatchesIff` | src/ddmp/discovery.py:366-370 | an id matches by its last six characters; comparing the whole id adds nothing |
| `Discoveries.NormalizedHex` | src/ddmp/discovery.py:30-32 | hexadecimal digits written with colons or dashes anywhere between them are the same id as without, in small letters |
| `Discoveries.NormalizedWithBlanks` | src/ddmp/discovery.py:30-32 | and so with blanks around them |
| `Discoveries.WrittenIdMatches` | src/ddmp/discovery.py:366-370 | an id so written matches exactly the hits whose short id is its last six digits |
| `Discoveries.ShortIdIs` | src/ddmp/discovery.py:359-364 | the short id is the last six digits of the cooler's id, or, without one, what follows the last underscore of its name, in small letters |
| `Discoveries.KeyIs` | src/ddmp/discovery.py:385-385 | a hit is stored under its short id, or, without one, under its name in small letters |
| `Discoveries.Discovery.Remember` | src/ddmp/discovery.py:384-400 | a hit is stored under its key, merged with the entry there |
| `Discoveries.EntriesKeepTheirKeys` | src/ddmp/discovery.py:384-400 | every entry is stored under its own key, whatever was merged |
| `Discoveries.EntriesSummariseHits` | src/ddmp/discovery.py:384-400 | there is one entry for each key among the hits, with the first value that is not empty of every field and all sources |
| `Discoveries.NoMatchIsLost` | src/ddmp/discovery.py:384-400 | the entry under a hit's key has that hit's short id, so whatever the hit matches the entry matches |
| `Discoveries.FindCooler` | src/ddmp/discovery.py:441-448 | the loop returns a listed entry that matches, or there is none |
| `Discoveries.CoolerIsFoundIff` | src/ddmp/discovery.py:441-448 | it finds a cooler exactly when some single hit matches, and then the one entry that merges all hits of that id, in whatever order entries are listed |

## Left out

* Text is held one character a byte: UTF-8 decoding with replacement, Unicode case folding and
  Unicode white space are not modelled; lower case and stripping are those of ASCII.
- Writes.Coerce: does not read numbers from strings or bytes (`float("2.5")`, `int(b"2")`), and
  refuses them; a string is a value only for booleans and enums, bytes only for booleans.
- Topics.Resolve: takes topics and addresses, not topic names or address texts (`Address.parse`).
* NaN and infinities, and the overflow of doubles; a rounding `fl` is a function on reals.
* `StrCodec` and `Mac6Codec` are decoders only, as nothing writable has them; `Int32ArrayCodec`,
  which no topic uses, `subscribe_frame` and `publish_frame` are left out.
* The scalar fields of `CoolerState`, which copy one value each, and its error texts.
* What actions other than PUBLISH and NAK mean to a client; their frames become unhandled
  events, as in the source.
* In `Links` and `ClientsAndCoolers` the cooler answers as `tests/fake_cooler.py` does, weakened
  to any number of old values first and the new value whenever it chooses; other clients of the
  same cooler appear as changes of its stored values.
* In `AsyncClients`: `subscribe_all` (its frames, but not its spacing, are steps of
  `ClientsAndCoolers`), `events`, the cancellation of `close` itself, the value observed that a
  timeout message shows, and real time.
* In `SyncClients`: `on_event` and `on_close` callbacks that call back into the client, the
  subscribe burst, and receive timeouts other than as a step.
* `sorted(self.instances)` is a parameter: any listing of the instances, each once.
* The addresses of A records stay four bytes; `inet_ntoa` is not modelled.
* In `Discoveries`, how hits are made from replies and services, and the sorting of entries.
* Sockets, keepalive, the multicast setup and timing of `query_mdns`, `probe_ddmd`, the JSON of
  DDMD replies, logging, and `__main__.py`.
