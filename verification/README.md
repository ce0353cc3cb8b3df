# openDAQ LT streaming protocol: a verified model

This project models the openDAQ LT streaming protocol as a producer/consumer pair in Dafny 4.11 and
proves what the two sides guarantee together. `dafny verify dfyconfig.toml` checks everything.

- **Transport.** `Framing` is the 32-bit packet header with its optional length word, as in section 3
  "Transport Layer" of the openDAQ Stream Protocol Specification 1.5.0. `Reader` is the reading step
  machine, generic in what packets are dispatched to. `Session` and `ProtocolHandlers` plug the
  consumer into it.
- **Consumer.** `Signals` and `Container` give the effect of descriptions and data on a subscribed
  signal and on the container, `Stamps` the times of callbacks over stretches of data, `LinearRule` when
  linear rules stay valid. `SubscribedSignals` and `SignalContainers` are the objects that are
  updated in place, proved against those functions. `Tables` proves when the table index is exact,
  `Interference` that data of one signal does not disturb another.
- **Producer.** `Producer` holds synchronous, constant and linear time signals with all their
  operations, `ProducerSignals` the writing objects, `Numbering` and `Announcements` the session side.
- **Both.** `Lockstep` keeps producer and consumer in step over every operation, `Runs` over whole runs
  with announcements in between, `EndToEnd` through bytes and arbitrary chunks, `Samples` and `Settings`
  down to the time of each sample, `Conversion` down to each value.
- **Arithmetic.** `Layout` (value size), `ConstantRule` (indexed buffers), `Ticks`, `Factorization` and
  `Scheduler`.

The main results are for all inputs, runs or reachable states:

1. Every session, from its first byte, with any permitted run of signal operations and announcements and
   in whatever chunks its bytes arrive, is accepted to the last byte, makes exactly the expected callbacks
   and leaves the consumer in step (`EndToEnd.EndToEndFromStart`). An encoding that the theorem applies to
   exists for every run (`EndToEnd.EveryRunTransmissible`).
   - Any session of any producer, permitted or not, stays open if and only if it subscribes only what is
     not subscribed, unsubscribes and describes only what is, and describes no time signal with delta zero
     and no constant signal with a start value that is not a number (`EndToEnd.SessionOpenIff`).
   - Value indices agree after every step, and every sample taken while its signal is subscribed is
     delivered once, in order, at `anchor + index * delta` modulo 2^64 for the anchor and delta received
     last, if and only if no samples are added while the table's time signal is not subscribed
     (`Samples.TrueRunIff`, `EndToEnd.SamplesFromStart`). How samples are grouped into packets does not
     matter (`Samples.MergeIrrelevant`).
   - That anchor and delta are the producer's own if and only if no step leaves the consumer with old
     settings (`Settings.SettingsRunIff`, `EndToEnd.OwnTimesFromStart`).
   - Unit, range and scaling reach the consumer if and only if no step withholds them
     (`Settings.AttributesRunIff`).
   - Replaying the announcements gives the data signals the session holds
     (`EndToEnd.AnnouncementsFromStart`).
2. The table index equals a plain scan of the subscribed signals over a whole run if and only if every
   description follows a discipline stated on the members of the message and the index before it
   (`Tables.ExactFromStartIff`).
3. The step machine refines a parser of complete packets on every byte string, independently of
   chunking, and stops for good at the first refusal (`Reader.PumpParses`, `Reader.ChunksIrrelevant`,
   `Reader.FailStop`).
4. On the consumer alone, over any stretch of data, packets are called back at the time of the last time
   packet under an explicit time signal, and at `anchor time + (index - anchor index) * delta` under a
   linear one (`Stamps.ExplicitDelivery`, `Stamps.LinearDelivery`); the value index is the last one given
   plus the values counted since (`Signals.IndexOfRun`).
5. The conversion of delivered values stays within every packet if and only if a value is counted with at
   least the bytes the conversion takes (`Conversion.InsideIff`); for a signal in step it always does, and
   its values arrive as written (`Conversion.ConstantsArrive`, `Conversion.ValuesArrive`).
6. Factorisation is correct and canonical (`Factorization.GetPrimeFactorExponents`,
   `Factorization.Canonical`), the scheduler does not drift (`Scheduler.NoDrift`,
   `Scheduler.NoDriftBuildIff`), tick conversion is exact under an exact condition (`Ticks.ExactIff`).

Eleven statements one might expect of the program hold only under a condition. Each is stated as an
if-and-only-if with that condition, and has a lemma at a failing input:

- A packet is read back as it was written: iff the payload has 1 to 2^32 - 1 bytes and the number has 20
  bits (`Framing.RoundTripIff`, witness `Framing.EmptyPacketDesynchronises`).
- The table index stays exact: iff described signals keep table and role and a table has one time signal
  (`Tables.MetaExactIff`, witness `Tables.SecondClockRemovesTable`).
- What a producer writes is accepted: iff it keeps to the subscription discipline, deltas are not zero and
  start values are numbers (`Runs.AcceptedRunIff`, witness `Lockstep.OddStartRejected`).
- Value indices and sample times agree: iff no samples are added to a subscribed signal while its table
  has no subscribed time signal (`Samples.TrueRunIff`, witness `Samples.LateClock`).
- The consumer has the producer's time start and rate: iff a time signal is subscribed before its start is
  set, the start is set while the table has a subscribed value signal, and the rate is not changed while
  subscribed (`Settings.SettingsRunIff`, witness `Settings.TimeStartNotRepeated`).
- A description tells the consumer unit, range and scaling: iff nothing has to be taken back, since no
  unit, no quantity, no limit and no scaling are not sent (`Values.ToldIff`,
  `Settings.DescriptionTellsIff`, witness `Settings.ClearedScalingStays`).
- The conversion stays within the packet: iff a value is counted with at least the bytes the conversion
  takes, which under a linear time signal means a value size of at least the width that is read
  (`Conversion.InsideIff`, `Conversion.LinearRoomyIff`, witness `Conversion.ConversionLeavesPacket`).
- Every linear rule has a non-zero delta, over a whole run with data: iff no accepted description sets the
  delta of a signal with linear rule to zero without mentioning the rule (`LinearRule.LinearRunIff`,
  witnesses `Signals.ZeroDeltaAccepted` and `LinearRule.ZeroDeltaSpreads`).
- Announcements replay to the data signals held: iff ids keep their kind where it matters
  (`Announcements.TruthRunIff`, witness `Announcements.ReplacedByDomain`).
- Every divisor is positive: except the size of an indexed value, for exactly one value size
  (`Signals.IndexedSizeZero`, witness `Signals.IndexedSizeZeroReachable`).
- The scheduler is on time after every call: iff fewer than 2^32 samples are due and, on a build without
  nanosecond time points, the period is a whole number of microseconds (`Scheduler.OnTimeRunIff`,
  `Scheduler.NoDriftBuildIff`, witnesses `Scheduler.WrappedCount` and `Scheduler.DriftedRun`).

Where the documentation and the code differ, the code is followed: the length word is used from 256
bytes on (docs/openDAQ-streaming.md says "bigger than 256"); a description without a value index keeps
the index (the document says it starts at 0, which is true of the first description only).

Conventions: bytes are 0..255; `Wrap` is reduction modulo 2^64; words are little endian, as on the hosts
the program supports; doubles are reals; `Quotient` is integer division by repeated subtraction, shown
equal to `/` in `Words.QuotientIsDivision`. A `hide` statement at the top of a proof only removes
definitions the proof does not need.

## Model

| member | source | states |
|---|---|---|
| EndToEnd.EndToEndFromStart | lib/ProtocolHandler.cpp:92-191 | For every well-formed producer with nothing subscribed, every permitted run of subscribe, unsubscribe, describe, add-data, constant-data, time-start, rate and attribute operations interleaved with announcements, preceded by the session's two initial messages, and every way its bytes arrive in chunks: the new consumer session ends open at a header boundary with an empty buffer, its callbacks are the two initial messages and then exactly the expected sequence, and its container is in step with the producer. The encoding gives back the messages of the run, and packets carry 1 to 2^32 - 1 bytes. |
| EndToEnd.EndToEnd | lib/ProtocolHandler.cpp:101-191 | The same from any session that is already in step. |
| EndToEnd.SamplesFromStart | lib/SignalContainer.cpp:164-197 | Over the same sessions, read from the bytes in any chunks, the samples delivered for a synchronous signal are exactly those it took while subscribed, each once, in order and at its time, when no samples are added while the time signal is not subscribed. |
| EndToEnd.OwnTimesFromStart | lib/BaseDomainSignal.cpp:101-114 | The same at the producer's own times, time start + index * rate, when moreover no step leaves the consumer with an old time start or rate. |
| EndToEnd.SessionOpenIff | lib/ProtocolHandler.cpp:145-190 | Any session of any producer whose signals have issued numbers, read from its bytes in any chunks, is open at the end if and only if every step keeps to the discipline; nothing is assumed about tables, roles or units. |
| EndToEnd.AnnouncementsFromStart | lib/ProducerSession.cpp:66-102 | Over the same sessions a client that replays the stream messages it was called back with knows exactly the data signals held, when ids keep their kind. |
| EndToEnd.EveryRunTransmissible | lib/StreamWriter.cpp:27-45 | For every run whose data packets have 1 to 2^32 - 1 bytes there is an encoding that gives all its messages back in packets of a length that can be sent. |
| Runs.LockstepRun | lib/SignalContainer.cpp:63-201 | Without the transport: all messages of a permitted run are accepted, the callbacks are the expected ones and the two sides stay in step. |
| Runs.AcceptedRunIff | lib/SignalContainer.cpp:69-136 | Every run of operations and announcements a producer can make, from any state in which the consumer has the subscribed signals, is accepted to the end if and only if it keeps to the discipline. |
| Runs.ConsumerKnowsDataSignals | lib/ProducerSession.cpp:27-36 | Replaying the stream messages among the callbacks of any run gives the data signals held at its end, when ids keep their kind. |
| Session.DispatchInputs | lib/ProtocolHandler.cpp:140-174 | Packets carrying encoded messages and data, stream related or not, do to the session what the messages and data do to the consumer, up to and including the first rejected message. |
| Session.CodecForEveryRun | lib/StreamWriter.cpp:27-45 | The encoding assumed for a run exists, whatever messages the run writes. |
| Samples.SplittingIrrelevant | include/streaming_protocol/SynchronousSignal.hpp:60-64 | However a block of samples of one signal is grouped into packets, the callbacks contain each sample once, in order, and at anchor + (index + j) * delta if and only if the block is empty or the lag times delta is zero modulo 2^64. |
| Samples.TrueRunIff | lib/SignalContainer.cpp:186-197 | Over every permitted run, with descriptions, time starts, rate changes, announcements and other signals in between: the consumer's value indices equal the producer's after every step and every step delivers exactly the samples it takes, at the time of the producer's index, if and only if no step adds samples to a subscribed signal whose table has no subscribed time signal. |
| Samples.SamplesOfRun | lib/SubscribedSignal.cpp:43-61 | Over every such run without loss the samples delivered for a signal in the whole run are exactly those it took while subscribed. |
| Samples.MergeIrrelevant | include/streaming_protocol/SynchronousSignal.hpp:60-64 | Anywhere in a run, with or without loss, two consecutive packets of a signal may be sent as one: the consumer is delivered the same samples of every signal at the same times, they are taken at the same times, and the run ends in the same state. |
| Samples.LateClock | lib/SignalContainer.cpp:188-191 | Witness: when a signal is fed before its time signal is subscribed, the next sample has index 1 and time 1 and is delivered at time 0. |
| Settings.SettingsRunIff | lib/BaseDomainSignal.cpp:101-114 | Over every permitted run the consumer has the producer's time start and rate of every subscribed time signal after every step if and only if no step subscribes a time signal whose start is already set, sets a new start without a subscribed value signal, or changes the rate while subscribed. |
| Settings.SamplesAtOwnTimes | lib/BaseDomainSignal.cpp:101-114 | Over every such run without loss samples are delivered at the producer's own times, time start + index * rate. |
| Settings.TimeStartNotRepeated | lib/BaseSignal.cpp:24-31 | Witness: subscribing a time signal leaves the consumer at time 0, whatever time start was set before. |
| Settings.AttributesRunIff | lib/BaseSynchronousSignal.cpp:25-35 | Over every permitted run the consumer has unit, range and scaling of every subscribed value signal after every step if and only if no signal is subscribed with a unit that has a name or quantity but no number, and none gets other attributes while subscribed. |
| Settings.DescriptionTellsIff | lib/BaseSynchronousSignal.cpp:25-35 | Describing a value signal again gives the consumer its unit, range and scaling if and only if it has none that the producer has no more. |
| Settings.ClearedScalingStays | lib/Types.cpp:101-123 | Witness: a scaling that was cleared stays with the consumer after the next description. |
| Samples.PacketDelivers | lib/SubscribedSignal.cpp:43-61 | The samples of a packet that is stamped with the time of its first sample are each at their own time. |
| Samples.TimeOfModulo | lib/SubscribedSignal.cpp:54 | Sample times do not depend on the 64-bit wrap of the value index. |
| Lockstep.OperationStep | lib/SignalContainer.cpp:63-201 | Every applicable, permitted producer operation is accepted, gives exactly the expected callbacks and preserves the lockstep relation between all signals of both sides, including the exact table index. |
| Lockstep.AcceptedIffPermitted | lib/SignalContainer.cpp:69-136 | Whatever a producer operation writes is accepted if and only if the discipline permits it (subscribe only what is not subscribed, unsubscribe and describe only what is, describe no zero delta and no start value that is not a number), in any state in which the consumer has the subscribed signals; the signals then follow the subscriptions. |
| Lockstep.DescriptionAccepted | lib/SubscribedSignal.cpp:219-263 | The description of any signal is accepted in any state, unless it is a linear time signal with delta 0 or a constant signal whose start value is not a number. |
| Lockstep.OddStartRejected | lib/BaseConstantSignal.cpp:37-39 | Witness: a constant signal with a start value that is not a number is rejected in every state. |
| Lockstep.DescriptionEffect | lib/BaseSynchronousSignal.cpp:10-35 | After its description the consumer's signal has the id, table, role, rule, value size, sample type, value index, delta, frequency and constant start value of the producer's, and has been told its unit, range and scaling. |
| Lockstep.AddDataStep | include/streaming_protocol/SynchronousSignal.hpp:60-64 | Added samples are delivered in one packet, stamped by the producer's index less the samples refused since the last description, or refused and counted when the time signal is not subscribed. |
| Lockstep.AddConstantsStep | include/streaming_protocol/ConstantSignal.hpp:47-63 | Constant-rule entries are counted exactly and delivered with the table's start time. |
| Lockstep.SetTimeStartStep | lib/BaseDomainSignal.cpp:101-114 | A time start becomes the anchor of the table exactly when the table has a subscribed value signal. |
| Lockstep.TimeStampAgrees | lib/SubscribedSignal.cpp:54 | The wrapping time stamp computation gives anchor + (index - lag) * delta modulo 2^64, where the lag is the number of samples refused since the last description. |
| Tables.ExactFromStartIff | lib/SignalContainer.cpp:63-136 | Over every run from the empty container, up to the first rejected message, the table index is exact after every step if and only if every description is disciplined. |
| Tables.ExactRunIff | lib/SignalContainer.cpp:63-201 | The same from any state with an exact index, with data interleaved. |
| Tables.MetaExactIff | lib/SignalContainer.cpp:69-135 | One accepted message keeps the index exact if and only if the table and role it asks for are those a described signal has and, for a time signal, its number is not zero and its table has no other time signal. |
| Tables.AcceptedTableAndRole | lib/SubscribedSignal.cpp:196-447 | An accepted description gives a signal exactly the table and role that its members ask for. |
| Tables.ExactIffIndexed | include/streaming_protocol/SignalContainer.hpp:69-82 | The index agrees with a plain scan of the subscribed map exactly when every described signal is filed and no entry dangles or is empty. |
| Tables.DataKeepsExact | lib/SignalContainer.cpp:138-201 | Data never affects the index. |
| Tables.SecondClockRemovesTable | lib/SignalContainer.cpp:79-87 | Witness: a second time signal in a table, when unsubscribed, removes the table while the first is still subscribed. |
| Interference.OnlyRelevantMatters | lib/SignalContainer.cpp:138-201 | Over any stretch of data packets the callbacks for a signal are those of its own packets and its time signal's alone, and key set and index do not change. |
| Interference.OthersMayBeReordered | lib/SignalContainer.cpp:138-201 | Two stretches with the same relevant packets give a signal the same callbacks, whatever happens to the others. |
| Stamps.ExplicitDelivery | lib/SubscribedSignal.cpp:75-88 | After any stretch of data a packet of a value signal with an explicit time signal is called back, raw and as values, at the time in the last time packet, if and only if it holds whole values. |
| Stamps.LinearDelivery | lib/SubscribedSignal.cpp:43-74 | After any stretch of data a packet of a value signal with a linear time signal is called back at anchor time + (index - anchor index) * delta modulo 2^64 for the last anchor received and the index advanced by all values before; a constant at the time of the anchor. |
| Stamps.ExplicitTimePacket | lib/SignalContainer.cpp:149-162 | A packet of an explicit time signal sets its time exactly when the table has a value signal, and is itself called back at time 0. |
| Stamps.LinearTimePacket | lib/SignalContainer.cpp:163-181 | A packet of any other time signal sets index and time exactly when the table has a value signal, and is not called back. |
| Stamps.NoTimeNoData | lib/SignalContainer.cpp:186-193 | Data of a value signal whose table has no time signal is refused and changes nothing. |
| Container.DataFrame | lib/SignalContainer.cpp:138-201 | A data packet changes the addressed signal only, never its table or role, and calls back for that signal only. |
| Container.MetaCallback | lib/SignalContainer.cpp:63-136 | A message is called back if and only if it is accepted; it must be about a subscribed signal, an acknowledgement about one that is not. |
| Container.SubscribedWithId | lib/SignalContainer.cpp:89-112 | An acknowledgement is accepted exactly for a new number with a text or number as id, and gives a new signal with that id. |
| Container.RejectedLeavesTraces | lib/SignalContainer.cpp:111-115 | A rejected description has changed the signal up to the point of rejection, but neither the table index nor the callbacks. |
| Container.DataRefusedIff | lib/SignalContainer.cpp:138-201 | Data is refused exactly for unknown signals, tables without time signal and time signals with a rule that is not supported. |
| Framing.RoundTripIff | lib/StreamWriter.cpp:64-80 | A written packet followed by anything is parsed back exactly if and only if it has 1 to 2^32 - 1 payload bytes and a 20-bit number. |
| Framing.EmptyPacketDesynchronises | lib/StreamWriter.cpp:69-73 | Witness: after an empty packet the next packet is not delivered. |
| Framing.WordValue | lib/StreamWriter.cpp:66-71 | The or-ed header word is the sum of its three shifted fields. |
| Framing.ShortPacketBytes | lib/StreamWriter.cpp:64-80 | The bytes of a packet of up to 255 bytes, with type 1 for data and 2 for meta information. |
| Framing.LongPacketBytes | lib/StreamWriter.cpp:64-80 | The bytes of a longer packet: size field zero, then the length, least significant byte first. |
| Framing.OneByteOnTheWire | lib/StreamWriter.cpp:47-62 | One byte of signal 1 is sent as 01 00 10 10 07. |
| Framing.FieldsOfWord | lib/ProtocolHandler.cpp:107-110 | The reader takes the three fields of a header apart and ignores the two bits above them. |
| Words.ToLEByte | lib/StreamWriter.cpp:34-38 | Byte i of a word in memory is digit i to the base 256. |
| Framing.StreamRoundTrip | lib/StreamWriter.cpp:27-62 | Parsing the concatenation of any list of sendable packets gives that list and no rest. |
| Framing.ParseConserves | lib/ProtocolHandler.cpp:107-114 | Complete frames and the rest account for every byte of any input. |
| Reader.PumpParses | lib/ProtocolHandler.cpp:101-191 | On every byte string the step machine dispatches exactly the complete frames up to the first refusal, closes exactly on a refusal, and at a header boundary has consumed exactly the bytes of the dispatched frames. |
| Reader.ChunksIrrelevant | lib/ProtocolHandler.cpp:98-190 | Any chunking of the input leads to the same state as delivering it at once. |
| Reader.FailStop | lib/ProtocolHandler.cpp:147-184 | After a rejected meta packet or an invalid type nothing that arrives later is dispatched. |
| Reader.UnknownTypeCloses | lib/ProtocolHandler.cpp:175-184 | A packet of a type other than 1 and 2 closes the session and is not dispatched. |
| Reader.Transmission | lib/ProtocolHandler.cpp:101-191 | Writing sendable packets and reading them in any chunks dispatches exactly those packets and leaves no byte over. |
| ProtocolHandlers.ProtocolHandler.Receive | lib/ProtocolHandler.cpp:98-191 | The callback loop on the session object does all reads the buffered bytes allow, as the step machine does. |
| ProtocolHandlers.ProtocolHandler.OnHeader | lib/ProtocolHandler.cpp:101-119 | Header callback: fields and next read. |
| ProtocolHandlers.ProtocolHandler.OnPayload | lib/ProtocolHandler.cpp:133-191 | Payload callback: dispatch, then consume or close. |
| ProtocolHandlers.ProtocolHandler.DispatchMeta | lib/ProtocolHandler.cpp:146-174 | Interpretation and routing of meta packets, including stale content for unknown encodings. |
| Session.MetaRoundTrip | lib/StreamWriter.cpp:27-45 | A meta payload is recognised by its marker and decoded to the message that was written. |
| Session.MetaPayloadBytes | lib/StreamWriter.cpp:27-45 | Meta information starts with the bytes 2, 0, 0, 0. |
| Session.MsgpackAcceptedIff | lib/ProtocolHandler.cpp:146-172 | Meta information in msgpack is accepted exactly when it can be decoded and the stream or the container accepts it, and is remembered. |
| Session.OtherEncoding | lib/ProtocolHandler.cpp:146-172 | Meta information in another encoding closes the session when it is about the stream; otherwise the message remembered is processed again. |
| Session.VersionIff | lib/StreamMeta.cpp:29-57 | A message about the stream is accepted unless it is an API version that is missing, does not have three numbers or is below 0.6.0. |
| Signals.ReachableSafe | lib/SubscribedSignal.cpp:18-34 | Through every sequence of accepted or rejected descriptions, data and anchors: value size and resolution stay positive, the rule is known, the time role never reverts. |
| Signals.ReachableFromStart | include/streaming_protocol/SubscribedSignal.hpp:259-289 | The same for every signal from its creation on. |
| Signals.IndexOfRun | lib/SubscribedSignal.cpp:209-212 | After any calls, accepted or rejected, the value index is the last one given by a description or a time packet plus the values counted since, modulo 2^64; a description without an index keeps it. |
| Signals.DefineAcceptedIff | lib/SubscribedSignal.cpp:219-447 | A definition is accepted if and only if a condition on the signal and the definition holds. |
| Signals.DescribeAcceptedIff | lib/SubscribedSignal.cpp:178-219 | A message to a signal is accepted exactly for ids that are texts or numbers and an acceptable definition, if there is one. |
| Signals.ResolutionNeedsSeconds | lib/SubscribedSignal.cpp:394-406 | A resolution is accepted exactly for seconds, by number or by name, and gives the frequency denominator / numerator. |
| Signals.HalfResolution | lib/Types.cpp:137-173 | For a new signal the half of a resolution that is not given is 1. |
| Signals.TimeByQuantity | lib/SubscribedSignal.cpp:389-392 | A description makes a signal a time signal exactly by the quantity "time". |
| Signals.TypeReported | lib/SubscribedSignal.cpp:281-387 | The sample type is kept without a data type and otherwise tells base types, bit fields of 32 and 64 bits, arrays and structs apart. |
| Signals.DescriptionsFold | lib/SubscribedSignal.cpp:196-447 | Any run of accepted partial descriptions leaves in each field of table, value index, delta, constant start value, rule, unit, range, scaling and resolution the last value written to it. |
| Signals.ZeroDeltaAccepted | lib/SubscribedSignal.cpp:226-264 | Witness: a delta of zero alone is accepted under a linear rule. |
| LinearRule.LinearRunIff | lib/SubscribedSignal.cpp:226-264 | Over every run of messages and data, up to the first rejected message, every signal with linear rule has a non-zero delta after every step if and only if no accepted description sets the delta of such a signal to zero without naming the rule. |
| LinearRule.LinearFromStartIff | lib/SignalContainer.cpp:63-201 | The same from the empty container. |
| LinearRule.ZeroDeltaSpreads | lib/SubscribedSignal.cpp:43-48 | Witness: a packet gives a value signal with linear rule the zero delta of its time signal. |
| Signals.IndexedSizeZero | lib/SubscribedSignal.cpp:62-69 | The divisor for constant-rule data is zero for exactly one value size. |
| Signals.IndexedSizeZeroReachable | lib/SubscribedSignal.cpp:160-163 | Witness: an accepted array description has that value size. |
| Signals.ExplicitDomain | lib/SubscribedSignal.cpp:75-88 | Under an explicit time signal a packet is delivered exactly when it holds whole values, with the last time. |
| SubscribedSignals.SubscribedSignal.ProcessSignalMetaInformation | lib/SubscribedSignal.cpp:178-451 | The signal object after a message, accepted or rejected, and that it stays valid. |
| SubscribedSignals.SubscribedSignal.ProcessMeasuredData | lib/SubscribedSignal.cpp:36-98 | The signal object and callbacks after data. |
| SignalContainers.SignalContainer.ProcessMetaInformation | lib/SignalContainer.cpp:63-136 | Signals, index and callbacks after a message, on objects updated in place. |
| SignalContainers.SignalContainer.ProcessMeasuredData | lib/SignalContainer.cpp:138-201 | The same for data. |
| SignalContainers.SignalContainer.SetAnchor | lib/SignalContainer.cpp:172-179 | The setter loop has its effect once there is a value signal, and none otherwise. |
| Layout.GetDataTypeSize | lib/SubscribedSignal.cpp:101-176 | For every nested description the computed size is the sum of the widths of the flattened leaves, modulo 2^64; unsupported nodes contribute nothing. |
| Layout.StructSize | lib/SubscribedSignal.cpp:164-170 | The member-by-member loop equals repeating the whole struct. |
| Layout.WidthsHold | lib/SubscribedSignal.cpp:132-157 | Widths of the base types by the numbers they hold; complex numbers are two reals. |
| Layout.DimensionSize | lib/SubscribedSignal.cpp:106-127 | A dimension that starts at 1 with delta 0 repeats a value of any kind; other dimensions leave no size. |
| Layout.ArrayMultiplies | lib/SubscribedSignal.cpp:160-163 | An array is as long as its elements together, modulo 2^64. |
| Layout.StructAdds | lib/SubscribedSignal.cpp:164-170 | A struct is as long as its members together, modulo 2^64. |
| Values.ComposeParse | lib/Types.cpp:52-173 | Composing and parsing into a fresh value: always for range and scaling, exactly for units with an id (or no unit) and non-zero resolutions. |
| Values.ToldIff | lib/Types.cpp:52-123 | A receiver ends up with the unit, range and scaling it is told if and only if it has none that would have to be taken back. |
| Values.LastWriteFirst | lib/Types.cpp:62-123 | Parsing one patch and then others is the same as the last write among all of them. |
| ConstantRule.FillBuffer | include/streaming_protocol/ConstantSignal.hpp:47-63 | The copy loop builds the packed sequence of index/value entries. |
| ConstantRule.ConstantRoundTripIff | include/streaming_protocol/SubscribedSignal.hpp:246-256 | Entry i is read back as value i if and only if the value is in the range of the type it is read as. |
| ConstantRule.Unsigned64Range | lib/SubscribedSignal.cpp:472-475 | For unsigned 64-bit values that range is below 2^63. |
| ConstantRule.ConvertedIff | lib/SubscribedSignal.cpp:453-492 | Exactly complex numbers, arrays, structs and unknown types are not converted. |
| ConstantRule.TwosComplement | include/streaming_protocol/ConstantSignal.hpp:53-58 | A value in memory is the value modulo 256^width, least significant byte first. |
| ConstantRule.StrideDividesValueSize | lib/SubscribedSignal.cpp:286-338 | For scalars and bit fields of any dimensions the conversion's width is that of the base type and divides the computed value size, which is zero or at least the width, and equals it without dimensions; signed are exactly the signed and the unsigned 64-bit types. |
| Conversion.InsideIff | lib/SubscribedSignal.cpp:62-86 | The conversion stays within every packet delivered to a signal if and only if a value is counted with at least the bytes the conversion takes. |
| Conversion.LinearRoomyIff | lib/SubscribedSignal.cpp:57-69 | Under a linear time signal that means: the value size is at least the width read. |
| Conversion.DefinitionRoomyIff | lib/SubscribedSignal.cpp:276-338 | An accepted definition leaves such a value size if and only if the size computed from it is not zero or the size before was enough. |
| Conversion.ConversionLeavesPacket | lib/SubscribedSignal.cpp:276-308 | Witness: a 64-bit real with unsupported dimensions is accepted, an 8-byte packet is called back as two values and 16 bytes are read. |
| Conversion.InStepRoomy | lib/SubscribedSignal.cpp:43-69 | The conversion stays within every packet of a signal that is in step with its producer. |
| Conversion.ConstantsArrive | include/streaming_protocol/ConstantSignal.hpp:47-63 | Constant-rule values written by a producer in step are delivered and counted exactly, converted within the packet, and value i is read back if and only if it is in the range of the type it is read as. |
| Conversion.ValuesArrive | include/streaming_protocol/SubscribedSignal.hpp:235-245 | The same for the values of a synchronous signal. |
| ConstantRule.EntriesCounted | lib/SubscribedSignal.cpp:62-69 | The consumer counts exactly the number of entries added. |
| ConstantRule.Convert | include/streaming_protocol/SubscribedSignal.hpp:235-257 | The conversion loop reads value i at offset i times the stride, after the index if there is one, for every packet and count. |
| ConstantRule.InterpretValues | lib/SubscribedSignal.cpp:453-492 | The conversion by sample type and the number of values converted; with ConvertedIff, all of them unless the type is complex, an array, a struct or unknown. |
| Ticks.ExactIff | lib/BaseDomainSignal.cpp:53-63 | Ticks to nanoseconds equals floor(ticks * 10^9 / rate) if and only if the sub-second product fits 64 bits and the result is a signed 64-bit number. |
| Ticks.ExactForResolution | lib/BaseDomainSignal.cpp:53-89 | For rates up to 18446744074 it is exact, and truncating gives floor(ticks * 10^6 / rate) microseconds. |
| Ticks.MicrosecondsCutOff | lib/BaseDomainSignal.cpp:74-89 | The conversion to microseconds cuts the fraction off towards zero. |
| Ticks.Monotone | lib/BaseDomainSignal.cpp:53-63 | The conversion is monotone. |
| Ticks.OutputRateRoundTrip | lib/LinearTimeSignal.cpp:11-36 | A period converted to ticks and back never grows, loses at most ceil(10^9 / rate), and is exact if and only if it is a whole number of ticks. |
| Ticks.OutputRateExactIff | lib/LinearTimeSignal.cpp:33-36 | A period is converted to ticks exactly if and only if the product fits 64 bits; the result is never above 18446744073. |
| Factorization.GetPrimeFactorExponents | tool/SignalGenerator/factorization.cpp:53-65 | For every unsigned int: all keys prime, exponents positive, product of powers equal to the number, empty for 0 and 1, no overflow of the loop variable. |
| Factorization.DivideOut | tool/SignalGenerator/factorization.cpp:59-62 | The inner loop moves the factor i completely from the rest into the map. |
| Factorization.Canonical | tool/SignalGenerator/factorization.cpp:53-65 | Two maps of prime powers with the same product are equal. |
| Factorization.ExponentsAreLargest | tool/SignalGenerator/factorization.cpp:53-65 | Each exponent is the largest whose power divides the number, and is below 32. |
| Factorization.GetProduct | tool/SignalGenerator/factorization.cpp:77-90 | The product of the powers over the reals, 0 for the empty map; only zero to a negative power, which has no real value, is excluded. |
| Factorization.ChangeSigns | tool/SignalGenerator/factorization.cpp:92-100 | All exponents negated. |
| Factorization.SignsInvertProduct | tool/SignalGenerator/factorization.h:38-40 | Changing signs inverts the product and is its own inverse. |
| Factorization.FactorsMultiplyBack | tool/SignalGenerator/test/factorization_test.cpp:31-62 | Factorising and multiplying gives the number back. |
| Scheduler.NoDrift | tool/SignalGenerator/generatedsynchronoussignal.h:91-124 | After calls at any times whose counts fit, on a build that keeps the period, samples emitted = floor((latest - start) / period), less than a period is left over, and the value index advanced by that count. |
| Scheduler.NoDriftBuildIff | tool/SignalGenerator/generatedsynchronoussignal.h:110-114 | All runs whose counts fit are on time if and only if the build has nanosecond time points or the period is a whole number of microseconds. |
| Scheduler.DriftedRun | tool/SignalGenerator/generatedsynchronoussignal.h:110-114 | Witness: with a period of 1500 ns on the other build four samples are produced where three are due. |
| Scheduler.WrappedCount | tool/SignalGenerator/generatedsynchronoussignal.h:94-99 | Witness: after a gap of 2^32 periods no sample is produced. |
| Scheduler.OnTimeIff | tool/SignalGenerator/generatedsynchronoussignal.h:94-114 | One call keeps the schedule on time if and only if the number of samples due fits an unsigned int and, if there are any, the build keeps the period. |
| Scheduler.OnTimeRunIff | tool/SignalGenerator/generatedsynchronoussignal.h:91-124 | The same over every run of calls. |
| Scheduler.GeneratedSignal.Process | tool/SignalGenerator/generatedsynchronoussignal.h:91-124 | The catch-up loop of one call, on builds with nanosecond and with microsecond time points. |
| Scheduler.SignalGenerator.Start | tool/SignalGenerator/signalgenerator.cpp:142-199 | For finite execution times and a process period the build can add, the outer loop ends after the given number of rounds and processes every signal once per round. For a process period below the build's resolution it never ends, see EndsIff. |
| Scheduler.EndsIff | tool/SignalGenerator/defines.h:49-58 | The outer loop gets beyond its end time if and only if the process period is at least a nanosecond, or a microsecond on a build with microsecond time points; otherwise no round moves the time. |
| Scheduler.LastRound | tool/SignalGenerator/signalgenerator.cpp:186-199 | The last round is the last one that is not after the end time. |
| Scheduler.TickedCount | tool/SignalGenerator/signalgenerator.cpp:186-199 | The number of samples of each signal after the given number of rounds. |
| Numbering.NumberOfCall | lib/BaseSignal.cpp:67-76 | The k-th number is ((k - 1) mod (2^20 - 1)) + 1 for every k, across the 32-bit wrap. |
| Numbering.IssuedDistinct | lib/BaseSignal.cpp:67-76 | Any 2^20 - 1 consecutive numbers are distinct. |
| Numbering.NumberSource.NextSignalNumber | lib/BaseSignal.cpp:67-76 | The counter object issues those numbers. |
| Announcements.TruthRunIff | lib/ProducerSession.cpp:27-36 | Over every run the announcements replay to the data signals held after every operation if and only if every operation keeps kinds. |
| Announcements.TruthIff | lib/ProducerSession.cpp:135-176 | The same for one operation. |
| Announcements.ReplacedByDomain | lib/ProducerSession.cpp:27-36 | Witness: a data signal replaced by a domain signal of the same id stays announced. |
| Announcements.FixedKindsSuffice | lib/ProducerSession.cpp:27-36 | It holds whenever an id is always data or always domain. |
| Announcements.ProducerSession.AddSignals | lib/ProducerSession.cpp:135-148 | Signals held, what is written, and what a client knows afterwards. |
| Announcements.ProducerSession.RemoveSignals | lib/ProducerSession.cpp:157-176 | The same for removal; the result is the number of distinct listed ids that were held. |
| ProducerSignals.StreamWriter.CreateTransportHeader | lib/StreamWriter.cpp:64-80 | The header words and their size are those of the encoding, for every payload of that size. |
| ProducerSignals.StreamWriter.WriteMetaInformation | lib/StreamWriter.cpp:21-45 | The bytes appended to the stream are the encoding of the meta packet. |
| ProducerSignals.Subscribe | lib/BaseSignal.cpp:24-31 | An acknowledgement followed by a description is written. |
| ProducerSignals.SynchronousSignal.AddData | include/streaming_protocol/SynchronousSignal.hpp:60-64 | One data packet is written and the value index advances by the sample count, wrapping at 64 bits. |
| ProducerSignals.ConstantSignal.AddData | include/streaming_protocol/ConstantSignal.hpp:47-63 | One data packet with the packed entries is written. |
| ProducerSignals.LinearTimeSignal.SetTimeStart | lib/BaseDomainSignal.cpp:101-114 | An indexed value with index 0 and the start ticks is written. |

## Left out

- Stream and control plumbing (boost asio, websockets, HTTP control, ControlServer, Server): the stream is a byte buffer whose reads complete when enough bytes have arrived; read errors, `stop` and completion callbacks are not modelled.
- JSON and msgpack: messages are typed values and the encoding is a parameter that gives the messages of the run back. Members of a wrong JSON type (which raise exceptions) occur only where the program tests for them: ids, the linear delta and the constant start value.
- Write failures: every write succeeds.
- Logging, mutexes, epoch strings, member names, interpretation objects, related signals and data type details: stored or printed, without effect on the rest.
- Reads beyond a packet: a time packet shorter than its fields, a meta packet shorter than its marker, or a conversion that leaves the packet gets no bytes from there, where the program reads whatever follows in memory; `Conversion.InsideIff` says when the conversion does not.
- A number in the table index without a signal: the first lookup behaves as in the program (no time signal), but the empty entry that the lookup inserts is not modelled; `Tables.ExactFromStartIff` says when this cannot arise.
- Division by zero: counts as zero; `Signals.ReachableSafe` and `Signals.IndexedSizeZero` say when it cannot arise and when it can.
- Explicit time signals and asynchronous signals on the producer side: the producer's time start has an index that the consumer does not expect under an explicit rule, so the end-to-end results are about linear time. On the consumer side both rules are modelled.
- The pointer from a value signal to its time signal (`m_timeSignal`): read only by accessors.
- Unit, Range, PostScaling and Resolution are held by value, so they are value types with functions instead of objects.
- Layout.StructSize: the loop over struct members is a method of its own here; it is inline in the program. The same holds for `SignalContainers.SignalContainer.SetAnchor`, `Factorization.DivideOut` and the parts of the container's and handler's methods.
- subscribeSignals and unsubscribeSignals of the producer session: loops that look ids up and call the signal's own operation, which is modelled.
- Floating point: conversions from times to ticks through doubles, the final conversion of values to double, the waveform functions and `getFactorForFactorization`. A floating-point value is its bit pattern.
- Stream meta information other than the acceptance of the API version; version strings are lists of numbers.
- The per-type tables of sample types on the producer side, and the legacy transport header in the signal generator.
