# Modbus gateway firmware: a verified model

This project models the hardest parts of a Modbus TCP to RTU gateway (an STM32 firmware with FreeRTOS, lwIP, a USB
management port, a configuration store on NOR flash and A/B boot slots) and proves what those parts are for.
`dafny verify dfyconfig.toml` verifies the whole project.

| files | what they model |
|---|---|
| `Crc16`, `Rtu`, `RtuVerdicts` | CRC-16, RTU request validation, read encoders, one transaction, read decoders; what is accepted, byte by byte |
| `AduPool`, `Mbap`, `Gateway`, `GatewayClients`, `GatewayProof`, `GatewayPool`, `GatewayProgress`, `GatewayScheduler` | the gateway pipeline: TCP server, transaction scheduler and collector exchanging six pooled ADUs through queues of length one |
| `Collector` | poll deadlines over a 32-bit tick counter that wraps |
| `Crc32`, `Frames`, `FrameParser` | management frames: wire format, batch parser, bounded streaming parser, in-place encoder |
| `Transport`, `TransportService` | the USB session machine: one task against four interrupt handlers; what it does for its user |
| `Nor`, `ExternalFlash`, `InternalFlash` | flash cells, page splitting, word/half-word/byte splitting |
| `ConfigStore`, `ConfigService` | the two-slot configuration store under I/O errors and power loss |
| `ConfigModel`, `ConfigFormat`, `ConfigRules`, `ConfigNetwork`, `ConfigBus`, `ConfigPolling`, `ConfigEquals`, `ConfigCodec`, `ConfigCursors`, `ConfigLongest`, `ConfigEndToEnd`, `Utf8` | the configuration record, its binary format, validation, equality, and store and codec together |
| `Boot`, `BootFlash` | A/B boot slots: write-once flags, generations modulo 3, rollback |
| `Calendar` | calendar conversions and the clock chip's fields |
| `Bytes`, `Bits` | integers as bytes, bitwise operations on unbounded integers |

Concurrent and crash-prone parts are transition systems whose steps are the atomic actions of the code (a queue call, a
critical section, an interrupt handler, one flash operation); each such system has a `Reaches` predicate, and its theorems
speak about every run. Code that works on buffers and fields is a class or a method with loops, tied by its `ensures` to
the functions those theorems are about.

## How the parts are read

* Integers are unbounded. Where the code depends on a width it is written out: tokens are compared modulo 2^32, ticks wrap
  at 2^32, generations count modulo 3, the product in `interval_to_ticks` is taken in 32 bits.
* The serial port is an oracle: an adapter error, a timeout, or at most 256 bytes. The certificate library is a function
  parameter (`Certifier`). Flash devices are function parameters constrained only by what an unfinished operation may leave.
* A program that succeeds stores the bitwise conjunction; one that fails or is cut off clears any subset of the bits it was
  meant to clear, inside its range; erasing a sector is atomic.
* A USB packet arrives only on an armed endpoint, and a transmit completion belongs to a transfer of the current session:
  opening a session arms the endpoint and drops the old transfer.

## What turned out not to hold

* The management transport does not always keep its transmit buffer stable, and can reset without having answered a restart
  request. If the completion interrupt falls between the two critical sections of one round, the second section sees neither
  a transfer in progress nor the completion and submits the reply again (`app/Management/src/management_transport.c:520-530`).
  `Transport.ResendHappens` reaches that state, `Transport.ResendBreaksBoth` continues any such run to both failures, and
  `Transport.BufferIsStableInFlight` and `Transport.ResetIsAcknowledged` prove both properties for every run in which that
  guard (`Transport.Resends`) is never taken. The reply of a restart request itself may be resent without harm.
* The same section can arm the USB endpoint while a received packet still waits, so the next packet overwrites it:
  `Transport.WaitingPacketCanBeLost`. `Transport.PacketsAreKept` proves that in every run in which that guard
  (`Transport.Exposes`) is never taken no packet meets another one and every waiting packet stays until it is taken or its
  session ends; `Transport.ExposedPacketIsLost` loses the packet in every run that does take it.
* An upgrade target chosen before any slot is confirmed can be the slot that is confirmed afterwards
  (`Boot.EarlyTargetLosesConfirmed`). `Boot.TargetIsUnsafeExactlyWhen` gives the exact condition at the time of the choice:
  no slot is confirmed and the target's header is erased, ready to be marked written, pending or unconfirmed. With a slot
  confirmed when the target is chosen, erasing it is always safe, however much later.

## Model

| member | source | states |
|---|---|---|
| `Crc16.CalculateCrc` | app/Modbus/include/modbus_common.h:19-41 | the nested loops compute the CRC defined bit by bit |
| `Crc16.PolynomialIsStandard` | app/Modbus/include/modbus_common.h:32 | the constant is the generator x^16 + x^15 + x^2 + 1, reflected |
| `Crc16.WithCrc` | app/Modbus/src/modbus_rtu.c:105-111 | appending the CRC, low byte first, keeps the body and yields a frame that `has_valid_crc` accepts |
| `Crc16.ResidueIsZero` | app/Modbus/src/modbus_rtu.c:98-103 | the CRC over a whole frame, CRC bytes included, is zero exactly when the frame is accepted |
| `Crc16.BurstIsRejected` | app/Modbus/src/modbus_rtu.c:98-103 | any change confined to one byte or two adjacent bytes of an accepted frame, CRC bytes included, is rejected |
| `Rtu.EncodedRequestIsValid` | app/Modbus/src/modbus_rtu.c:260-284 | every request a read encoder produces passes validation and carries the slave, function, address and quantity it was given |
| `Rtu.ForwardedAnswersRequest` | app/Modbus/src/modbus_rtu.c:589-765 | a response the transaction lets through has a valid CRC, the slave address of the request, and its function or that function with the exception bit |
| `RtuVerdicts.AcceptedRequests` | app/Modbus/src/modbus_rtu.c:412-456 | exactly which byte strings may go on the bus: CRC, slave address, and for each of the eight functions length, quantity, range, values and padding |
| `RtuVerdicts.AcceptedWriteResponses` | app/Modbus/src/modbus_rtu.c:727-761 | a write is acknowledged exactly by eight bytes with a valid CRC that echo its first six |
| `RtuVerdicts.AcceptedReadResponses` | app/Modbus/src/modbus_rtu.c:660-725 | a read is answered exactly by its slave and function, the byte count of its quantity, that many bytes with clear padding, and a valid CRC |
| `RtuVerdicts.AcceptedErrorResponses` | app/Modbus/src/modbus_rtu.c:660-679 | an error response counts exactly when it is five bytes from that slave with the top bit of the function set and a code of the protocol |
| `Rtu.ReadResponseDecodes` | app/Modbus/src/modbus_rtu.c:589-765 | if a validated read request is transacted successfully, the matching decoder accepts the response with the requested quantity, and the values are exactly its data |
| `Rtu.DecodeBitResponse` | app/Modbus/src/modbus_rtu.c:286-343 | the decoder loop: on success the values pack back to the data bytes of the response and nothing beyond the quantity is written; every error code in the order of the checks |
| `Rtu.DecodeRegisterResponse` | app/Modbus/src/modbus_rtu.c:345-409 | likewise for registers |
| `Rtu.PackUnpackBits` | app/Modbus/src/modbus_rtu.c:81-94 | with clear padding bits, unpacking then packing gives back the same bytes |
| `Rtu.PackUnpackRegisters` | app/Modbus/src/modbus_rtu.c:345-409 | unpacking then packing registers gives back the same bytes |
| `AduPool.Pool.constructor` | app/Modbus/src/modbus_rtu_adu_pool.c:15-24 | all six ADUs are free and empty |
| `AduPool.Pool.Allocate` | app/Modbus/src/modbus_rtu_adu_pool.c:26-44 | takes the lowest free ADU, or none if there is none, and changes nothing else |
| `AduPool.Pool.Release` | app/Modbus/src/modbus_rtu_adu_pool.c:46-56 | frees and empties one ADU and changes nothing else |
| `AduPool.FirstFreeFrom` | app/Modbus/src/modbus_rtu_adu_pool.c:32-40 | the index found is free; none is found only if none is free |
| `Mbap.SplitAppend` | app/Modbus/src/modbus_tcp_server.c:139-196 | cutting a stream into MBAP requests does not depend on how it arrives |
| `Mbap.SplitYieldsRequests` | app/Modbus/src/modbus_tcp_server.c:184-196 | every piece cut off is a complete acceptable request |
| `GatewayClients.RequestBytes` | app/Modbus/src/modbus_tcp_server.c:184-196 | a request is exactly 8 to 260 bytes with protocol 0 and a length field that counts what follows it |
| `GatewayClients.RequestsSplitBack` | app/Modbus/src/modbus_tcp_server.c:139-196 | requests sent one after another are cut apart again with nothing left over |
| `Mbap.BuildRtuFrame` | app/Modbus/src/modbus_tcp_server.c:206-215 | the copy loop and the CRC turn the request in the receive buffer into its RTU frame |
| `Mbap.ExceptionReplyAnswers` | app/Modbus/src/modbus_tcp_server.c:114-126 | an exception reply echoes transaction and unit id, has its own length and the function with the exception bit |
| `Mbap.TransactionReplyAnswers` | app/Modbus/src/modbus_tcp_server.c:289-330 | so does the reply made from a transaction, with the function of the response |
| `GatewayClients.ReceiveKeeps` | app/Modbus/src/modbus_tcp_server.c:139-196 | whatever a receive call returns, the buffer is the unanswered rest of the stream as the batch definition cuts it |
| `GatewayClients.StartReplyKeeps` | app/Modbus/src/modbus_tcp_server.c:114-126 | starting a reply that answers the pending request keeps one reply for each request, in order |
| `GatewayClients.SendKeeps` | app/Modbus/src/modbus_tcp_server.c:338-372 | partial sends put out exactly the reply, and the last one returns the client to receiving |
| `GatewayClients.RefusalCodes` | app/Modbus/src/modbus_tcp_server.c:217-252 | the exception code of a refused request is the one for the first thing wrong with its bytes |
| `GatewayClients.ExplainedCarries` | app/Modbus/src/modbus_tcp_server.c:289-335 | byte by byte: an accepted response comes back unchanged but for its CRC, under the header of the request; anything else is nine bytes with its code |
| `GatewayClients.ClientIsServed` | app/Modbus/src/modbus_tcp_server.c:139-372 | the per-client invariant means: exactly one reply per complete request, in order, each explained by its own request and carrying the bytes it should, counts at most 260 |
| `GatewayProof.StepKeeps` | app/Modbus/src/modbus_tcp_server.c:94-372 | every atomic step of the three tasks keeps the global invariant |
| `GatewayProof.ReachedInv` | app/Modbus/src/modbus_tcp_server.c:411-567 | so every state of every interleaving satisfies it |
| `GatewayProof.EachAduHasOneHolder` | app/Modbus/src/modbus_rtu_adu_pool.c:26-56 | in every run each of the six ADUs is free and held by nobody, or held by exactly one of eleven places: none leaks, none is shared, none is released twice |
| `GatewayProof.UncheckedCallsSucceed` | app/Modbus/src/modbus_rtu_transaction_scheduler.c:40-79 | every receive, release and transact the tasks make unchecked succeeds; a matched response belongs to the client it is matched with although only 32-bit tokens are compared |
| `GatewayProof.ConnectionIsServed` | app/Modbus/src/modbus_tcp_server.c:275-336 | for every stream, fragmentation, disconnect and interleaving an open connection gets exactly one reply per request, in order, each with the response bytes of the transaction of that very request, or with the exception code its failure or refusal calls for |
| `GatewayProof.LowRequestIsOvertakenTwice` | app/Modbus/src/modbus_rtu_transaction_scheduler.c:56-68 | after a low-priority request is posted at most two high-priority transactions are received before it |
| `GatewayProof.LowIsNotChosenTwice` | app/Modbus/src/modbus_rtu_transaction_scheduler.c:56-75 | two low-priority transactions are never chosen in a row while a high-priority one is visible |
| `GatewayProof.EventsMatchOccupancy` | app/Modbus/src/modbus_rtu_transaction_scheduler.c:11-38 | selected count plus events pending in the queue set plus the one being received equals the occupancy of each request queue |
| `GatewayPool.PoolRunsOut` | app/Modbus/src/modbus_rtu_adu_pool.c:26-44 | allocation fails only while at least two ADUs are held for clients that are gone |
| `Gateway.PointRequest` | app/Modbus/src/modbus_collector_codec.c:19-51 | a point can be encoded exactly when its slave is 1 to 247 and its source is known; the request reads one value of that source at that address and passes validation |
| `GatewayProgress.InternalStepsWork` | app/Modbus/src/modbus_tcp_server.c:262-336 | every step of the tasks on work already begun leaves the state alone or brings the ADUs nearer to the pool |
| `GatewayProgress.PipelineDoesNotStall` | app/Modbus/src/modbus_tcp_server.c:374-399 | in every reachable state with an ADU out of the pool some task can take a step that brings the pipeline nearer to returning it |
| `GatewayProgress.ResponseIsClaimedOrExpired` | app/Modbus/src/modbus_tcp_server.c:541-565 | a queued response is for an open client that waits for that very request and is found for it, or is nobody's and is found expired |
| `GatewayProgress.EveryAduComesBack` | app/Modbus/src/modbus_tcp_server.c:541-565 | from every reachable state the tasks by themselves reach one with all six ADUs in the pool, within a bounded number of steps |
| `GatewayScheduler.Scheduler.SelectAvailableRequestQueues` | app/Modbus/src/modbus_rtu_transaction_scheduler.c:11-38 | the loop drains the queue set and leaves each count equal to the occupancy of its queue |
| `GatewayScheduler.Scheduler.ReceiveNextTransaction` | app/Modbus/src/modbus_rtu_transaction_scheduler.c:40-79 | there is a next transaction exactly when a request is queued; the unchecked receive gets it; which priority goes first, and the count of consecutive high ones |
| `Collector.IntervalToTicks` | app/Modbus/src/modbus_collector.c:46-55 | never zero, and exact for every interval a valid configuration can hold |
| `Collector.TicksCompare` | app/Modbus/src/modbus_collector.c:57-65 | within half the range, the wrapped comparisons compare the times the ticks stand for |
| `Collector.AdvancedIsNext` | app/Modbus/src/modbus_collector.c:82-90 | the advanced deadline is strictly after now, at most one interval ahead, in step with the old one, and the first such |
| `Collector.TicksAdvance` | app/Modbus/src/modbus_collector.c:82-90 | the wrapped computation gives the tick of that deadline |
| `Collector.Collector.constructor` | app/Modbus/src/modbus_collector.c:185-192 | all points are due at the start |
| `Collector.Collector.SelectEarliest` | app/Modbus/src/modbus_collector.c:67-80 | the loop over wrapped ticks finds the first point with the earliest deadline |
| `Collector.Collector.AdvanceDeadline` | app/Modbus/src/modbus_collector.c:82-90 | one deadline advances as specified, the others stay |
| `Collector.Collector.Turn` | app/Modbus/src/modbus_collector.c:194-219 | one turn serves the earliest point exactly when it is due |
| `Collector.NobodyStarves` | app/Modbus/src/modbus_collector.c:194-219 | in every run, while a point is due and waiting, every other point is served at most once |
| `Crc32.Calculate` | app/Management/src/management_frame.c:151-175 | the nested loops compute CRC-32 over the given range |
| `Crc32.PolynomialIsStandard` | app/Management/src/management_frame.c:165 | the constant is the generator of CRC-32, reflected |
| `Frames.ParseAppend` | app/Management/src/management_frame.c:74-149 | parsing in two parts gives the frames and the rest of the whole |
| `Frames.RestIsSettled` | app/Management/src/management_frame.c:86-121 | what is kept cannot be parsed further and is shorter than the longest frame |
| `Frames.BatchParseIsParse` | app/Management/tools/management_status_monitor.py:66-116 | the batch parser of the Python tool finds the same frames and keeps the same bytes |
| `Frames.EncodeIsTaken` | app/Management/tools/management_status_monitor.py:119-129 | an encoded frame at the front is taken whole and decodes to the same frame |
| `Frames.TakenIsEncoded` | app/Management/src/management_frame.c:117-137 | a frame that is taken is its own encoding |
| `Frames.StreamParsesBack` | app/Management/src/management_frame.c:74-149 | any sequence of encoded frames, each preceded by noise without a magic, parses back to exactly those frames and leaves nothing |
| `Frames.EmittedOccurs` | app/Management/src/management_frame.c:124-131 | every emitted frame occurs whole in the stream |
| `FrameParser.FindMagicIn` | app/Management/src/management_frame.c:33-51 | finds the first magic, or the length |
| `FrameParser.MagicSuffixLength` | app/Management/src/management_frame.c:53-72 | the longest suffix that may still become a magic |
| `FrameParser.Parser.Init` | app/Management/src/management_frame.c:214-230 | refuses a missing or too small buffer and changes nothing then; otherwise starts empty |
| `FrameParser.Parser.SeekMagic` | app/Management/src/management_frame.c:86-102 | dropping what precedes the first magic, in place, loses no frame |
| `FrameParser.Parser.Examine` | app/Management/src/management_frame.c:104-142 | length, completeness and CRC decide the front of the buffer as the reference parser does |
| `FrameParser.Parser.Process` | app/Management/src/management_frame.c:74-149 | the loop terminates, emits exactly the frames of the buffer and keeps exactly the rest |
| `FrameParser.Parser.Feed` | app/Management/src/management_frame.c:242-267 | byte by byte: emits the frames of what was buffered and received, never meets a full buffer, is ready again afterwards |
| `FrameParser.FragmentationIsIrrelevant` | app/Management/src/management_frame.c:242-267 | for every stream and every fragmentation the streaming parser emits what the batch parser finds in the whole stream |
| `FrameParser.EncodeInto` | app/Management/src/management_frame.c:177-212 | however payload and frame overlap, the frame is the encoding of the payload as it was and nothing else changes; errors exactly when the payload is too long or the buffer too small |
| `Transport.RepliesStayInSession` | app/Management/src/management_transport.c:501-532 | in every run a reply is submitted only in the open session whose bytes asked for it, and only while no transfer runs |
| `Transport.StepKeepsAlways` | app/Management/src/management_transport.c:395-613 | every critical section, handler and stretch of task code keeps data of different sessions apart |
| `TransportService.EveryRequestIsAnswered` | app/Management/src/management_transport.c:478-491 | whatever the frame, and however its bytes are cut into packets of 1 to 128, a session that awaits a request comes to send the reply to exactly that frame |
| `TransportService.FirstFrameIsFound` | app/Management/src/management_transport.c:381-392 | with any noise: the packet that completes the first frame the batch parser finds in the stream brings that frame to be dealt with |
| `TransportService.PacketsAreKeptWhole` | app/Management/src/management_transport.c:478-491 | between packets the parser holds exactly what the reference parser leaves of the stream |
| `TransportService.AnsweredGoesOn` | app/Management/src/management_transport.c:449-498 | when a reply has gone out the task awaits the next request, or, after a restart request, resets |
| `TransportService.OpenedSessionIsServed` | app/Management/src/management_transport.c:416-425 | wherever the task stands, opening a session makes it come to await that session's first request |
| `Transport.BufferIsStableInFlight` | app/Management/src/management_transport.c:381-392 | in every run without a resend the transmit buffer is not rewritten during a transfer of the session served |
| `Transport.ResetIsAcknowledged` | app/Management/src/management_transport.c:459-473 | in every run without a resend the system resets only after the reply to a restart request completed in the still open session that asked |
| `Transport.ResendHappens` | app/Management/src/management_transport.c:520-530 | the resend is reachable with any short request |
| `Transport.ResendBreaksBoth` | app/Management/src/management_transport.c:520-530 | every run that comes to a resend can go on to overwrite a buffer in flight and to reset without an answered restart request |
| `Transport.WaitingPacketCanBeLost` | app/Management/src/management_transport.c:509-519 | a packet that arrives between the critical sections can be overwritten before it is taken |
| `Transport.PacketsAreKept` | app/Management/src/management_transport.c:439-448 | in every run that never arms the endpoint while a packet waits, no packet finds another waiting, and a waiting packet stays until the task takes it or its session is over |
| `Transport.ExposedPacketIsLost` | app/Management/src/management_transport.c:509-519 | every run that does arm it then can lose the waiting packet to any next one |
| `ExternalFlash.PageProgramFits` | app/ExternalFlash/src/external_flash.c:273-276 | a transfer that ends within its page reaches exactly the cells addressed |
| `ExternalFlash.OverrunWraps` | app/ExternalFlash/src/external_flash.c:273-276 | one that does not would wrap to the start of the page |
| `ExternalFlash.Flash.Program` | app/ExternalFlash/src/external_flash.c:253-304 | success is one bytewise program of the range, failure a torn one inside it and only if the device failed, and the three refusals are exact |
| `InternalFlash.StoredIsSource` | app/InternalFlash/src/internal_flash.c:52-70 | the value assembled for each width stores the source bytes in order |
| `InternalFlash.Flash.HalProgram` | app/InternalFlash/src/internal_flash.c:72-79 | only naturally aligned accesses are made |
| `InternalFlash.Flash.Program` | app/InternalFlash/src/internal_flash.c:30-88 | whatever mix of widths is used the effect is one bytewise program; failure is a torn one inside the range |
| `InternalFlash.Flash.IsErased` | app/InternalFlash/src/internal_flash.c:152-180 | reading in pieces of 64 bytes decides whether the range is erased |
| `ConfigStore.RecordIsRead` | app/Configuration/src/configuration_service.c:283-332 | a complete record of an acceptable payload is read back |
| `ConfigStore.ReadIsRecord` | app/Configuration/src/configuration_service.c:283-332 | whatever is read as valid is a complete record of an acceptable payload |
| `ConfigStore.NewestIsLoaded` | app/Configuration/src/configuration_service.c:334-376 | a valid slot is loaded exactly when the other is invalid, or holds neither its successor nor, unless this is slot B, the same generation |
| `ConfigStore.UnfinishedIsHarmless` | app/Configuration/src/configuration_service.c:378-411 | wherever a write is cut off, its slot reads as before, as nothing, or as the record being written |
| `ConfigStore.StepKeeps` | app/Configuration/src/configuration_service.c:334-629 | every boot, submission, finished, failed or interrupted flash operation keeps the invariant |
| `ConfigStore.LoadIsRecent` | app/Configuration/src/configuration_service.c:334-376 | from any flash contents and after any run a load yields the configuration last reported as stored or one submitted after it, from a complete record |
| `ConfigStore.ReportedIsLoaded` | app/Configuration/src/configuration_service.c:591-629 | when a write reaches its read-back it reports success, and a load yields exactly its payload |
| `ConfigStore.ComparisonIsUnambiguous` | app/Configuration/src/configuration_service.c:268-281 | in every run the comparison of generations meets two equal ones only if the flash held two to begin with |
| `ConfigStore.StoringSettlesGenerations` | app/Configuration/src/configuration_service.c:591-629 | and once a write is reported as stored, never again |
| `ConfigStore.PersistedSlotIsKept` | app/Configuration/src/configuration_service.c:617-626 | the slot in use is never touched |
| `ConfigStore.ActiveIsLoaded` | app/Configuration/src/configuration_service.c:334-376 | from a boot to the next loss of power the service runs on what a load gave at that boot, which was recent then |
| `ConfigStore.ActiveIsFromLastBoot` | app/Configuration/src/configuration_service.c:334-376 | whenever the service runs there was such a boot |
| `ConfigService.Service.Init` | app/Configuration/src/configuration_service.c:428-439 | initialization is the boot step, once only, and makes the loaded configuration the active one |
| `ConfigService.Service.WriteSlot` | app/Configuration/src/configuration_service.c:378-426 | erasing, programming body and magic and comparing is a run of the store, failed or successful |
| `ConfigService.Service.Write` | app/Configuration/src/configuration_service.c:591-629 | every call is a run of the store; each refusal exactly when it applies and without effect; success leaves the record in place; with a flash that never fails, an accepted payload is stored |
| `ConfigFormat.FieldsRoundTrip` | app/Configuration/src/configuration_binary_codec.c:165-271 | taking the fields off what was put gives back the configuration with its meaningless fields cleared |
| `ConfigFormat.FieldsBack` | app/Configuration/src/configuration_binary_codec.c:165-271 | putting back what was taken gives the same bytes: no field has a second spelling |
| `ConfigFormat.EndpointRoundTrip` | app/Configuration/src/configuration_binary_codec.c:98-117 | the same for endpoints |
| `ConfigFormat.ClientIdRoundTrip` | app/Configuration/src/configuration_binary_codec.c:119-138 | for client ids |
| `ConfigFormat.MessageRoundTrip` | app/Configuration/src/configuration_binary_codec.c:140-163 | for messages |
| `ConfigFormat.MqttRoundTrip` | app/Configuration/src/configuration_binary_codec.c:201-229 | for the MQTT section |
| `ConfigFormat.PointsRoundTrip` | app/Configuration/src/configuration_binary_codec.c:231-268 | for collection points |
| `ConfigFormat.EncodedLength` | app/Configuration/src/configuration_binary_codec.c:521-526 | everything the format can carry is 1 to 8475 bytes long |
| `ConfigLongest.BoundIsAttained` | app/Configuration/include/configuration.h:10 | a valid configuration of exactly 8475 bytes exists |
| `ConfigCodec.ValidFits` | app/Configuration/src/configuration.c:601-722 | every valid configuration fits the format |
| `ConfigCodec.CleanIsAsValid` | app/Configuration/src/configuration.c:601-722 | clearing meaningless fields does not change the verdict of validation |
| `ConfigCodec.DecodeInvertsEncode` | app/Configuration/src/configuration_binary_codec.c:273-316 | for every valid configuration, decoding its encoding succeeds with an equal configuration |
| `ConfigCodec.EncodeInvertsDecode` | app/Configuration/src/configuration_binary_codec.c:434-529 | re-encoding any accepted payload gives back exactly the same bytes |
| `ConfigCodec.AcceptedPayloadsAreDistinct` | app/Configuration/src/configuration_binary_codec.c:273-316 | no two payloads decode to the same configuration |
| `ConfigCursors.Reader.ReadText` | app/Configuration/src/configuration_binary_codec.c:72-83 | the reader takes a text within its limits exactly as the format defines it |
| `ConfigCursors.Reader.ReadPoints` | app/Configuration/src/configuration_binary_codec.c:237-268 | the loop over the collection points takes them one by one |
| `ConfigCursors.Reader.ReadFields` | app/Configuration/src/configuration_binary_codec.c:165-271 | the reader takes all fields |
| `ConfigCursors.DecodePayload` | app/Configuration/src/configuration_binary_codec.c:273-316 | the whole decoder, with every result code |
| `ConfigCursors.Writer.WriteText` | app/Configuration/src/configuration_binary_codec.c:373-376 | succeeds exactly when count and bytes fit, and then appends them |
| `ConfigCursors.Writer.WritePoints` | app/Configuration/src/configuration_binary_codec.c:503-519 | the loop over the collection points succeeds exactly when all of them fit |
| `ConfigCursors.Writer.WriteFields` | app/Configuration/src/configuration_binary_codec.c:457-519 | all fields are written exactly when they fit |
| `ConfigCursors.EncodeConfiguration` | app/Configuration/src/configuration_binary_codec.c:434-529 | buffer-too-small exactly when the capacity is below the encoded length; otherwise the buffer begins with the encoding unless it is overlong |
| `ConfigCursors.ValidIsNeverOverlong` | app/Configuration/src/configuration_binary_codec.c:521-526 | for a valid configuration the overlong branch is unreachable |
| `ConfigNetwork.MaskIsPrefix` | app/Configuration/src/configuration.c:43-49 | a subnet mask is ones followed by 2 to 31 zeros |
| `ConfigNetwork.StaticNetworkMeans` | app/Configuration/src/configuration.c:610-626 | the bit operations accept a static network exactly when device and gateway are different hosts of one network, neither its first nor its last address, with distinct name servers |
| `ConfigRules.CheckHostname` | app/Configuration/src/configuration.c:81-123 | one pass decides whether every label has 1 to 63 letters, digits or inner hyphens and some character is a letter |
| `ConfigRules.CheckPoints` | app/Configuration/src/configuration.c:692-717 | the nested loops decide that all points are valid and all topics, message topics included, differ |
| `ConfigRules.CheckUtilization` | app/Configuration/src/configuration.c:533-574 | giving up early decides whether the total load is within half the bus time |
| `ConfigBus.SilenceIsLeast` | app/Configuration/src/configuration.c:496-505 | up to 19200 baud the silence is the least number of microseconds that covers 3.5 characters, above it 1750 |
| `ConfigBus.LoadIsClose` | app/Configuration/src/configuration.c:553-566 | the load of a point covers its exact bus time in a second and exceeds it by less than four microseconds |
| `ConfigBus.AcceptedLeavesHalfFree` | app/Configuration/src/configuration.c:533-574 | the polling of an accepted configuration leaves half of every second free |
| `ConfigBus.RefusedNeedsHalf` | app/Configuration/src/configuration.c:719-721 | one refused for its bus utilization really needs half a second, but for four microseconds a point |
| `ConfigPolling.AcceptedPointsCanBePolled` | app/Configuration/src/configuration.c:507-531 | the request of every accepted point can be encoded and its interval counted exactly |
| `ConfigPolling.SlaveIsValidWhenEncodable` | app/Configuration/src/configuration.c:509-515 | a slave address is valid exactly when the request to it can be encoded |
| `ConfigRules.CheckMessage` | app/Configuration/src/configuration.c:340-358 | decides the rules for a message |
| `ConfigRules.CheckMqtt` | app/Configuration/src/configuration.c:652-677 | decides the rules for the MQTT section |
| `ConfigRules.CheckCertificate` | app/Configuration/src/configuration.c:423-456 | length and encoding are checked before the library is asked |
| `ConfigRules.ValidateConfiguration` | app/Configuration/src/configuration.c:601-722 | the first rule broken, in the order of the code |
| `ConfigEquals.ConfigurationEquals` | app/Configuration/src/configuration.c:765-860 | the comparison loops decide the comparison as written |
| `ConfigEquals.CompareHostnames` | app/Configuration/src/configuration.c:125-143 | equal up to the case of ASCII letters |
| `ConfigEquals.LowerMeansSameLetter` | app/Configuration/src/configuration.c:71-79 | two characters compare equal exactly when they are equal or the two cases of one letter |
| `ConfigEquals.CollectionsEqualMeansSameSet` | app/Configuration/src/configuration.c:838-857 | searching one way compares the sets of points, because topics are distinct and counts equal |
| `ConfigEquals.EqualsMeansCanonical` | app/Configuration/src/configuration.c:765-860 | valid configurations are equal exactly when their canonical forms are |
| `ConfigEquals.EqualsIsEquivalence` | app/Configuration/src/configuration.c:765-860 | equality of valid configurations is reflexive, symmetric and transitive |
| `ConfigEquals.OrderIsIgnored` | app/Configuration/src/configuration.c:838-857 | a valid configuration with its points rearranged is valid and equal |
| `ConfigEndToEnd.LoadedIsCanonical` | app/Configuration/src/configuration_service.c:334-376 | whatever is loaded after any run is valid and its encoding is the stored payload |
| `ConfigEndToEnd.WrittenIsLoaded` | app/Configuration/src/configuration_service.c:591-629 | once the encoding of a valid configuration is reported as stored, a load gives an equal configuration |
| `Utf8.CheckUtf8` | app/Configuration/src/configuration.c:176-246 | the loops decide validity as defined step by step |
| `Utf8.ValidExactlyWhenEncoding` | app/Configuration/src/configuration.c:176-246 | a byte string is accepted exactly when it is the encoding of some sequence of scalar values, non-zero ones unless NUL is allowed (sections 3 and 4 of RFC 3629) |
| `Boot.BootOrder` | app/Boot/boot_control.c:68-106 | collecting and swapping gives the candidates in boot order; unreadable slots are left out |
| `Boot.OrderHoldsCandidates` | app/Boot/boot_control.c:60-92 | the order holds each readable pending or confirmed slot once and nothing else |
| `Boot.OrderOfTwo` | app/Boot/boot_control.c:92-104 | of two candidates B goes first exactly when its generation follows A's, or is the same and only B is confirmed |
| `Boot.KeepIsBest` | app/Boot/boot_control.c:120-136 | an upgrade keeps the slot of higher standing, of two equal ones the newer, and targets the other |
| `Boot.ConfirmedIsFinal` | app/Boot/boot_control.c:154-223 | a confirmed header can be neither initialized nor marked |
| `Boot.MarkedStatus` | app/Boot/boot_control.c:177-223 | each mark moves a slot to the next stage and keeps its generation |
| `Boot.ConfirmedIsNeverLost` | app/Boot/boot_control.c:107-138 | once a slot is confirmed, every run of upgrades, marks, boots and crashes with torn flags keeps one confirmed and the boot order non-empty |
| `Boot.UpgradeBootsFirst` | app/Boot/boot_control.c:68-106 | a completed upgrade boots first, even if the mark that completed it was cut off after its last bit; once attempted and not confirmed, or spoilt by a torn flag, it is excluded and the kept slot boots next |
| `Boot.ConfirmedUpgradeBootsFirst` | app/Boot/boot_control.c:68-106 | confirming the attempt puts it back in front of the kept slot |
| `Boot.ErasedIsSpare` | app/Boot/boot_control.c:107-138 | the slot an upgrade may erase always has a confirmed neighbour, which erasing does not touch |
| `Boot.UpgradeCompletes` | app/Boot/boot_control.c:107-223 | choosing, erasing, initializing and marking written completes an upgrade |
| `Boot.TargetIsUnsafeExactlyWhen` | app/Boot/boot_control.c:107-138 | erasing a target can lose the only confirmed slot exactly when, at the time it was chosen, no slot was confirmed and its own header could still become so |
| `Boot.EarlyTargetLosesConfirmed` | app/Boot/boot_control.c:107-138 | for instance when the target, unconfirmed when chosen, is confirmed before it is erased |
| `BootFlash.Slots.Initialize` | app/Boot/boot_control.c:154-176 | only an erased header is programmed; success leaves it ready to be marked written with that generation |
| `BootFlash.Slots.Mark` | app/Boot/boot_control.c:177-223 | idempotent at its own stage, refused unless at the stage before; success means the stage is reached |
| `BootFlash.ChooseTarget` | app/Boot/boot_control.c:107-138 | no target is named unless both slots are readable |
| `Calendar.MonthsAreGregorian` | app/SNTP/src/sntp_service.c:19-39 | the month lengths of the Gregorian calendar |
| `Calendar.YearsAreGregorian` | app/SNTP/src/sntp_service.c:24-27 | a day more every fourth year, but not every hundredth, but every four-hundredth |
| `Calendar.GmTime` | app/SNTP/src/sntp_service.c:41-106 | every 32-bit time has a calendar time that names it; the month overflow cannot happen |
| `Calendar.MkTime` | app/SNTP/src/sntp_service.c:108-168 | accepts exactly the calendar times of 1970 to 2106 below 2^32-1 and returns the second they name, with the derived fields filled in |
| `Calendar.ThereAndBack` | app/SNTP/src/sntp_service.c:41-168 | to the calendar and back is the identity below 2^32-1, and nothing at 2^32-1 |
| `Calendar.BackAndThere` | app/SNTP/src/sntp_service.c:41-168 | an accepted calendar time comes back unchanged but for its derived fields |
| `Calendar.SecondsAreUnique` | app/SNTP/src/sntp_service.c:108-168 | two calendar times that name the same second agree |
| `Calendar.SetTime` | app/SNTP/src/sntp_service.c:251-272 | the clock fields written name the same second and its day of the week; refused exactly outside 2000 to 2099 |
| `Calendar.GetTime` | app/SNTP/src/sntp_service.c:208-222 | the second the clock fields name |
| `Calendar.StoreAndLoad` | app/SNTP/src/sntp_service.c:208-272 | any time in 2000 to 2099 is read back unchanged |

## Left out

- GatewayProof.StepKeeps: tokens are serial numbers compared modulo 2^32, issued only while fewer than 2^32 were issued since any request still on its way.
- GatewayProof.ConnectionIsServed: which ready client is served next is left open, so `select`, timeouts and socket errors are any moment at which a client may be closed.
- GatewayProof.ReachedInv: the three tasks are steps on values, since their buffers are shared by three tasks; the pool, the scheduler's loops and the frame building are also given in imperative form, the client records are not.
- Rtu.ForwardedAnswersRequest: speaks about requests that passed validation, as every request put on the bus by the two queues has.
- Rtu.EncodedRequestIsValid: only the four read encoders; write encoders do not exist in the source, exception encoders and decoders are not modelled.
- Collector.Collector.Turn: lateness plus interval stays below 2^31 ticks; processing a point is a step of the gateway model.
- Transport.RepliesStayInSession: session numbers do not wrap; what a reply contains beyond the request it answers (status, configuration, upgrade request) is not modelled; the fault state is unreachable because feeding the parser never fails.
- Transport.BufferIsStableInFlight: a completion belongs to a transfer of the current session, as the USB class driver closes its endpoints before a new session opens.
- ConfigStore.LoadIsRecent: sector erase is atomic; reading is exact or fails.
- ConfigService.Service.Write: the resource-unavailable result of certificate checking is not a result here, it would change nothing.
- ConfigRules.ValidateConfiguration: texts are counted byte strings, so the NUL kept after each text and the checks for it are not modelled; the certificate library and the netmask helper of lwIP are a parameter and a bit formula.
- ConfigCursors.EncodeConfiguration: NULL arguments, here and everywhere, are types.
- ConfigEquals.EqualsIsEquivalence: equality of configurations that are not valid, which the source leaves undefined.
- GatewayProgress.EveryAduComesBack: a run that returns every ADU exists; that the operating system schedules the tasks fairly is not modelled.
- BootFlash.Slots.Mark: the image itself, vector checks, the backup-register request and the bootloader body; erasing is modelled on the header, which one sector erase clears.
- InternalFlash.Flash.Program: caches, and error codes of the hardware library beyond failed.
- Calendar.SetTime: restoring the old clock value when the chip refuses a write; microseconds.
- Gateway, collector and transport: real time, watchdog reports, logging, TLS and MQTT publishing.
- Drivers: HAL, DMA, SPI, UART, GPIO, Ethernet, USB descriptors, lwIP and FreeRTOS themselves.
- Tools: firmware packaging, slot download and serial monitors, apart from the batch frame parser.
