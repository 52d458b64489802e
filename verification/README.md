# Verified model of the sensor firmware

A Dafny model of the dual-core MicroPython sensor firmware: what its cores promise each other, the
broker and the flash, and proofs that they keep it. Each part of the firmware that updates state in
place is a class whose methods follow the source step by step and are proved against a specification
function or a state machine; the promises are then lemmas about that specification, for every input,
every run and every interleaving.

## The parts

- `OutboundState`, `OutboundSafety`, `OutboundPressure`, `OutboundQueue`: the heap-governed queue from Core 1 to Core 0.
  The state machine's steps are the critical sections of the queue lock, the readings of the free
  heap and the collections, so Core 0 may take and complete between any two of them. What
  `gc.mem_free()` returns and what the serializer does are arbitrary sequences; a collection is not
  assumed to help. `OutboundPressure` tells what each reading decides. The class carries the run it has made, and every method is shown to extend it by
  the machine's own steps. `EventQueue` is the lane the other way.
- `Flash`, `ConfigTransaction`: the crash-safe configuration write. Four files, each absent, invalid
  or holding a configuration; every flash operation may succeed, raise with no, part or all of its
  effect, or be the last one before a power loss.
- `Core0State`, `Core0Identity`, `Core0Commands`, `Core0`: sequences, retries, substitutes, the
  command debounce and the reboot. A publish is two steps, with inbound messages dispatched between
  them as the PUBACK is awaited.
- `MqttWire`, `MqttClient`: the MQTT 3.1.1 frames (sections 2.2, 3.1, 3.3, 3.4, 3.8) and the client
  over a byte stream.
- `Ticks`: uptime and deadlines over a 30-bit tick counter.
- `Crc8` (with `ShiftRegister`): the SHT35 checksum as polynomial division, and what it detects.
- `DeviceRules`, `DeviceValidation`, `I2cBuses`: which device lists are acceptable, that the
  owner-map passes decide it, and that the bus factory never meets a conflict.
- `DeviceLifecycle`: the device manager's counters, states and membership.

## What the proofs found

- The count ceiling of the outbound queue is not rechecked by the append that follows a count
  eviction; it holds in every interleaving because the heap-admission lock keeps other appends out,
  and `OutboundSafety.CeilingNeedsTheAdmissionLock` shows a run that breaks it otherwise.
- A configuration write is safe against every fault exactly from a clean start
  (`ConfigTransaction.SafeExactlyFromCleanStart`). A write that commits but cannot remove `.cleanup`
  leaves the next write of the same boot without one: `ConfigTransaction.CommittedWriteRevoked` is a
  run in which a configuration answered with REBOOT_REQUIRED is lost to the one before it.
  `SessionSafe` holds for any number of writes when none starts with `.old` or `.cleanup` present.
- The docstring of `recover` (config_manager.py:144-145) promises exactly one file afterwards. The
  code leaves an unreadable `.cleanup` behind when it falls back to `.old`; the model follows the
  code, `UnreadableCleanupIsLeft` exhibits the state and `SteadyStateExactly` says precisely when the
  promise is kept. The invariant kept from a clean start (`WriteSafe`, `BootsKeepInv`) excludes that
  state, so it means `.cleanup` was corrupted from outside.
- A response slot is reserved for every accepted command, but none for the substitute owed for a
  discarded outbound command response: `Core0Commands.DiscardIsAnsweredExactlyWithRoom` and
  `DiscardedAnswerCanBeLost`.
- `get_active_devices` documents configuration order and fixed membership (device_manager.py:303-307),
  but late recoveries are appended to the end of the list. `DeviceLifecycle.RecoveryOutOfOrder` is an
  input at which the order is lost; it survives, whichever devices recover, exactly when every active
  device is configured ahead of every failed one (`RecoveryKeepsOrderExactly`), and then
  `RetryFailedDevices` keeps it.
- `_regrid_next_boundary` alone is not covered by the configuration's bound on intervals: an accepted
  one overflows `ticks_add` exactly from the last of its boundaries less than half a period after the
  anchor on; one of at least half the bound, at every call one interval or more after the anchor
  (`Ticks.LateRegridOverflows`). The boot path never gets there: the anchor and the clock are read
  moments apart (core1.py:880, 909), and within the first interval no accepted interval overflows
  (`AcceptedIntervalRegrids`).

Two conventions. A retry of a QoS 1 publish takes a new packet id, so "the same frame" means the same
application message: topic and payload. Object identity in the source (a queue entry, a response
container) is an `id` given out in order of creation.

## Model

| member | source | states |
|---|---|---|
| OutboundState.VictimIsFair | intercore.py:192-218 | an eviction victim is not CRITICAL, is no more important than the incoming message, is of the least important class queued and the oldest of it; there is none exactly when nothing queued is both evictable and no more important |
| OutboundSafety.CeilingHolds | intercore.py:108-116 | in every interleaving of admissions, takes and completions the depth and its watermark never exceed the count ceiling, though the append after a count eviction does not recheck it |
| OutboundSafety.CeilingNeedsTheAdmissionLock | intercore.py:157-190 | with another producer's append between the eviction and the append, the ceiling is exceeded |
| OutboundSafety.NothingIsLost | intercore.py:118-155 | every entry ever admitted is queued, in flight, completed, discarded or evicted, exactly once; the byte total and the eviction and discard counters are those of the entries |
| OutboundSafety.WatermarksArePeaks | intercore.py:147-154 | each high watermark equals the peak of its metric over the whole run |
| OutboundSafety.TakenInAdmissionOrder | intercore.py:384-409 | what has been taken, followed by what is queued, is in order of admission, and the entry in flight is the last one taken |
| OutboundSafety.EvictionAndRefusalArePrincipled | intercore.py:305-343 | over every run nothing CRITICAL is evicted, every retained entry was measured at or above the floor while retained, and a refusal or MemoryError happens only with nothing eligible queued |
| OutboundSafety.ReserveKeepsEverything | intercore.py:262-287 | with the preferred reserve always free and no ceiling, no run evicts or refuses anything |
| OutboundSafety.SoftPressureCostsOneEach | intercore.py:288-301 | with only the floor always free and no ceiling, an admission evicts at most one entry beyond those evicted when it began, and nothing is refused: the preferred reserve is no rejection wall |
| OutboundSafety.AdmissionEnds | intercore.py:220-327 | an admission ends within a bound fixed by the queue length, whatever the heap and the serializer do and however Core 0 interleaves |
| OutboundSafety.AdmissionSettles | intercore.py:345-382 | a finished admission has appended its message exactly when it ended so, evicted only entries no more important than it, and is counted as refused or as too large exactly when it ended so |
| OutboundPressure.ReserveDecides | intercore.py:262-287 | with Core 0 running in between: the preferred reserve is read, after a collection exactly when it was short; nothing is given up before the second reading, and the message goes to the count gate exactly when that one is at or above the reserve |
| OutboundPressure.SoftPressureRelieves | intercore.py:288-301 | with the reserve short twice, a third reading at or above the floor gives up exactly the victim, if there is one, before the gate; below it hard pressure begins |
| OutboundPressure.HardPressureDisplaces | intercore.py:305-327 | below the floor the victim is displaced and the heap collected and read again, or the message refused when nothing is eligible; at the floor it goes to the gate |
| OutboundPressure.GateDecides | intercore.py:157-190 | below the ceiling the message is appended exactly when the floor holds with it and otherwise taken out again; at the ceiling the victim makes room, or the gate stays shut |
| OutboundPressure.SerializerDecides | intercore.py:220-260 | the first MemoryError costs a collection, each later one the victim, or the message when there is none; every other failure ends the admission with its own counter |
| OutboundQueue.OutboundQueue.EvictOldestByPriorityLocked | intercore.py:118-127 | the loop removes the oldest entry of the class, with its bytes and counters, or nothing |
| OutboundQueue.OutboundQueue.EvictOneEligibleLocked | intercore.py:192-218 | evicts exactly the specified victim, or nothing when there is none |
| OutboundQueue.OutboundQueue.AppendLocked | intercore.py:129-155 | the entry is retained exactly when the free heap measured with it in the queue is at or above the floor, and that reading is the one recorded for it; otherwise every field is as before |
| OutboundQueue.OutboundQueue.TryAppendWithCountGate | intercore.py:157-190 | follows the machine through the count gate, with Core 0 running at each lock release; an append rests on a heap reading of this call, made with the entry in the queue |
| OutboundQueue.OutboundQueue.SerializeWithRecovery | intercore.py:220-260 | every attempt before the last ran out of memory; a collection pays for the second attempt and exactly one evicted entry for each one after it; nothing else is given up, and it ends |
| OutboundQueue.OutboundQueue.DisplaceUntilAdmitted | intercore.py:305-327 | the displacement loop terminates with the message admitted or nothing left to displace |
| OutboundQueue.OutboundQueue.AdmitHeapGoverned | intercore.py:262-327 | the three pressure stages follow the machine, and the readings of this call decide them: the reserve there, nothing is evicted for it; short, with the floor there, exactly the victim goes first; the floor short too, the victim goes before any append, or the message is refused when there is none |
| OutboundQueue.OutboundQueue.Put | intercore.py:345-360 | metadata out of range changes nothing; otherwise the machine's run goes on from the state before the call through this one admission to its end and the result is its outcome; True only on a `gc.mem_free()` reading of this call, made with the entry retained, at or above the floor; the admitted payload is the one the serializer last returned; when it serializes at once, the readings of the call decide the evictions as in AdmitHeapGoverned |
| OutboundQueue.OutboundQueue.PutWithKind | intercore.py:362-382 | as put, for bytes already serialized, with the same tie to the heap readings of the call; too large exactly above the per-message ceiling, and then counted as such |
| OutboundQueue.OutboundQueue.Take | intercore.py:384-395 | returns the entry in flight until it is completed, else the oldest queued |
| OutboundQueue.OutboundQueue.CompleteInFlight | intercore.py:397-409 | releases the entry exactly when it is the very one in flight |
| EventQueue.EventQueue.Put | intercore.py:466-501 | admitted exactly when the two readings after the chance to collect are at or above the floor; otherwise only the rejection count changes; the watermark rises exactly with a longer queue |
| EventQueue.EventQueue.Take | intercore.py:503-507 | events leave in order of admission, none lost and none evicted |
| ConfigTransaction.SteadyStateExactly | config_manager.py:136-223 | a completed recovery leaves config.json alone with the returned configuration, except exactly when it falls back to .old past an unreadable .cleanup |
| ConfigTransaction.UnreadableCleanupIsLeft | config_manager.py:136-223 | the documented single-file steady state fails with an unreadable .cleanup beside a good .old |
| ConfigTransaction.RecoverTrusts | config_manager.py:158-223 | a completed recovery returns exactly what the files make authoritative: config.json vouched for by .cleanup, .cleanup for an invalid one, else a valid .old, else config.json, and .tmp only when nothing else is valid; it finds nothing exactly when nothing is valid |
| ConfigTransaction.OldRollsBack | config_manager.py:179-187 | without a .cleanup a valid .old is returned whatever config.json holds: an uncommitted write is rolled back at boot |
| ConfigTransaction.RecoverSafe | config_manager.py:158-223 | cut off anywhere, a recovery keeps the two-configurations invariant; one that completes returns one of the two and leaves only it |
| ConfigTransaction.BootsKeepInv | config_manager.py:158-223 | any number of boots cut off anywhere keep that invariant |
| ConfigTransaction.InvRecoverable | config_manager.py:158-223 | from that invariant, after any boots cut off anywhere, a recovery that completes returns one of the two configurations and leaves only it, and one without faults completes |
| ConfigTransaction.WriteSafe | config_manager.py:257-292 | from a clean start, wherever the write stops (power loss, partial .tmp, OSError anywhere, failing restoration), the invariant holds |
| ConfigTransaction.SafeExactlyFromCleanStart | config_manager.py:229-317 | every fault leaves the two configurations recoverable if and only if the write started clean |
| ConfigTransaction.StaleOldRestored | config_manager.py:331-349 | a leftover .old is taken for this write's backup and replaces config.json |
| ConfigTransaction.StaleCleanupPreferred | config_manager.py:158-177 | a leftover .cleanup is preferred over the .old just made |
| ConfigTransaction.CommittedWriteRevoked | config_manager.py:303-312 | a concrete run in which a configuration acknowledged with REBOOT_REQUIRED is lost after a second write in the same boot |
| ConfigTransaction.CommittedWriteIsDurable | config_manager.py:293-317 | after REBOOT_REQUIRED every completed recovery returns the candidate, even when removing .cleanup or its sync failed |
| ConfigTransaction.RenameDecides | config_manager.py:229-317 | from a start without leftovers, whatever befalls the write and whichever boots are cut off after it, every completed recovery returns the candidate exactly when the .old to .cleanup rename took effect and was not rolled back, and the previous configuration otherwise |
| ConfigTransaction.OutcomesTell | config_manager.py:265-317 | REBOOT_REQUIRED is answered only for a candidate whose rename took effect, a failed read-back only for one whose rename did not |
| ConfigTransaction.CalmWrite | config_manager.py:229-317 | with no fault a changed candidate commits and config.json holding it is all that is left |
| ConfigTransaction.RaisedWriteRestores | config_manager.py:319-349 | a write that raises after a completed restoration leaves exactly the pre-write files |
| ConfigTransaction.QuietWrites | config_manager.py:248-256 | a rejected or UNCHANGED candidate touches nothing |
| ConfigTransaction.SessionSafe | config_manager.py:229-317 | any session of writes none of which starts with leftovers ends with the last acknowledged configuration or the last candidate recoverable |
| ConfigTransaction.ConfigManager.Recover | config_manager.py:136-223 | performs exactly the specified recovery, operation by operation, under every fault; what it trusts is RecoverTrusts |
| ConfigTransaction.ConfigManager.RestoreCommitted | config_manager.py:331-349 | performs exactly the specified restoration |
| ConfigTransaction.ConfigManager.Promote | config_manager.py:265-292 | performs exactly the specified promotion |
| ConfigTransaction.ConfigManager.BeginWrite | config_manager.py:229-317 | performs exactly the specified write |
| Core0Identity.FramesIdentifyMessages | core0.py:663-722 | over every run of publishes, failures, retries and substitutes, two frames carry the same sequence exactly when they are of the same message, and then topic and payload agree byte for byte |
| Core0Identity.FramesFit | core0.py:706-716 | no frame exceeds the per-message ceiling, envelope included |
| Core0Commands.CommandsAreAnswered | core0.py:524-579 | in every run the debounce list is the last 16 accepted ids and any 17 consecutive accepted ids differ; pending responses never exceed 4; responses owed are those acknowledged followed by those pending, in order; a held reboot has exactly one substitute waiting once its answer was queued |
| Core0Commands.EveryCommandEndsOnce | core0.py:190-309 | a command is accepted exactly when addressed, bounded, not recent and with a slot free, and then ends in exactly one way that its fields decide: each error code, success, a held reboot, a forwarded event, silence and an escape each if and only if its own condition on the fields holds, in the order of the checks |
| Core0Commands.ResetOnlyOnceAcknowledged | core0.py:851-929 | the board resets only on the PUBACK of the success acknowledgement, whose frame is on the wire |
| Core0Commands.ReleasedOnlyByPublishing | core0.py:573-579 | a held reboot is released only by the PUBACK of its acknowledgement or of its one substitute |
| Core0Commands.DiscardIsAnsweredExactlyWithRoom | core0.py:731-763 | a discarded command response is answered with a substitute exactly when a slot is free |
| Core0Commands.DiscardedAnswerCanBeLost | core0.py:1318-1329 | for every body that fills the ceiling by itself, a reachable state in which the answer to it is lost |
| Core0Commands.JudgedExactly | core0.py:694-722 | a response goes out exactly when its bytes, frozen or fresh, are an object that fits with the envelope, and then as that object with the envelope members behind its own; each permanent cause exactly under its condition |
| Core0Commands.ServedExactly | core0.py:534-579 | one serving sends the one frame if it can go out and the write does; one that can never go out is replaced in its place by a substitute naming the cause, unless it is one; anything else escapes |
| Core0Commands.RebootAttemptedExactly | core0.py:851-929 | one attempt on the reboot acknowledgement: as for a response, but the substitute is queued behind the others, exactly with a slot free, and the acknowledgement kept |
| Core0Commands.EntryAttemptedExactly | core0.py:694-763 | an entry whose body fits with its envelope goes out and stays in flight; one that does not fit leaves for good, answered with a substitute if it was a readable response and a slot is free; one that is no object escapes |
| Core0Commands.OneAtATime | core0.py:1284-1340 | a frame goes out only while no PUBACK is awaited: of the entry in flight if there is one, else of the oldest pending response or the reboot acknowledgement; an entry in flight leaves only by its PUBACK or by being discarded |
| Core0.Core0.OnMqttMessage | core0.py:148-309 | the staged checks do exactly what the machine's reception does, so each command ends as EveryCommandEndsOnce says |
| Core0.Core0.RememberCommandId | core0.py:528-532 | appends the id and drops the oldest above capacity |
| Core0.Core0.ClaimWireSequence | core0.py:663-671 | a marked container keeps its sequence, an unmarked one takes a fresh one |
| Core0.Core0.BuildResponse | core0.py:765-817 | serializes once and freezes the bytes; a permanent failure is told apart from an exception |
| Core0.Core0.PublishQos1 | core0.py:717-725 | the frame goes out, exactly the messages that arrive before the PUBACK are received, in order, and the exchange ends as the connection ends it; nothing received disturbs the message being published |
| Core0.Core0.DispatchWhileAwaiting | core0.py:148-309 | the messages that arrive during a PUBACK wait are received in order, up to one whose handler lets an exception escape |
| Core0.Core0.ServicePendingCore0Response | core0.py:534-579 | one serving adds to the run exactly the machine's step, the messages received while waiting, and the PUBACK or its loss |
| Core0.Core0.PerformReboot | core0.py:851-929 | attempted only with no entry in flight and no answer queued, and then exactly the machine's step and exchange; a reset follows only an acknowledged success |
| Core0.Core0.PublishInFlight | core0.py:694-722 | an entry leaves flight exactly when acknowledged or permanently unsendable; what goes out is EntryAttemptedExactly |
| Core0.Core0.Pass | core0.py:1254-1363 | one pass of the run loop, with everything due, open, polled or offered arbitrary: reboot, poll, reboot, serving and publishing are each attempted exactly when due and possible in the state the turn before left, on the next serializer and socket answers and no others, each attempt is seen through to its end, and nothing follows a reset or an escaped exception |
| Core0.Core0.PassInTurn | core0.py:1254-1340 | told from the events of the run: one pass starts at most a reboot before and one after the poll, then at most one serving, then at most one take and publish, in that order; only the entry while one is in flight; and, unless the pass is cut short, each that was due and possible from the beginning |
| MqttWire.LengthRoundTrip | mqtt_client.py:74-88 | decoding inverts encoding of the remaining length, whatever follows it |
| MqttWire.LengthTable | mqtt_client.py:74-88 | how many bytes a remaining length takes and what each of them holds, as section 2.2.3 of MQTT 3.1.1 tabulates it |
| MqttWire.FrameLayouts | mqtt_client.py:101-300 | the CONNECT, PUBLISH, SUBSCRIBE and PUBACK frames byte by byte |
| MqttWire.JoiningKeepsMembers | mqtt_client.py:220-235 | splicing a fragment before the closing brace gives the object of the body's members followed by the fragment's if and only if both have some |
| MqttWire.OutboundParses | mqtt_client.py:168-235 | the PUBLISH frame written parses back to its topic, packet id and payload, whatever follows |
| MqttWire.PublishConsumesOneFrame | mqtt_client.py:304-396 | on any byte stream a PUBLISH that parses consumes exactly its declared frame |
| MqttWire.ParseInverts | mqtt_client.py:304-396 | any well-formed frame at the head of any stream is recognised with its own topic, payload and packet id |
| MqttWire.OnlyKnownFrames | mqtt_client.py:304-345 | only a PUBLISH of QoS 0 or 1, a PINGRESP without a body, a PUBACK or a SUBACK is taken for a frame; a stream that starts otherwise is corrupt |
| MqttWire.PublishRejected | mqtt_client.py:346-396 | a PUBLISH is corrupt exactly when its length is out of bounds, its topic does not fit in it, or a packet id does not fit behind the topic |
| MqttWire.StreamConsumed | mqtt_client.py:304-396 | a stream of well-formed frames ending in the awaited PUBACK is consumed frame by frame, delivered in order, each QoS 1 id acknowledged |
| MqttWire.AcknowledgedExactly | mqtt_client.py:237-248 | on any byte stream the wait ends acknowledged if and only if nothing but PUBLISHes, PINGRESPs, SUBACK bytes and well-formed PUBACKs of other ids comes before a well-formed PUBACK of the awaited id, and the stream is then left right behind it |
| MqttClient.IdsDistinct | mqtt_client.py:90-96 | two packet ids agree exactly when their distance is a multiple of 65535 |
| MqttClient.IdClosedForm | mqtt_client.py:90-96 | the packet id after n steps, never 0 |
| MqttClient.PayloadKeepsMembers | mqtt_client.py:218-235 | without a fragment the message goes out as it is; with one, an object goes out as the object of its members followed by the fragment's exactly when both have some |
| MqttClient.Client.RecvLen | mqtt_client.py:74-88 | the reading loop computes the specified decoding and gives up on a fifth length byte |
| MqttClient.Client.WaitMsg | mqtt_client.py:304-396 | reads, delivers and acknowledges exactly what the parse of the stream says; every read request is within the inbound bound |
| MqttClient.Client.AwaitAck | mqtt_client.py:237-254 | consumes the stream up to the matching PUBACK, delivering what comes before |
| MqttClient.Client.PackLength | mqtt_client.py:191-212 | the in-place loop writes exactly the encoded length and touches nothing else |
| MqttClient.Client.Publish | mqtt_client.py:168-254 | the segments written are the one PUBLISH frame of the joined message; too long exactly above the three-byte length, and then nothing is written |
| MqttClient.Client.WriteConnect | mqtt_client.py:101-146 | the segments written are the CONNECT frame |
| MqttClient.Client.WriteSubscribe | mqtt_client.py:256-300 | the bytes written are the SUBSCRIBE frame; refused exactly above 122 topic bytes |
| Ticks.DiffExact | uptime.py:18-23 | a tick difference is the true one exactly within half a period |
| Ticks.UptimeExact | uptime.py:11-23 | the accumulated uptime is true after every sample if and only if consecutive samples are less than half a period apart |
| Ticks.Uptime.CurrentUptimeMs | uptime.py:18-23 | keeps the accumulated value over the samples so far, and returns the true elapsed time whenever consecutive samples have been less than half a period apart |
| Ticks.RegridExact | core1.py:426-432 | regridding yields the grid boundary in (now, now + interval], and overflows exactly when that boundary is half a period or more after the anchor |
| Ticks.RegridBeforeAnchor | core1.py:426-432 | an anchor still to come is itself the next boundary |
| Ticks.AcceptedIntervalRegrids | config.py:308-317 | the bound on intervals is exact: an interval is accepted if and only if a schedule set up at any time within one interval of any anchor regrids to one interval after it |
| Ticks.LateRegridOverflows | core1.py:426-432 | the function alone, less than half a period after the anchor: an accepted interval overflows exactly from its last boundary in that time on; one of at least half the bound, at every call one interval or more after the anchor |
| Ticks.Schedule.Visit | core1.py:951-965 | a deadline fires exactly when reached; the skip loop ends with the next boundary after the clock; fired boundaries are on the grid, in order, each once |
| Crc8.RegisterIsRemainder | devices/sht35/sht35_device.py:70-95 | for a message of any length the register is the remainder of the division by x^8 + x^5 + x^4 + 1 |
| Crc8.OddErrorsDetected | devices/sht35/sht35_device.py:222-233 | any odd number of flipped bits, in data of any length or its CRC byte, is detected |
| Crc8.BurstDetected | devices/sht35/sht35_device.py:222-233 | any error burst of at most eight bits, at any position, is detected |
| Crc8.ZeroWordFails | devices/sht35/sht35_device.py:70-95 | bytes that are all zero never pass, at any length: the initial value is what rejects a dead bus |
| Crc8.VectorPinsInitial | devices/sht35/sht35_device.py:70-95 | of all initial values exactly 0xFF gives the validation vector of the sensor: 0x92 for 0xBE 0xEF |
| Crc8.Crc8 | devices/sht35/sht35_device.py:83-95 | the nested loops compute the checksum of the range |
| Crc8.VerifyWordCrc | devices/sht35/sht35_device.py:222-233 | accepts exactly the words that pass |
| DeviceRules.RoutingSeparates | devices/rp2_i2c.py:31-79 | a named pin is routable if and only if the boards expose it and its number modulo four is that of the controller and the role; defaults included, a line belongs to one controller and one role |
| DeviceRules.SignalsArePins | config.py:426-513 | one signal for each GPIO holds if and only if, on the fields of the devices, every pin named as adc, digital or power differs from every other named or default pin of the list, a 1-Wire pin meets only 1-Wire pins, and an SDA or SCL only the same role of the same controller |
| DeviceRules.BusesAreSettings | config.py:398-415 | the bus rule on the fields: devices of one controller name the same pins or omit the same ones, and run at one effective frequency |
| DeviceRules.ChipsAreAddresses | config.py:515-590 | the chip rule on the fields: no address on one controller is open to two devices |
| DeviceValidation.CheckBuses | config.py:398-415 | the owner map accepts exactly the lists whose devices on one bus ask for one setting |
| DeviceValidation.PinPassesDecide | config.py:426-513 | the two passes over pins accept exactly the lists in which every GPIO carries one signal |
| DeviceValidation.ClaimLines | config.py:452-474 | entering one soil sensor's pins succeeds exactly when none is taken twice, owned already or a 1-Wire pin, and the owner map then holds exactly the lines so far |
| DeviceValidation.CheckPins | config.py:426-513 | the pin passes together accept exactly when every GPIO carries one signal, which is when no pin of the fields serves two purposes |
| DeviceValidation.CheckBusLines | config.py:476-513 | the I2C pass accepts exactly when no driven line, default or named, is owned |
| DeviceValidation.ChipPassesDecide | config.py:515-590 | the passes over sensors accept exactly the lists in which no two devices could bind one chip |
| DeviceValidation.CheckLtr390s | config.py:531-550 | accepts exactly at most one LTR390 on each bus |
| DeviceValidation.CheckCandidates | config.py:551-590 | accepts exactly when each group of two or more names one address each, none twice |
| DeviceValidation.ValidateDevices | config.py:356-590 | accepts exactly the lists whose fields keep the bus, pin and chip rules, and otherwise names the first rule broken |
| I2cBuses.NeverConflicts | core1.py:713-748 | any device of an agreeing list asks for a controller as it was built |
| I2cBuses.I2cBusFactory.Create | core1.py:725-746 | conflicts exactly when the bus is built with another setting; caches only what was constructed |
| I2cBuses.I2cBusFactory.CreateAll | device_factory.py:155-219 | for an accepted list, no order of creations, with any repetitions and construction failures, meets a conflict |
| DeviceLifecycle.ManagedDevice.NormalRead | device_manager.py:319-369 | counters follow the history of reads and each answer moves exactly its own; the device becomes pending exactly on the failure that reaches the threshold |
| DeviceLifecycle.ManagedDevice.Reinitialize | device_manager.py:371-427 | pending ends exactly with a success; only the first failure of an outage warns |
| DeviceLifecycle.DeviceManager.InitializeDriverWithRetries | device_manager.py:212-237 | attempts stop at the first that does not fail, or when they run out |
| DeviceLifecycle.EndsOnce | device_manager.py:158-237 | the driver's answers settle how a device's turn ends and after how many attempts: there is exactly one way |
| DeviceLifecycle.DeviceManager.InitializeDevices | device_manager.py:287-301 | every configured device has one turn, in order, each beginning at the driver call after the last of the turn before: it is active exactly when its driver was created and an attempt within the limit returned after nothing but OSErrors, with the attempts used, and otherwise failed with the attempts made; an escape ends the pass at the call that escapes; the active devices are in configuration order |
| DeviceLifecycle.DeviceManager.ProcessDevice | device_manager.py:309-317 | membership never changes and no other device is touched; the device's history grows by exactly what its driver calls answered |
| DeviceLifecycle.DeviceManager.RetryOne | device_manager.py:446-501 | one fresh attempt; a recovered device is fresh and keeps the attempts counted; an escape leaves the lists as they were |
| DeviceLifecycle.DeviceManager.RetryFailedDevices | device_manager.py:435-503 | each failed device, and no other, has one turn in configuration order, at the driver calls after the turn before: it recovers exactly when both creation and the one attempt return, else its record counts the attempt; each turn is reported once, in order, and warns exactly the first time; an escape ends the pass at that call; the devices active before stay the same objects in their places with those recovered behind them, in order whenever the active devices were configured ahead of the failed ones |
| DeviceLifecycle.RecoveryKeepsOrderExactly | device_manager.py:303-307 | of a partition with the active devices in configuration order: every selection of failed devices that recovers keeps the order if and only if every active device is configured ahead of every failed one |
| DeviceLifecycle.RecoveryOutOfOrder | device_manager.py:303-307 | the documented order fails: of two devices the first fails at boot and recovers |
| DeviceLifecycle.PartitionCounts | device_manager.py:524-541 | active and failed devices add up to those configured |
| DeviceLifecycle.DeviceManager.GetDeviceCounts | device_manager.py:524-541 | the ready count is the number of READY devices, active and failed add up to those configured, and all are ready exactly when no active device is pending |
| DeviceLifecycle.DeviceManager.GetStatusSnapshot | device_manager.py:543-586 | every configured device appears exactly once, in configuration order, with its own report |

## Left out

- Sockets, Wi-Fi, `select`, the watchdog, LEDs, sleeping and printing; timeouts appear only as a publish or read that fails.
- Short or failing socket writes inside a frame: a write happens or the publish fails before its frame is logged.
- `wait_msg` on a non-blocking socket with nothing to read, the SUBACK wait and the CONNACK wait; the frames sent are modelled.
- JSON: a serialization is bytes, a MemoryError or a permanent rejection; a decoded command is the fields dispatch looks at.
- The identity of command fields echoed in responses (`command`, `targeted`, `data`): a response carries its command id and outcome.
- Response containers are values stored back after each mark, where the source mutates one dictionary through several references.
- UTC synchronization, network probes and info responses: they carry no sequence; messages dispatched while they wait are polls.
- A MemoryError outside serialization and the configuration manager, and the supervisor's recovery after an exception escapes: the machine stops there.
- `kind` values outside the four known ones and non-integer priorities: excluded by type; the range check of a priority is modelled.
- The `status` snapshots of the queues and the state mailboxes: reads of fields.
- Reads that fail transiently during `recover`, and flash operations persisting out of order: outside the fault model.
- Splitting and summarizing configuration changes (`_changes_summary`, `_device_changes`): reporting only.
- The scalar range checks of `validate_config` and the device validators: one boolean per definition (`otherwiseValid`). The wiring checks of a single device are `DeviceRules.DeviceOk`, a definition.
- The failed-device retry schedule is the same `Schedule`; its `has_failed_devices` gate and the activity stamp are not modelled.
- Sensor compensation formulas, system information and health payloads: data gathering with no invariant across calls.
- DeviceLifecycle.ManagedDevice.NormalRead: when an exception other than OSError escapes a read, the read has been counted and neither success nor failure has; soundness is stated for reads that return.
