# Verification of the submarine monitoring system

A Dafny model of the communicating core of the system: the on-board controller (LNC, a
microcontroller running an RTOS), the Central Computer it reports to over a serial line, and the
Ground Station that queries the Central Computer over TCP. `dafny verify dfyconfig.toml` checks it.

## What is modelled

| module | what it is about |
|---|---|
| `Bytes`, `Crc`, `CrcAlgebra`, `DoubleErrors` | Octets, the bit-by-bit CRC-16/CCITT-FALSE, its algebra against an independent reference (a shift register clocked one message bit at a time), and the order of x modulo the generator. |
| `Frame`, `Receiver`, `ReceiverTheorems` | The TLV frame encoder and block decoder, the byte-at-a-time receiver with its counters, and what holds of every byte stream fed to it. |
| `Payload` | The payload writer and reader with their sticky error flags. |
| `Scheduler` | The LNC's transmit side: any number of senders, three bounded queues, a counting semaphore and one draining task, one RTOS call at a time. |
| `ObjectDetection` | The infrared edge filter and presence machine, in real time, with interrupts before, between and after the two tests of the task's turn. |
| `Timestamps`, `Query`, `QueryTheorems` | Printed and parsed timestamps, and the query exchange between Ground Station and Central Computer over arbitrarily cut byte streams. |
| `KeyOrder`, `MeasurementLog` | When the integer key of a timestamp orders as its fields do; the seven weekday files of measurements and the range query over them. |
| `Config`, `RemoteConfig` | The thresholds in RAM and flash, and the Central Computer's copy of them. |
| `Fleet` | The Ground Station's combat submarines: heap objects that list each other as peers. |
| `Buzzer`, `Alarm` | Monitor, Event and Buzzer: mode changes, object events, button presses and the sounds that result. |

## How to read the model

* Code that changes state is a class or an array method whose contract equates the new state with a
  function of the old one; the theorems are lemmas about those functions, over all runs.
* A byte is an integer 0..255. The 16-bit CRC register is its sixteen bits. Counters and clocks that
  wrap do so through a `Wrap` function; payload words are range types with explicit conversions.
* Pointer arguments are never null. A decoded value is returned as a copy.
* I/O is a parameter: a transport is an arbitrary list of chunks, the database is a function `find`
  from a query to lines, a file is a sequence of lines, flash is a byte array with a budget of
  double-words that can be programmed, a sensor round is an input.
* `Scheduler.Apply` takes callers as anonymous: what matters of a sender is only which call it is about
  to make and with which message. The class `Scheduler.Communication` holds the C functions as written,
  and their contracts give the run of RTOS calls each one is.
* `Alarm` treats each handler as one step (Monitor round, object event, button press, timer interrupt), in any order.

## What the proofs brought out

* **Wake-ups** (`LNC/Core/Src/communication.c:193-197`). The comment promises one ring per queued
  item; an overwriting keep-alive rings again for the same slot. Tokens can then exceed items, and the
  draining task wakes with nothing to take and encodes whatever its buffer holds
  (`Scheduler.SurplusWakeUpIsReachable`). No message is ever stranded. Once the queues are
  drained, surplus wake-ups and rings lost to the semaphore's limit are exactly as many as replaced
  keep-alives, so there are none if and only if none was replaced (`Scheduler.NoSurplusIffNothingReplaced`).
* **Threshold replies** fall to low priority, being absent from the priority table (`:168-191`).
* **Long answers** (`GroundStation/src/communication/central_computer.cpp:88-97`). Fifty reads of 256
  bytes bound the answer: a reply of more than 12800 bytes can never be shown whole
  (`QueryTheorems.FullAnswerIffShort`).
* **Interrupted saves** (`LNC/Core/Src/config.c:87-105`). The magic number sits in the first
  double-word, so a save that stops after one or two double-words is taken for a whole one at the next
  boot, with all-ones in the missing fields (`Config.InterruptedSave`). `Config.RebootRestoresIff` says when a
  reboot restores the limits in RAM, however each save of a history failed.
* **Weekday files** mix calendar days exactly when some write comes a whole number of weeks from the day
  of the write just before it, with no boot between (`MeasurementLog.OneDayPerFileIff`). Retention of the last
  seven days does not depend on that, only on dates that do not go back. With a write every day, older lines
  remain exactly when the oldest of the last seven days never restarted its file (`MeasurementLog.ExactlySevenDays`).
* **Burst density**. A burst lies within 60 ticks of its first tick exactly when that tick is less than 2^32
  ticks before its last edge; it is exceeded by an edge that comes a whole turn of the tick counter later, at most
  60 ticks off (`ObjectDetection.WindowKeptIff`, with a run in `ObjectDetection.LongGapJoinsOldBurst`). Gaps below
  2^32 - 60 ticks rule it out but are not necessary. `LNC/Core/Inc/objectdetection.h:5-14` describes an older
  design; the model follows the code.
* **Timestamp keys** (`LNC/Core/Src/log.c:105-109`). A request may carry fields of 100 and more, which the key
  carries into the field before. A range end is judged rightly against every two-digit time exactly when its fields before the
  first large one are all 99, which a large year always satisfies; a range start also when its key
  rounds up exactly (`KeyOrder.EndJudgedIffOrderly`, `KeyOrder.StartJudgedIffOrderly`). `MeasurementLog.QueryAnswersIff` says for
  which requests the selected lines are the right ones.
* **A late reply** to a GET_CONFIG that timed out ends the next wait. A wait ends with its own answer, whatever
  follows, exactly when no earlier request and no reply is under way (`RemoteConfig.WaitEndsWithOwnReplyIff`).
* **The siren** is silenced by any object event while Event goes on counting the alarm as active, and the end of ERROR silences
  a ping Event counts as active. `Alarm.FlagsMean` gives the exact condition for every flag.
* **Links** are meant to say who else is on a mission, but the code asks for none. Through a run everyone linked is on
  a mission exactly when no call links a submarine without one (`Fleet.AlwaysBusyIff`); such a submarine cannot
  leave the link by itself (`Fleet.LinkOutlivesRefusedEnd`).

## Model

| member | source | states |
|---|---|---|
| Crc.Crc16Update | Shared/ProtocolTLV/tlv.c:17-29 | The loop computes the register after the byte's eight shifts. |
| Crc.Crc16Buffer | Shared/ProtocolTLV/tlv.c:31-43 | The buffer loop is the fold of the update over those bytes from 0xFFFF. |
| CrcAlgebra.FoldIsLfsr | Shared/ProtocolTLV/tlv.c:17-43 | The byte-wise checksum of any data from any register is the long division of its bit string, done by the reference shift register one bit at a time. |
| CrcAlgebra.CrcOfDifference | Shared/ProtocolTLV/tlv.h:183-190 | The checksums of two equally long messages differ by the division residue of their bit difference alone. |
| CrcAlgebra.BurstLeavesResidue | Shared/ProtocolTLV/tlv.h:183-190 | A non-zero difference inside any 16 consecutive bits, at any place in a message of any length, leaves a non-zero residue. |
| CrcAlgebra.OddLeavesResidue | Shared/ProtocolTLV/tlv.h:183-190 | So does a difference in any odd number of bits, wherever they are. |
| DoubleErrors.OrderOfX | Shared/ProtocolTLV/tlv.h:183-190 | x to the power n is 1 modulo the generator if and only if n is a multiple of 32767. |
| DoubleErrors.TwoFlipsLeaveResidue | Shared/ProtocolTLV/tlv.h:183-190 | Two flipped bits, in a message of any length, leave a residue if and only if their distance is not a multiple of 32767. |
| DoubleErrors.CheckValue | Shared/ProtocolTLV/tlv.h:183-185 | The checksum of nothing is all ones, and of the characters 1 to 9 it is 0x29B1. |
| Frame.TlvEncode | Shared/ProtocolTLV/tlv.c:49-90 | Writes exactly the frame's bytes at the start of the buffer and nothing after them, or reports lack of space exactly when it is too small and changes nothing. |
| Frame.TlvDecode | Shared/ProtocolTLV/tlv.c:101-151 | Returns the specified verdict: bad sync as soon as visible, incomplete, bad checksum, or the frame and its length. |
| Frame.FrameLayout | Shared/ProtocolTLV/tlv.c:72-86 | On the wire: A5 5A, tag, length, value, then the checksum of tag, length and value, high byte first. |
| Frame.DecodeVerdicts | Shared/ProtocolTLV/tlv.c:117-140 | Bad sync if and only if a sync byte that is there is wrong; incomplete if and only if the sync is right and bytes are missing; checksum error if and only if the whole frame is there and its last two bytes are not the checksum. |
| Frame.DecodeInvertsEncode | Shared/ProtocolTLV/tlv.c:101-151 | Decoding yields a frame if and only if the buffer starts with that frame's encoding, and the bytes consumed are its length. |
| Frame.PrefixIsIncomplete | Shared/ProtocolTLV/tlv.c:117-132 | Every proper prefix of an encoding is reported as incomplete, never as an error or a frame. |
| Frame.CorruptionDetected | Shared/ProtocolTLV/tlv.c:134-140 | Any burst of up to 16 bits, odd number of flipped bits or pair of them less than 32767 apart in tag, value or checksum is reported as a checksum error. |
| Frame.TwoByteDamageIsDetectable | Shared/ProtocolTLV/tlv.c:134-140 | Any non-zero change confined to two consecutive bytes is such a burst. |
| Frame.FewFlipsAreDetectable | Shared/ProtocolTLV/tlv.c:134-140 | So are any one, two or three flipped bits anywhere in a frame of any size. |
| Frame.DamagedLength | Shared/ProtocolTLV/tlv.c:123-140 | With the length byte alone damaged, a frame is incomplete if its length grew; if it shrank, the shorter frame is accepted if and only if the two bytes after it are its checksum. |
| Frame.DamagedLengthCanPass | Shared/ProtocolTLV/tlv.c:127-140 | Any frame of up to 253 value bytes is accepted in place of one whose value goes on with its checksum, when the length is damaged so. |
| Receiver.TlvReceiver.FeedByte | Shared/ProtocolTLV/tlv.c:191-272 | One byte moves state, counters, value buffer and verdict as the transition function says, keeping the buffer index below the length. |
| Receiver.TlvReceiver.Feed | Shared/ProtocolTLV/tlv.c:274-297 | Feeding a block is the run over its bytes; the frames handed out are its good verdicts in order, and their number is returned. |
| ReceiverTheorems.Conservation | Shared/ProtocolTLV/tlv.c:191-272 | From any reachable state: bytes pending before plus bytes fed equal bytes dropped, bytes of good frames, bytes of bad frames and bytes pending, and the three counters moved by exactly those amounts modulo 2^32. |
| ReceiverTheorems.OneByte | Shared/ProtocolTLV/tlv.c:191-272 | The same ledger for a single byte, naming the bytes held in each state: the running checksum is that of the bytes taken so far. |
| ReceiverTheorems.OnlyRealFrames | Shared/ProtocolTLV/tlv.c:250-263 | Every frame delivered occurs in the bytes fed as a full valid encoding, the occurrences disjoint and in order: no phantom frames, however the stream is damaged. |
| ReceiverTheorems.OneVerdict | Shared/ProtocolTLV/tlv.c:191-272 | A block of sync, tag, length and that many bytes gives exactly one verdict, on its last byte, the block decoder's, from whatever leftovers. |
| ReceiverTheorems.StreamingRefinesDecode | Shared/ProtocolTLV/tlv.c:101-151 | On every buffer that holds a whole block, the receiver's verdict on byte 6+LEN-1 is the block decoder's result, and every byte before it is incomplete. |
| ReceiverTheorems.FrameDelivered | Shared/ProtocolTLV/tlv.c:250-263 | An encoded frame fed to a hunting receiver is delivered, once, and leaves it hunting with no error counted. |
| ReceiverTheorems.StreamDelivered | Shared/ProtocolTLV/tlv.c:274-297 | Concatenated encodings of any list of frames deliver exactly that list in order, errors and dropped bytes unchanged. |
| ReceiverTheorems.ChunkingIsIrrelevant | Shared/ProtocolTLV/tlv.c:153-163 | However a byte stream is cut into chunks, verdicts and final state are the same. |
| ReceiverTheorems.RunAlike | Shared/ProtocolTLV/tlv.c:191-272 | Two receivers between frames report the same of the same bytes, whatever counters and old fields they hold. |
| ReceiverTheorems.WireRoundTrip | Shared/ProtocolTLV/tlv.c:49-90 | What one side encodes, the other delivers, for any frames, any chunks and any leftover receiver fields. |
| ReceiverTheorems.Resynchronises | Shared/ProtocolTLV/tlv.c:199-221 | After any noise without a sync pair, even ending in a lone first sync byte, the next frame is delivered and exactly the noise is counted as dropped. |
| ReceiverTheorems.DamageIsContained | Shared/ProtocolTLV/tlv.c:250-257 | A detectably damaged frame amid good ones costs one checksum error; all frames before and after it are delivered. |
| Payload.TlvWriter.PutByte | Shared/ProtocolTLV/tlv.c:319-330 | Appends if it fits, else raises the sticky flag; nothing else in the buffer changes. |
| Payload.TlvWriter.PutU32 | Shared/ProtocolTLV/tlv.c:345-355 | Four bytes, most significant first, stopping at the capacity. |
| Payload.TlvWriter.PutBytes | Shared/ProtocolTLV/tlv.c:367-379 | Appends the bytes as far as they fit. |
| Payload.WriterKeepsPrefix | Shared/ProtocolTLV/tlv.c:308-390 | After any fields the buffer is a prefix of their big-endian serialisation, cut at the capacity, and the flag is clear exactly when everything fitted. |
| Payload.FieldsAreBigEndian | Shared/ProtocolTLV/tlv.c:332-365 | Every numeric field is written most significant byte first, negative ones in two's complement. |
| Payload.TlvReader.GetU32 | Shared/ProtocolTLV/tlv.c:437-447 | The value of the next four bytes, missing ones read as zero with the flag raised. |
| Payload.TlvReader.GetBytes | Shared/ProtocolTLV/tlv.c:459-471 | Fills the destination with the next bytes, zeros where there are none. |
| Payload.InterpretInvertsFieldBytes | Shared/ProtocolTLV/tlv.c:332-365 | Each kind of field, signed ones included, is recovered from its bytes. |
| Payload.WriteThenRead | Shared/ProtocolTLV/tlv.c:381-481 | If the writer's flag is clear, reading back the same kinds gives the same values, flag clear and nothing left over. |
| Payload.ShortPayloadReadsAsZeros | Shared/ProtocolTLV/tlv.c:405-419 | A payload too short for the kinds read gives what the payload padded with zeros would, and the flag is raised. |
| Scheduler.Communication.Send | LNC/Core/Src/communication.c:198-259 | Succeeds if and only if the value has at most 96 bytes and it is a keep-alive, or one of the eight events with fewer than 4 of them queued, or another message with fewer than 4 of those queued. Then it is alone in the mailbox, or last in its queue, and one ring is added up to 10; else nothing changes. The call is a run of the model's RTOS calls. |
| Scheduler.Communication.TxRound | LNC/Core/Src/communication.c:267-293 | One turn takes one message from the highest non-empty class, or none on a surplus wake-up, as a run of the model's RTOS calls. |
| Scheduler.StepKeepsInv | LNC/Core/Src/communication.c:226-285 | Every RTOS call, by any sender or by the draining task between its three checks, keeps the queues within bounds, covered by tokens and accounted for. |
| Scheduler.NoStrandedMessage | LNC/Core/Src/communication.c:240-285 | In every interleaving: queued items never exceed tokens, rings due and the token held; so when the task sleeps with none due, all queues are empty. |
| Scheduler.SurplusNeedsEviction | LNC/Core/Src/communication.c:242-257 | At every moment, replaced keep-alives exceed wake-ups that found nothing plus lost rings by exactly the rings that outnumber the queued items. |
| Scheduler.FifoPerClass | LNC/Core/Src/communication.c:226-258 | Accepted events and reports equal those taken followed by those queued, in order; accepted keep-alives split into taken, replaced and queued. |
| Scheduler.TagsOfClasses | LNC/Core/Src/communication.c:168-191 | In every interleaving only keep-alives pass the mailbox and are ever replaced, only the eight event tags pass the second queue, and none of these nine the third. |
| Scheduler.OnlyKeepAlivesAreLost | LNC/Core/Src/communication.c:226-258 | Every accepted message that is no keep-alive has been taken once the queues are drained. |
| Scheduler.DrainEmptiesQueues | LNC/Core/Src/communication.c:267-293 | Left alone, the draining task ends with all queues empty, everything accepted taken in order per class, and surplus wake-ups plus lost rings equal to the keep-alives replaced. |
| Scheduler.NoSurplusIffNothingReplaced | LNC/Core/Src/communication.c:242-285 | By then no wake-up was in vain and no ring lost if and only if no keep-alive was ever replaced. |
| Scheduler.SurplusWakeUpIsReachable | LNC/Core/Src/communication.c:273-291 | Two keep-alives sent in a row lead to a wake-up that finds every queue empty and still transmits. |
| ObjectDetection.ObjectDetector.OnEdgeInterrupt | LNC/Core/Src/objectdetection.c:67-120 | An edge moves the filter, the timer restart and the flag as specified, for every counter reading. |
| ObjectDetection.ObjectDetector.TaskTurn | LNC/Core/Src/objectdetection.c:132-149 | One turn clears the flags and raises the events the flags and presence call for, in order. |
| ObjectDetection.AcceptedEdgesAreSpaced | LNC/Core/Src/objectdetection.c:75-93 | Whatever zeroes or wraps the shared counter, accepted edges i and j are at least 300 us times j - i apart in real time. |
| ObjectDetection.NextEdgeAccepted | LNC/Core/Src/objectdetection.c:75-93 | After any edge, the next is accepted if it comes at least 300 us later with the shared counter neither zeroed nor wrapped between, so a zeroing costs at most one edge; if the first was not too fast, only then. |
| ObjectDetection.ConfirmedIffEighty | LNC/Core/Src/objectdetection.c:102-119 | In every reachable state an accepted edge restarts the presence timer if and only if it is at least the eightieth of its burst modulo 2^32, and joins the burst before it if and only if modulo 2^32 it is at most 60 ticks after its start. |
| ObjectDetection.BurstIsConfirmed | LNC/Core/Src/objectdetection.c:102-119 | When presence is refreshed, at least 80 accepted edges spanning at least 79*300 us have come since the burst began, all within 60 ticks of its start if and only if that start is less than 2^32 ticks ago. |
| ObjectDetection.WindowKeptIff | LNC/Core/Src/objectdetection.c:102-109 | A step takes a burst out of its 60-tick window if and only if it is an accepted edge 2^32 or more ticks after the burst's start that is at most 60 over a multiple of 2^32. |
| ObjectDetection.AlwaysWindowedIff | LNC/Core/Src/objectdetection.c:102-109 | All through a run every burst keeps to its window if and only if the run has no such edge. |
| ObjectDetection.ShortGapsKeepWindow | LNC/Core/Src/objectdetection.c:102-109 | Gaps below 2^32 - 60 ticks between accepted edges are enough for that. |
| ObjectDetection.LongGapJoinsOldBurst | LNC/Core/Src/objectdetection.c:103-109 | One such run: an edge 60 ticks into a burst, a gap of 2^32 - 60 ticks, and the next edge is counted into the old burst. |
| ObjectDetection.EventsAlternate | LNC/Core/Src/objectdetection.c:132-149 | In every run, interrupts anywhere, events are detected, cleared, detected and so on, and detections never outnumber confirmed bursts. |
| ObjectDetection.ConfirmedBurstIsDetected | LNC/Core/Src/objectdetection.c:115-143 | A confirmed burst while absent, a wake-up and the first test of the turn raise one detection. |
| ObjectDetection.TimeoutIsCleared | LNC/Core/Src/objectdetection.c:122-147 | A timeout while present, a wake-up and the turn raise one clearance. |
| Timestamps.ParseHalf | GroundStation/src/communication/central_computer.cpp:41-55 | The parser's result on any text, fields cut to eight bits. |
| Timestamps.ParsesIffStampText | GroundStation/src/communication/central_computer.cpp:41-55 | A text is taken for a timestamp if and only if it starts with three numerals joined by dashes and three joined by colons; anything else is malformed. |
| Timestamps.CastIsCongruent | GroundStation/src/communication/central_computer.cpp:48-53 | Numbers out of range are cut modulo 256. |
| Timestamps.ParseInvertsFormat | CentralComputer/src/common/time_utils.cpp:27-41 | Parsing a printed timestamp returns its fields, for every value of every byte, out-of-range fields being printed digit by digit. |
| Timestamps.ParseLineInvertsFormat | LNC/Core/Src/log.c:127-138 | The log's own parser recovers the timestamp at the head of any line it wrote. |
| Timestamps.ParsesLineIff | LNC/Core/Src/log.c:127-138 | A line is taken into account if and only if it starts with [20 and such numerals of at most two places. |
| Timestamps.FormatIsIso | LNC/Core/Src/log.c:58-59 | For two-digit fields the text is 20YY-MM-DD HH:MM:SS, digit by digit. |
| Timestamps.FormatInjective | CentralComputer/src/common/time_utils.cpp:27-41 | Different timestamps print differently. |
| Timestamps.TextOrderIsKeyOrder | LNC/Core/Src/log.c:105-120 | For two-digit fields, the order of the printed texts is the order of the integer keys: the database and the LNC agree on ranges. |
| Timestamps.LargeFieldsBreakKeyOrder | LNC/Core/Src/log.c:105-120 | A pair of timestamps that the key orders wrongly; the exact condition is in the next rows. |
| KeyOrder.EndJudgedIffOrderly | LNC/Core/Src/log.c:110-120 | As the end of a range, a timestamp of any bytes is compared by key as field by field with every two-digit one, if and only if its fields before the first of 100 or more are all 99. |
| KeyOrder.StartJudgedIffOrderly | LNC/Core/Src/log.c:110-120 | As the start of a range: if and only if that holds, or its first large field is 100 and all after it are 0. |
| KeyOrder.RangeJudgedIff | LNC/Core/Src/log.c:157-162 | For any two bounds together: every two-digit time is in the key range just when it is in the field range, if and only if the range neither skips times after its start nor overruns its end. |
| Query.SendFrame | CentralComputer/src/gsLink/gs_link_server.cpp:62-79 | However the socket splits the writes, what was sent is a prefix of the frame, the whole of it if and only if the call succeeds. |
| Query.SendReply | CentralComputer/src/gsLink/gs_link_server.cpp:213-238 | On success sends, for each database line in order, a record frame with its first 127 bytes, then the end frame; nothing for a payload of the wrong size. A failing socket leaves a proper prefix of that, and only a failing one. |
| Query.HandleClient | CentralComputer/src/gsLink/gs_link_server.cpp:174-242 | For any chunks: nothing until the first query frame, then the answer to it, or nothing if its payload has the wrong size; later bytes do not matter, and a failing socket cuts the answer short. |
| QueryTheorems.FirstQueryAnswered | CentralComputer/src/gsLink/gs_link_server.cpp:199-239 | In a session of any frames the first with tag 0x50 or 0x51 is answered, from its twelve bytes in order, and nothing else; with any other payload size nothing is sent. |
| Query.QueryServer | GroundStation/src/communication/central_computer.cpp:61-120 | Malformed dates, a connection that cannot be made and a request that cannot be written give their notices; otherwise the lines shown are those of polling the network. |
| Query.PollLoop | GroundStation/src/communication/central_computer.cpp:88-119 | The loop ends within 50 reads and shows what the polling function says. |
| QueryTheorems.ReplyOutcome | GroundStation/src/communication/central_computer.cpp:88-119 | Over a network that cuts, delays or breaks off a reply anywhere: the full answer if all of it came before a failed read or the 50th; otherwise the records received whole, with the notice for a broken connection, a failed one or no reply. |
| QueryTheorems.ForeignFrameIgnored | GroundStation/src/communication/central_computer.cpp:98-106 | Frames with other tags change neither the lines shown nor whether the client goes on. |
| QueryTheorems.ReplyShown | GroundStation/src/communication/central_computer.cpp:94-119 | A reply that arrives whole within 50 reads, timeouts counted, is shown line by line, each line's first 127 bytes, however cut; an empty one as the single no-records line. |
| QueryTheorems.FullAnswerIffShort | GroundStation/src/communication/central_computer.cpp:88-97 | Some way of cutting it lets a reply arrive whole if and only if it is at most 12800 bytes long. |
| QueryTheorems.RequestCarriesStamps | GroundStation/src/communication/central_computer.cpp:63-75 | For printed timestamps the request carries the start's year, month, date, hour, minute and second, then the end's. |
| QueryTheorems.ServerSearchesWhatWasAsked | CentralComputer/src/gsLink/gs_link_server.cpp:199-239 | For any chunking of the request, the server searches the very strings the client was given. |
| QueryTheorems.QueryEndToEnd | GroundStation/src/communication/central_computer.cpp:61-120 | The whole exchange shows exactly the first 127 bytes of each of the database's lines for the timestamps asked, in order. |
| MeasurementLog.Log.LogWrite | LNC/Core/Src/log.c:64-89 | Appends to the day's file, first emptying it when the slot differs from the last one written; other files do not change. |
| MeasurementLog.SlotOfWeekday | LNC/Core/Src/log.c:46-61 | Sunday's lines are in file 1, Monday's in file 2, and so on to Saturday's in file 7. |
| MeasurementLog.Log.LogOnFrame | LNC/Core/Src/log.c:167-196 | Ignores requests of the wrong size. From files the log wrote, for a range that neither skips nor overruns, offers exactly the lines of files 1 to 7 whose six fields lie between the request's first and last six bytes, in order. |
| MeasurementLog.QueryIsTextRange | LNC/Core/Src/log.c:152-165 | On lines the log wrote, the query selects exactly those whose printed timestamp lies in the printed range. |
| MeasurementLog.QueryAnswersIff | LNC/Core/Src/log.c:152-193 | For a request of any bytes: the query selects exactly the lines whose fields are in range, whatever the files hold, if and only if the start leaves out no time just after it (it is orderly, or rounds up exactly, or its range ends first) and the end takes in none after it (it is orderly, or its key lies before the start's, or no two-digit time reaches the start). |
| MeasurementLog.RequestSelects | LNC/Core/Src/log.c:175-193 | The same of the specification of the search, from the request's twelve bytes. |
| MeasurementLog.FilesAreKeptWrites | LNC/Core/Src/log.c:64-89 | After any history at all each file is exactly the writes of its slot since the slot's last restart, in order. |
| MeasurementLog.RecentDaysAreKept | LNC/Core/Src/log.c:64-89 | If dates do not go back, the lines a file holds of any day under a week old are exactly those written that day since the last boot with a later write on it, in order. |
| MeasurementLog.RecentLineLostOnlyByReboot | LNC/Core/Src/log.c:28-33 | If dates do not go back, a line under seven days old is in its file if and only if, since some time it was written, the LNC has not rebooted and then written again on that line's day. |
| MeasurementLog.SevenDaysRetained | LNC/Core/Src/log.c:64-89 | If dates do not go back and no reboot has followed, every line of the last seven days is in its file, whatever the gaps. |
| MeasurementLog.OneDayPerFileIff | LNC/Core/Src/log.c:74-82 | For every history: all through it no file mixes calendar days if and only if no write comes a non-zero whole number of weeks from the day of the write just before it, with no boot between. |
| MeasurementLog.ShortGapsKeepDaysApart | LNC/Core/Src/log.c:74-82 | Dates that do not go back and gaps under a week are enough for that. |
| MeasurementLog.ExactlySevenDays | LNC/Core/Src/log.c:64-89 | If dates do not go back and there is a write on each of the last seven days, the files hold lines of those days only, if and only if some write of the oldest of them restarted its file. |
| MeasurementLog.SevenDaysWithoutCollision | LNC/Core/Src/log.c:64-89 | It is enough that no write of that oldest day collides with the write just before it. |
| MeasurementLog.GapOfAWeekMixesDays | LNC/Core/Src/log.c:74-82 | After exactly a week of silence the old file is appended to. |
| Config.FlashWriteBytes | LNC/Core/Src/config.c:59-78 | Programs exactly the bytes, the last double-word padded with 0xFF, up to the first failure; nothing else changes. |
| Config.GatherDword | LNC/Core/Src/config.c:62-70 | The inner loop collects the next double-word of that padded image. |
| Config.ProgrammedBytes | LNC/Core/Src/config.c:59-78 | Byte by byte at any address: the data, 0xFF up to a whole double-word, and everything else as it was. |
| Config.Configuration.Save | LNC/Core/Src/config.c:80-106 | Erases and writes magic and limits; the page afterwards, for any failure. |
| Config.Configuration.OnFrame | LNC/Core/Src/config.c:170-273 | Each command changes its own fields, only with a payload of the right size, and saves; GET_CONFIG answers and changes nothing. |
| Config.ChangedIff | LNC/Core/Src/config.c:190-249 | Limits change if and only if the tag is one of the eight SET tags and the payload has just its size. |
| Config.TemperaturesTaken | LNC/Core/Src/config.c:191-207 | A temperature range is taken as two's complement bytes, minimum first, even out of order, and changes no other limit. |
| Config.LimitsLayout | LNC/Core/Src/config.c:251-262 | Saved and sent limits: four temperatures least significant byte first, then the six bounds. |
| Config.BootLimits | LNC/Core/Src/config.c:108-121 | A page without the magic number boots with the ten default limits, one with it with what it holds. |
| Config.LoadInvertsSave | LNC/Core/Src/config.c:80-121 | With working flash, loading after saving returns the limits, and the rest of the page is erased. |
| Config.RebootRestoresLimits | LNC/Core/Src/config.c:164-285 | After any commands and reboots, with working flash, a reboot restores exactly the limits in RAM. |
| Config.InterruptedSave | LNC/Core/Src/config.c:97-115 | A save that stops early is not loaded, or loaded with all-ones fields, depending on the double-words written. |
| Config.LoadIsHeld | LNC/Core/Src/config.c:80-121 | After any commands and reboots, each save failing in its own way, what loads from the page is the outcome of the last save that erased it: the limits, the limits with missing fields, or none. |
| Config.RebootRestoresIff | LNC/Core/Src/config.c:80-121 | Then a reboot restores the limits in RAM if and only if flash holds them, or holds none and they are the defaults. |
| RemoteConfig.ManagementCommand.Issue | CentralComputer/src/managementCommand/management_command.cpp:15-99 | An order that passes its check becomes one frame; one that fails sends nothing. |
| RemoteConfig.ManagementCommand.OnConfigReply | CentralComputer/src/managementCommand/management_command.cpp:131-150 | A reply of the right length replaces the cache and ends the wait; any other changes nothing. |
| RemoteConfig.CachedIff | CentralComputer/src/managementCommand/management_command.cpp:131-145 | Only a 14-byte reply is cached, each field from its own place, temperatures cut to their low byte. |
| RemoteConfig.OrdersAccepted | CentralComputer/src/managementCommand/management_command.cpp:15-39 | An order goes out if and only if its range is in order or its bound at most 100. |
| RemoteConfig.OrderSetsItsLimits | CentralComputer/src/managementCommand/management_command.cpp:41-79 | Once the LNC has taken the frame, exactly the limits the order names have the values it gives, and no other has changed. |
| RemoteConfig.NarrowingIsLossless | CentralComputer/src/managementCommand/management_command.cpp:135-145 | For limits within the operator's checks, narrowing the 16-bit reply loses nothing. |
| RemoteConfig.RunKeepsInv | LNC/Core/Src/config.c:190-266 | Limits sane and equal to the flash, only checked orders and true replies under way, over every run of orders, losses and reboots. |
| RemoteConfig.ThresholdsAgree | CentralComputer/src/managementCommand/management_command.cpp:131-145 | From first-boot flash, after any run, the limits pass the operator's checks and the cache is in full what the LNC's limits were when it answered some GET_CONFIG of that run. |
| RemoteConfig.AskShowsCurrentLimits | CentralComputer/src/managementCommand/management_command.cpp:87-99 | Asking over a quiet link that loses nothing shows the limits as they are. |
| RemoteConfig.WaitEndsWithOwnReplyIff | CentralComputer/src/managementCommand/management_command.cpp:87-99 | After any run, that a call of get_config can only stop waiting on the answer to that very call, and then shows it, holds for every continuation if and only if no earlier request and no reply is still under way. |
| RemoteConfig.PatientCallerGetsOwnReply | CentralComputer/src/managementCommand/management_command.cpp:87-99 | It holds whenever every call of get_config, this one included, is made with no wait pending, which the Central Computer can see. |
| Fleet.CombatSubmarine.AssignMission | GroundStation/src/fleet/combat_submarine.cpp:31-37 | Succeeds exactly for a free submarine and valid details; only this submarine changes. |
| Fleet.CombatSubmarine.EndMission | GroundStation/src/fleet/combat_submarine.cpp:39-55 | The whole fleet afterwards: this submarine archived and without links, every peer without this one in its list and otherwise in order, nothing else touched. |
| Fleet.CombatSubmarine.LinkSubmarine | GroundStation/src/fleet/combat_submarine.cpp:57-63 | Adds each to the other's list, or refuses and changes nothing. |
| Fleet.CombatSubmarine.IsLinkedTo | GroundStation/src/fleet/combat_submarine.cpp:65-68 | The search finds exactly the listed peers. |
| Fleet.CombatSubmarine.SendMessage | GroundStation/src/fleet/combat_submarine.cpp:70-75 | Delivers to a listed peer's inbox and nowhere else, or refuses. |
| Fleet.EndUnlinks | GroundStation/src/fleet/combat_submarine.cpp:48-52 | A mission's end removes the links at that submarine, from both ends, and no other. |
| Fleet.EndFiles | GroundStation/src/fleet/combat_submarine.cpp:39-46 | A successful end leaves the submarine free, without mission and links, its mission last in its history, its inbox as it was, and nobody else's mission, history or inbox changed. |
| Fleet.WithoutTakesOut | GroundStation/src/fleet/combat_submarine.cpp:48-51 | Taking a peer out of a list leaves the rest in order. |
| Fleet.LinkAppends | GroundStation/src/fleet/combat_submarine.cpp:57-63 | A link puts each last in the other's list and changes nothing else. |
| Fleet.RunKeepsValid | GroundStation/src/fleet/combat_submarine.cpp:31-75 | Over any calls links stay mutual, irreflexive, unrepeated and inside the fleet, and a submarine is busy exactly when it has a mission. |
| Fleet.LinkedIffJoinedSince | GroundStation/src/fleet/combat_submarine.cpp:39-63 | After any calls two submarines are linked if and only if some call joined them and neither has ended a mission since. |
| Fleet.DeliveredIffJoined | GroundStation/src/fleet/combat_submarine.cpp:70-75 | An inbox is exactly the messages sent by submarines joined to it when they sent them, in order. |
| Fleet.MissionsAreKept | GroundStation/src/fleet/combat_submarine.cpp:31-46 | Past missions and the current one are exactly the missions successfully assigned, in order. |
| Fleet.BusyIffAssignedSince | GroundStation/src/fleet/combat_submarine.cpp:31-46 | From a free start, a submarine is busy if and only if some call assigned it an acceptable mission and no call since was to end it. |
| Fleet.MissionsFollowCalls | GroundStation/src/fleet/combat_submarine.cpp:31-46 | Its current mission and its history are what the calls alone tell: the first acceptable one since the last end, and those it was on when told to end. |
| Fleet.LinkOutlivesRefusedEnd | GroundStation/src/fleet/combat_submarine.cpp:57-63 | A submarine without a mission can be linked, and its own end leaves the link in place. |
| Fleet.LinkedStayBusyIff | GroundStation/src/fleet/combat_submarine.cpp:57-63 | If everyone linked is on a mission, a call keeps that true if and only if it is not a successful link of a submarine without one. |
| Fleet.AlwaysBusyIff | GroundStation/src/fleet/combat_submarine.h:53-56 | All through a run everyone linked is on a mission if and only if no call of the run is such a link. |
| Buzzer.BuzzerHandle.OnPeriod | LNC/Core/Src/buzzer.c:137-175 | One timer period moves the handle as specified in every pattern, including the switch of note and the gap. |
| Buzzer.OperationsKeepTuned | LNC/Core/Src/buzzer.c:104-175 | At most one pattern is on, the tone is that of the flag that is set, and with neither the timer stands still. |
| Buzzer.HeardIffActive | LNC/Core/Src/buzzer.c:115-135 | Then the siren is heard exactly while its flag is set, and the ping or its gap while the other is. |
| Buzzer.SirenRhythm | LNC/Core/Src/buzzer.c:137-162 | After any number of periods the siren is where a cycle of 133 periods of A1 and 198 of E2 says: each note lasts its 300 ms and less than one period more. |
| Buzzer.SonarRhythm | LNC/Core/Src/buzzer.c:163-170 | Likewise the ping: 79 periods of C2, then 445 of silence. |
| Buzzer.SingleNote | LNC/Core/Src/buzzer.c:94-102 | A single note cancels both patterns, sounds until its duration has passed, at least one period, and then stops. |
| Alarm.MoreIsNeverWorse | LNC/Core/Src/monitor.c:114-146 | More humidity, light or battery never gives a worse mode, whatever the limits. |
| Alarm.ModeByReadings | LNC/Core/Src/monitor.c:101-146 | ERROR if and only if some reading is outside both its normal and its warning limits, NORMAL if and only if all are within their normal ones, never UNKNOWN. |
| Alarm.Event.OnModeChanged | LNC/Core/Src/event.c:179-212 | A mode change sets lamp, alarm, essential-only flag, report and buzzer as specified. |
| Alarm.Event.OnPressed | LNC/Core/Src/event.c:264-268 | A press ends alarm and ping if active, and leaves the sonar light. |
| Alarm.Monitor.DoRound | LNC/Core/Src/monitor.c:202-250 | One round: last good climate kept if the sensor fails, mode classified, Event told only of a change. |
| Alarm.AlwaysConsistent | LNC/Core/Src/event.c:95-129 | After every handler of every run: essential-only exactly in ERROR, alarm only in ERROR, lamp off, green, yellow or red with the mode, at most one sound pattern, and none whose flag Event has cleared. |
| Alarm.ModeChangesChain | LNC/Core/Src/monitor.c:237-239 | The changes reported form one chain from UNKNOWN to the present mode, each to a different mode. |
| Alarm.ReportsAreDue | LNC/Core/Src/event.c:179-236 | Over any run the reports are, in order, each change of mode with its readings and each object event, and nothing else. |
| Alarm.ModeIsLastMode | LNC/Core/Src/monitor.c:202-246 | The mode is the classification of the last round, with the last climate that could be read. |
| Alarm.FlagsMean | LNC/Core/Src/event.c:179-268 | Each of Event's, the buzzer's and the light's flags holds if and only if a named event has happened and none of those that end it since. |
| Alarm.SirenHeardIff | LNC/Core/Src/buzzer.c:115-135 | The siren is heard exactly when ERROR was entered and since then there was no press, object event or round out of ERROR. |
| Alarm.ObjectSilencesSiren | LNC/Core/Src/event.c:218-236 | Every object event during an alarm silences the siren though the alarm stays active, and after it clears there is no sound at all. |

## Left out

- KeyOrder.RangeJudgedIff: "only if" is over every two-digit time, minute 60 and month 0 included; a range that only misjudges times no clock shows counts as misjudged. The same holds for `MeasurementLog.QueryAnswersIff`.
- Null arguments: preconditions of the C functions, and the receiver's unreachable default branch.
- Frame.TlvDecode: the value is returned as a copy; that the C code points into the caller's buffer (and the receiver's frame into its own) is not captured.
- Frame.DamagedLength: what the streaming receiver makes of the bytes after a wrong length is not stated.
- Parsing of numbers beyond the range of a C `int`, where `sscanf` promises nothing.
- Query.HandleClient: the server's stop flag and receive timeouts; the database is the parameter `find`, and which lines it returns is not part of this model.
- Query.QueryServer: how sockets connect, time out and fail; a read is a chunk, possibly empty, or a failure, and a write takes some bytes or fails.
- Timestamps.ParseInvertsFormat: for fields outside the calendar (month 13 and the like) the C++ standard does not say what `put_time` prints; the model prints their digits.
- ObjectDetection.EventsAlternate: setting the presence flag and raising its event are one step.
- MeasurementLog.Log.LogWrite: file operations succeed and the clock's weekday belongs to its date; retention needs dates that do not go back, and a history begins with an empty card.
- MeasurementLog.Log.LogOnFrame: states which records are offered to the transmit queue, not that all of them are sent, because the low-priority queue may be full and the code ignores that.
- Config.Configuration.Save: an erase that fails leaves the page as it was, and one that succeeds is complete, with programming stopping between double-words; locks around the limits make each command one step.
- RemoteConfig.ThresholdsAgree: the link keeps the order of the frames it does not lose; damaged frames count as lost. Time and query commands and the Central Computer's log are not part of it; a wait that times out is one after which get_config is called again.
- Scheduler.Communication.TxRound: the bytes on the wire; a surplus wake-up transmits the previous contents of a local variable, which the model gives as no item.
- The LNC's receive task and frame routing, keep-alive timing, watchdog and start-up.
- Alarm.Event.OnModeChanged: the events file and its query (the same search as the measurement log's), the payload layout of the reports, and failures of the transmit queue.
- Handlers that interrupt one another: in `Alarm` each handler is one step, though a button interrupt can fall inside a task's handler.
- The button's debouncing, melodies, the fading of the sonar light, and the timer's count within one period.
- Conversion of raw sensor readings, and register-level drivers.
- Fleet.CombatSubmarine.AssignMission: renaming a submarine or editing a mission in place, research submarines, menus and descriptions.
- Lifetime of submarines: the fleet manager never removes one, so a listed peer always exists.
