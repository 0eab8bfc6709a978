# Formal model of the adapter framework's hard parts

This project models six parts of the adapter repository in Dafny and proves what they promise, over every input, every
run and every way of cutting a byte stream into reads.

| part | files | what is modelled |
|---|---|---|
| Condition mark-and-sweep | `ConditionSpec`, `Condition`, `ConditionSync`, `ConditionDelta`, `Adapter` | the list of active alarms with its growing array, the adapter's scan over all its data items, and a client that replays only the lines it is sent |
| Modbus | `ModbusSpec`, `ModbusBits`, `ModbusCalls`, `ModbusTheorems`, `ModbusWire`, `ModbusLine`, `ModbusSlave`, `ModbusServe`, `ModbusClient`, `ModbusMaster` | client and slave of the library over TCP, end to end; the receiver for TCP and RTU |
| Modbus CRC | `Crc` | the two-table CRC, its check, and the bit-by-bit CRC of the Ruby master |
| minIni | `IniSpec`, `IniLines`, `IniMap`, `IniList`, `IniText`, `IniReading`, `IniPlace`, `MinIni`, `MinIniPuts`, `IniLong` | the line-oriented parser, the rewriting of a file, listing by number, and numbers |
| XBee frames | `XBeeSpec`, `XBeeProof`, `XBeeTheorems`, `XBeeLosses`, `XBeeWire`, `XBee` | the escaping encoder and the resumable parser |
| MurmurHash3_x86_32 | `Bitwise`, `Murmur`, `MurmurValues` | the hash of the RFID change detector, with the C operators on words |

Every part is built in the same three layers. A specification says on values what one operation does, with the same
branches and limits as the code. Classes and methods do it the way the code does, in place on arrays, buffers and
fields, with the code's loops, and their contracts equate the new state with the specification's. Theorems about the
specification then say what a user relies on: that a replica never drifts, that a client call is an operation on the
slave's arrays, that a file is a map, that a stream comes back as the packets sent.

`ConditionDelta`, `ModbusWire`, `MurmurValues`, `IniReading`, `IniPlace` and `XBeeWire` tie the specification to what
can be seen from outside: bytes, numbers, characters and places written out, without the specification's own names for
them.

## How to read the results

**Condition.** `View` is the adapter's own picture of a list, `Replay` the picture of a client that was only sent lines:
an uncoded NORMAL or UNAVAILABLE clears everything, a coded NORMAL drops one code, WARNING and FAULT set one. `Shape` is
the invariant of every reachable list (`RunShape`), `Synced` says that the two pictures are equal with nothing left to
send, and `Tracks` is what holds in the middle of a scan. One call can lose an unsent clear
(src/condition.cpp:195-200): it empties a list that has shrunk to one cleared entry. An alarm is forgotten
(`ForgottenBy`) if some call does so while the client shows it and from then on no call tells of it. `ScanExact` says
that a scan with any calls in any order leaves the client right if and only if none is forgotten or nothing is asserted
in the end, `RunExact` says the same of any run, and `ClearThenAlarm` is the smallest scan that goes wrong.

**Modbus.** `Plain` is a client call as an operation on four arrays. `Transact` is the same call over the wire: the query
is built, received, served, answered, received and judged, whatever the buffers on both sides held before.
`TransactExactly` says that they are equal if and only if the call is `Faithful`. The two exceptions are real: a cell
above 1 spills into its neighbours when bits are packed (modbus/modbus_lib.c:782-793), and a read of nothing outside the
table is answered by a refusal as long as the reply that was expected (modbus/modbus_lib.c:664-719). The methods of
`ModbusMaster.Master` and `ModbusMaster.Slave` are proved to do what `Transact` says, through a `Line` whose reads
return any number of bytes.

**minIni.** A file is seen as its trimmed non-blank lines. `Pieces` is how a text is read: up to a line end, or 511
characters at a time. `Content` is what the code makes of the pieces, so that a line longer than the buffer is several
lines to the model as it is to the code, and what is written, whatever it is, becomes the lines that will be read of it.
`Editable` is the condition under which an edit finds the entry a lookup finds: no blank in front of the separator. The
code compares the raw width when it writes (minIni_07/minIni.c:444) and the trimmed one when it reads
(minIni_07/minIni.c:164). `PutGetAny` puts all conditions together under which a value that is put is found.

**XBee.** `Session` is any mixture of arrivals and calls of `readPacket`. The parser can be cut at any byte if the port
knows whether bytes are waiting (`Polled`). In this repository `Serial::available` only says whether the port is open
(src/serial.hpp:79), so an escape byte that ends a read is a time-out (`Connected`); `ConnectedExactly` says exactly
which cuts survive, and `LineExplained` what is reported wherever the cuts fall. A frame may also be given up for
another. The start byte of the other is then spent on the report, so that frame is always lost (c1/XBee.cpp:766-769),
and the checksum total of the first stays behind, since nothing resets it (c1/XBee.cpp:660-664): it is the frame after
both that comes through exactly if the total is 0 (`AbortedFrame`, and `TimedOutFrame` for a time-out).

**Where code and other documents differ.** test/condition_test.cpp calls `append` in a begun cycle without `prepare`;
the code writes nothing then (src/condition.cpp:117-156), and the model follows the code. The comment of
`modbus_receive` says that the checksum is checked (modbus/modbus_lib.c:651); for a complete message the code drops the
result (modbus/modbus_lib.c:642-644), so only `check_crc16` itself is modelled.

## Model

| member | source | states |
|---|---|---|
| Condition.ActiveCondition.SetValue | src/condition.cpp:289-319 | if one of the five fields differs the entry takes all of them, cut to 511 characters, and is flagged as changed, and otherwise it keeps its flag; it becomes a placeholder on an uncoded clear and never stops being one |
| Condition.Condition.constructor | src/condition.cpp:8-16 | a new condition holds one UNAVAILABLE placeholder, marked and changed, outside a cycle |
| Condition.Condition.Push | src/condition.cpp:244-256 | an entry goes behind the others, whether the array has room or has to be doubled |
| Condition.Condition.RemoveAt | src/condition.cpp:258-269 | the entry leaves the array, later ones move up by one, and an index outside changes nothing |
| Condition.Condition.IsActive | src/condition.cpp:158-166 | true exactly if some entry has the code |
| Condition.Condition.AddReport | src/condition.cpp:168-223 | the whole new list and flags of an assertion: a lone placeholder, an updated entry or one more, each marked |
| Condition.Condition.Remove | src/condition.cpp:225-242 | the entry turns into an unmarked NORMAL, or the last one into the uncoded NORMAL placeholder |
| Condition.Condition.Begin | src/condition.cpp:46-56 | every mark is cleared, unless the condition is simple, and a cycle begins |
| Condition.Condition.Prepare | src/condition.cpp:84-115 | if nothing was asserted the datum turns NORMAL; unmarked entries turn NORMAL and are flagged |
| Condition.Condition.Append | src/condition.cpp:117-156 | in a prepared cycle exactly the changed entries are written, last first, and stale ones are dropped; outside a cycle every entry is written |
| Condition.Condition.WriteChanged | src/condition.cpp:141-152 | the backward loop that removes entries as it goes writes every changed entry once and leaves those still marked |
| Adapter.Adapter.AddDatum | src/adapter.cpp:65-78 | one more data item, the others as they were |
| Adapter.Adapter.GatherDeviceData | src/adapter.cpp:250 | any calls on any data items: each item sees just its own calls, in order |
| Adapter.Adapter.SendDatum | src/adapter.cpp:323-331 | the lines of one data item, and only that item changes |
| Adapter.Adapter.SendChangedData | src/adapter.cpp:369-378 | exactly the changed data items are sent, each with its own lines |
| Adapter.Adapter.Scan | src/adapter.cpp:248-254 | one turn of the server loop is, for every data item, one scan of the specification with the calls on that item, and keeps its list in shape |
| Adapter.Adapter.SendInitialData | src/adapter.cpp:347-367 | a new client is sent every entry of every data item, outside a cycle |
| Adapter.Build | src/adapter.cpp:65-78 | an adapter with any number of new conditions, each as constructed, in shape and outside a scan |
| Adapter.Serve | src/adapter.cpp:227-266 | a client that connects and follows any number of scans with any calls on any data items: for each item the list and the replay of all lines sent are those of the specification, and they agree if no scan forgets an alarm |
| Adapter.ServeNew | src/adapter.cpp:227-266 | the same from the start, for an adapter with new conditions |
| Adapter.ServedExactly | src/adapter.cpp:227-266 | the client of a new connection agrees after the first sending and after every scan if and only if no scan forgets an alarm |
| Adapter.NewIsUnavailable | src/condition.cpp:8-16 | a client that connects before anything was gathered is told one UNAVAILABLE without a code |
| Adapter.DisciplinedForgetNothing | src/adapter.cpp:227-266 | scans that assert alarms first and clear at most at the end forget none |
| ConditionSync.RunShape | src/adapter.cpp:234-262 | after any number of scans with any calls, sweep and removal included, a list is not empty, has distinct codes, and holds a placeholder only alone; no change flag is left |
| ConditionSync.GatherShape | src/condition.cpp:168-269 | the same in the middle of a scan, after any calls |
| ConditionSync.StepShape | src/condition.cpp:168-242 | one call keeps that shape |
| ConditionSync.StepTracks | src/condition.cpp:168-242 | one call keeps unflagged entries known to the client, and changes the alarms that can no longer be cleared in just the way stated |
| ConditionSync.StepKeepsAllExactly | src/condition.cpp:195-200 | one call loses a clear if and only if it takes the branch that empties a lone cleared entry while the client shows another alarm |
| ConditionSync.SweepTracks | src/condition.cpp:84-115 | the sweep loses nothing the client has yet to be told |
| ConditionSync.ReplaySwept | src/condition.cpp:141-152 | replaying the changed entries gives the adapter's list if and only if no clear was lost |
| ConditionSync.FinishSync | src/condition.cpp:84-156 | the end of a scan puts the client in step if and only if no clear was lost or nothing is asserted |
| ConditionSync.LostIsForgotten | src/condition.cpp:168-242 | after any calls the alarms that can no longer be cleared are exactly those that a call dropped and no later call told of |
| ConditionSync.ScanExact | src/adapter.cpp:248-254 | one scan with any calls in any order leaves the client right if and only if no alarm it shows is forgotten, or nothing is asserted in the end |
| ConditionSync.ScanSync | src/adapter.cpp:248-254 | in particular if no call throws an unsent clear away |
| ConditionSync.RunExact | src/adapter.cpp:234-262 | over any number of scans with any calls the client is in step throughout if and only if every scan keeps it so |
| ConditionSync.RunSync | src/adapter.cpp:234-262 | in particular if no call of any scan throws an unsent clear away |
| ConditionSync.PlainScanExact | src/condition.cpp:168-223 | for alarms and whole-datum clears the condition can be read off the calls alone: no alarm the client shows was cleared and then passed over by a later alarm |
| ConditionSync.DisciplinedRun | src/adapter.cpp:234-262 | any number of scans that assert alarms first and clear at most at the end keep the client in step |
| ConditionSync.ScanHoldsAsserted | src/condition.cpp:84-156 | a scan of alarms leaves exactly the codes asserted, with the values asserted last |
| ConditionSync.ScanOfNothing | src/condition.cpp:84-105 | a scan that asserts nothing leaves a lone placeholder, UNAVAILABLE only if it was so |
| ConditionSync.ScanEndingClear | src/condition.cpp:173-189 | a scan that ends with a whole-datum clear leaves the lone placeholder of that level |
| ConditionSync.FirstContact | src/adapter.cpp:347-367 | a client that knows nothing is in step once every entry is written |
| ConditionSync.ClearThenAlarm | src/condition.cpp:195-200 | clearing everything and then raising another alarm in one scan leaves the client with the old alarm |
| ConditionSync.RepeatKeepsDistinct | src/condition.cpp:202-219 | an alarm asserted twice stays one entry if and only if its code is shorter than the buffer |
| ConditionSync.SweptUncodedScan | src/condition.cpp:84-156 | an alarm with an empty code that is not asserted again is swept into a clear of everything; the client ends up right if and only if every other alarm is written again after it |
| ConditionSync.UncodedAlarmSwept | src/condition.cpp:103-107 | two scans that end so: the client shows nothing, the adapter still holds an alarm |
| ConditionDelta.ScanTellsExactly | src/condition.cpp:84-156 | a scan of alarms, for a client in step, writes exactly what the client has to be told: a line for each code whose reports are not all the one it shows, a NORMAL for each code it shows that is not asserted, nothing else, and one line at most for a code |
| ConditionDelta.RepeatedIsSilent | src/condition.cpp:295-318 | a code under which a scan only asserts what the client shows already has no line |
| ConditionDelta.SilentScan | src/adapter.cpp:369-378 | a scan that asserts all that a client in step shows and nothing else, in any order and any number of times, whole-datum clears included, writes nothing and leaves the values of the list |
| ConditionDelta.ScanAlarmsOnly | src/condition.cpp:141-152 | a scan that sends something leaves alarms or a lone placeholder only, so that the next scan can be judged so |
| ConditionDelta.FlagAfter | src/condition.cpp:168-242 | the change flag of the condition after one call: an update sets it to the entry's own, even if another entry has changed before |
| ConditionDelta.SameValue | src/condition.cpp:289-319 | an update with the values held changes none of them and raises no flag, one with another value raises it |
| ConditionDelta.Kept | src/device_datum.hpp:48-48 | texts are kept up to 511 characters and cut behind them |
| ConditionDelta.OutsideScan | src/condition.cpp:117-132 | outside a scan nothing is swept and every entry is written, in order |
| ConditionDelta.Unprepared | src/condition.cpp:46-56 | a scan begins unprepared, and until it is prepared nothing is written |
| Crc.MasterCrc | modbus/master.rb:103-114 | the bit-by-bit loop computes the register of the reference CRC |
| Crc.Crc16 | modbus/modbus_lib.c:322-336 | the two-table CRC is the bit-by-bit CRC of the same message with its bytes swapped |
| Crc.TableStep | modbus/modbus_lib.c:88-145 | one table step is eight shifts of the polynomial 0xA001, for every byte and every register |
| Crc.SendRtu | modbus/modbus_lib.c:366-376 | the library sends the message with the bit-by-bit CRC behind it, low byte of the register first, and changes nothing else of the buffer |
| Crc.MasterTx | modbus/master.rb:120-125 | the Ruby master puts the same two bytes behind the same message |
| Crc.CheckCrc16 | modbus/modbus_lib.c:339-363 | the check succeeds exactly if the register over the whole frame, checksum included, ends at zero |
| Crc.FrameIsValid | modbus/modbus_lib.c:373-376 | every frame that is sent passes the check |
| Crc.KnownFrame | modbus/modbus_lib.c:366-376 | behind 01 03 00 00 00 01 go the bytes 84 0A |
| Crc.FeedLinear | modbus/modbus_lib.c:322-336 | the register after a damaged frame is the register after the frame, xor-ed with that of the damage alone |
| Crc.UndetectedExactly | modbus/modbus_lib.c:339-363 | a damaged frame passes if and only if the damage alone, from a cleared register, ends at zero |
| Crc.BurstDetected | modbus/modbus_lib.c:339-363 | damage inside any 16 consecutive bits of a frame of any length is detected |
| Crc.TwoBytesDetected | modbus/modbus_lib.c:339-363 | damage to two neighbouring bytes, checksum included, is detected |
| Crc.OddDamageDetected | modbus/modbus_lib.c:339-363 | damage to an odd number of bits anywhere is detected |
| Murmur.FMix | balluff/MurmurHash3.cpp:68-77 | the finalization of the specification, on 32-bit words |
| Murmur.MurmurHash3_x86_32 | balluff/MurmurHash3.cpp:94-145 | block loop, tail switch and finalization compute the hash of the specification for every key and seed |
| MurmurValues.TimesLaws | balluff/MurmurHash3.cpp:68-77 | the multiplication gives c for 1 and is additive modulo 2^32, which only the product is |
| MurmurValues.XorHex | balluff/MurmurHash3.cpp:68-77 | the exclusive or of two words, hexadecimal digit by digit |
| MurmurValues.RotlIs | balluff/MurmurHash3.cpp:111-121 | a rotation by r is the product with 2^r modulo 2^32 and the quotient by 2^(32-r), added |
| MurmurValues.EmptyKey | balluff/MurmurHash3.cpp:94-145 | the empty key with seed 1 has the published hash 0x514E28B7 |
| MurmurValues.OneByte | balluff/MurmurHash3.cpp:94-145 | the byte 1 with seed 0: 0xE45AD1AB |
| MurmurValues.ThreeBytes | balluff/MurmurHash3.cpp:94-145 | "aaa" with seed 0x9747B28C: 0x283E0130 |
| MurmurValues.OneBlock | balluff/MurmurHash3.cpp:94-145 | "test" with seed 0: 0xBA6BD213 |
| MurmurValues.Greeting | balluff/MurmurHash3.cpp:94-145 | "Hello, world!" with seed 0x9747B28C, three blocks and a tail: 0x24884CBA |
| MurmurValues.LengthCounts | balluff/MurmurHash3.cpp:139-141 | zero bytes added to the tail always change the hash, since the length is part of it |
| Murmur.MixBlockBack | balluff/MurmurHash3.cpp:113-119 | mixing a block is undone by the inverse multiplications and rotation, and the other way round |
| Murmur.StirBack | balluff/MurmurHash3.cpp:119-121 | so is stirring the state |
| Murmur.FinalBack | balluff/MurmurHash3.cpp:68-77 | so is the finalization |
| Murmur.SeedBijection | balluff/MurmurHash3.cpp:94-145 | for every key each hash value comes from exactly one seed |
| Murmur.BlockBijection | balluff/MurmurHash3.cpp:94-145 | at every place of every key each hash value comes from exactly one block |
| Murmur.BlockChangeDetected | balluff/balluff_adapter.cpp:239-244 | two keys that differ inside one aligned block have different hashes |
| Murmur.TailChangeDetected | balluff/balluff_adapter.cpp:239-244 | two keys that differ inside the tail bytes have different hashes |
| Murmur.FourByteBijection | balluff/MurmurHash3.cpp:94-145 | on four-byte keys the hash is a bijection onto the 32-bit words |
| XBee.XBee.SendByte | c1/XBee.cpp:1374-1385 | one byte goes out plain, or escaped if it is special and escaping is on |
| XBee.XBee.Send | c1/XBee.cpp:1330-1372 | exactly the escaped frame of the request goes out, with length and checksum |
| XBee.XBee.ResetResponse | c1/XBee.cpp:647-664 | everything is reset but the checksum total |
| XBee.XBee.TakeByte | c1/XBee.cpp:801-872 | the switch on the position, for one unescaped byte |
| XBee.XBee.ReadPacket | c1/XBee.cpp:752-873 | one call, from any state of the parser and with any bytes waiting, leaves the state and the bytes of the specification |
| XBeeProof.NoControlBytes | c1/XBee.cpp:1374-1385 | behind the start byte the encoder sends no 0x7E, 0x11 or 0x13 |
| XBeeProof.WholeFrom | c1/XBee.cpp:752-873 | from any point inside a frame, even between an escape byte and its partner, the rest of the frame completes it and no byte behind it is taken |
| XBeeProof.ReadInStep | c1/XBee.cpp:752-873 | one call anywhere in a line of frames, frames given up for another, and noise leaves the parser in step with the line and reports just what ended |
| XBeeProof.SessionInStep | c1/XBee.cpp:752-873 | any mixture of arrivals and calls reports the frames of the line in order, all of them once nothing is left; a frame given up is an UNEXPECTED_START_BYTE and leaves its checksum total to the next |
| XBeeProof.LoopJoin | c1/XBee.cpp:758-873 | reading in two parts is reading in one, if the first part ends between bytes |
| XBeeTheorems.FrameShape | c1/XBee.cpp:1330-1363 | the encoder's frame is one the parser understands if and only if it has at most 250 data bytes, and it adds up |
| XBeeTheorems.StreamDecoded | c1/XBee.cpp:752-873 | any number of requests with noise between them, cut anywhere, come back as exactly those packets in order |
| XBeeTheorems.RoundTrip | c1/XBee.cpp:752-873 | one request cut anywhere comes back with its api id, frame id and data |
| XBeeTheorems.RoundTripExactly | c1/XBee.cpp:629-631 | a request comes back as itself if and only if it has at most 250 data bytes |
| XBeeTheorems.DamagedByteRejected | c1/XBee.cpp:844-853 | a frame with one byte behind the length changed is a checksum failure, never a packet |
| XBeeLosses.AbortedFrame | c1/XBee.cpp:766-769 | a frame given up behind any of its bytes, however the line is cut: one UNEXPECTED_START_BYTE, the frame that interrupts it is lost, and a good frame after that comes through if and only if the bytes sent leave a checksum total of 0 |
| XBeeLosses.TimedOutFrame | c1/XBee.cpp:772-785 | a read that ends behind an escape byte on an always available port: one AT_NO_RESPONSE, the frame is lost, and a good frame after it comes through under the same condition |
| XBeeLosses.LineExplained | c1/XBee.cpp:752-873 | any line of frames, whole or given up for the next, with any noise; on either kind of port and wherever the reads end, the reports account for the frames in order: each is what it is with the total at which it starts, or given up, which costs the next one too, or timed out; nothing else is reported, and nothing is left out once all is read |
| XBeeLosses.SessionExplained | c1/XBee.cpp:752-873 | the same from any point of the line and of the parser |
| XBeeLosses.ReadTimesOut | c1/XBee.cpp:772-785 | a time-out inside a frame, sent to its end or given up, leaves the parser between frames with noise in front of it and the total of the bytes taken |
| XBeeLosses.GivenUpInPair | c1/XBee.cpp:766-769 | a frame given up between an escape byte and its partner: if the escape byte came with an earlier read, the start byte is seen for what it is |
| XBeeLosses.SwallowedStart | c1/XBee.cpp:772-791 | if both come with one read, the start byte is taken as the partner, and the parser goes on inside the lost frame |
| XBeeTheorems.ConnectedExactly | src/serial.hpp:79 | over a port that is always available a frame survives its cuts if and only if no chunk ends in an escape byte |
| XBeeWire.PairOf | c1/XBee.cpp:1374-1385 | 7E, 7D, 11 and 13 go out as 7D 5E, 7D 5D, 7D 31 and 7D 33 if escaping is on, every other byte as itself |
| XBeeWire.CleanBehindStart | c1/XBee.cpp:1330-1372 | behind its start byte an escaped frame holds no 7E, 11 or 13 |
| XBeeWire.FrameBytes | c1/XBee.cpp:1330-1363 | every byte of a frame before escaping: 7E, the length in two bytes, the identifiers, the data, and a byte that makes the sum 255 |
| XBeeWire.ShortFrame | c1/XBee.cpp:1330-1385 | a frame without data is 7E 00 02 23 7D 31 CB on the line |
| XBeeWire.ResponseRead | c1/XBee.cpp:801-872 | every field of the response once a request's frame was read, and no error |
| XBeeWire.ErrorNumbers | c1/XBee.h:134-139 | the errors are 1 to 4 |
| XBeeWire.StartInside | c1/XBee.cpp:766-769 | a start byte inside a frame is error 3, and the bytes behind it wait |
| XBeeWire.EscapeAlone | c1/XBee.cpp:772-785 | an escape byte with nothing behind it is error 4 on a port that is always available, and is kept for the next call on one that is polled |
| XBeeWire.NoRoom | c1/XBee.cpp:828-832 | the byte behind 255 stored ones is error 2 |
| XBeeWire.LastByte | c1/XBee.cpp:844-866 | the last byte ends the frame, with a packet if the bytes add up to 255 and with error 1 if not |
| XBeeWire.BeforeFrame | c1/XBee.cpp:801-806 | before a frame everything but a start byte is passed over |
| XBeeWire.StartsAfresh | c1/XBee.cpp:647-664 | the call after a report starts with every field cleared except the checksum total |
| ModbusCalls.TakesOneQuery | modbus/modbus_lib.c:494-648 | the receiver takes exactly one query of any function code from a stream, in TCP and in RTU, and no byte of the next |
| ModbusCalls.TakesAllQueries | modbus/modbus_lib.c:494-648 | any number of queries in a row are taken apart at their borders |
| ModbusLine.Line.Get | modbus/modbus_lib.c:548-571 | a read returns any number of bytes from one to the number asked for, as they are in the stream |
| ModbusLine.ReceiveMsg | modbus/modbus_lib.c:494-648 | however the stream is cut into reads, the bytes stored, the length, the result and what is left on the line are those of the specification; no byte beyond the buffer is written and it terminates |
| ModbusLine.Round | modbus/modbus_lib.c:548-637 | one turn of the loop keeps the bytes received plus the bytes to read equal to the length computed, with at most 256 for a query |
| ModbusLine.Advance | modbus/modbus_lib.c:598-620 | the state machine asks for exactly the bytes the message so far says are missing |
| ModbusBits.PackedBit | modbus/modbus_lib.c:775-798 | a packed bit is set exactly if some cell up to it in its byte has the bit that is shifted there, whatever the cells hold |
| ModbusBits.PackedCell | modbus/modbus_lib.c:775-798 | cells of 0 and 1 are packed one by one and the padding bits are 0 |
| ModbusBits.UnpackPackExactly | modbus/modbus_lib.c:1044-1057 | unpacked cells are the packed ones, for every count, if and only if none is above 1 |
| ModbusBits.PackUnpack | modbus/modbus_lib.c:2067-2079 | the slave's cells packed again are the client's bytes with the padding cleared |
| ModbusBits.UnpackPackWords | modbus/modbus_lib.c:1135-1139 | registers come back from their bytes |
| ModbusSlave.ResponseIoStatus | modbus/modbus_lib.c:775-798 | the bytes of the reply hold the packed cells, and nothing else of the buffer changes |
| ModbusSlave.ResponseRegisters | modbus/modbus_lib.c:888-891 | the bytes of the reply hold the registers, high byte first, and nothing else changes |
| ModbusSlave.SetBitsFromBytes | modbus/modbus_lib.c:2067-2079 | exactly the addressed cells take the bits of the query |
| ModbusSlave.SetRegistersFromBytes | modbus/modbus_lib.c:981-986 | exactly the addressed registers take the words of the query |
| ModbusServe.SetMessageLengthTcp | modbus/modbus_lib.c:312-319 | the length field, and nothing else |
| ModbusServe.ModbusSend | modbus/modbus_lib.c:378-418 | over TCP the message goes out with its length set, a length of 0 as nothing |
| ModbusServe.ResponseException | modbus/modbus_lib.c:801-813 | the reply is the nine bytes of the exception |
| ModbusServe.ForceSingleCoil | modbus/modbus_lib.c:917-939 | a coil is set only inside the table and only by 0xFF00 or 0; the reply is the echo or the exception for the case |
| ModbusServe.Dispatch | modbus/modbus_lib.c:838-999 | every function code has the effect on the four tables and the reply of the specification |
| ModbusServe.ManageQuery | modbus/modbus_lib.c:820-1002 | the same, with the reply sent |
| ModbusClient.UnpackStatus | modbus/modbus_lib.c:1044-1057 | the flags stored are the first bits of the reply, at most as many as asked for, and nothing behind them changes |
| ModbusClient.PackFlags | modbus/modbus_lib.c:1259-1277 | the bytes of the query are the flags as 0 and 1, packed |
| ModbusMaster.Slave.Turn | modbus/modbus_lib.c:1009-1017 | one turn of the server takes one query and serves it, or changes nothing if none is complete |
| ModbusMaster.ModbusReceive | modbus/modbus_lib.c:660-773 | over TCP the reply asked for is received and judged; on a silent line the judgement goes by a length that was never set, which is a parameter |
| ModbusMaster.SilentLine | modbus/modbus_lib.c:720-766 | a silent line is a time-out unless that length happens to be 9 and the reply buffer still holds an exception for the function asked for |
| ModbusMaster.Master.BuildQueryBasis | modbus/modbus_lib.c:222-257 | the twelve bytes of a query, with the next transaction id, which wraps from 65535 to 0 |
| ModbusMaster.Master.Exchange | modbus/modbus_lib.c:366-773 | a query sent, served, answered and judged leaves nothing on the line and the tables of the conversation |
| ModbusMaster.Master.ReadStatus | modbus/modbus_lib.c:1020-1101 | reading coils or inputs has the result, stores the flags and leaves the tables of the call over the wire |
| ModbusMaster.Master.ReadRegisters | modbus/modbus_lib.c:1108-1184 | the same for registers |
| ModbusMaster.Master.ForceSingleCoil | modbus/modbus_lib.c:1188-1222 | the same for one coil |
| ModbusMaster.Master.PresetSingleRegister | modbus/modbus_lib.c:1188-1234 | the same for one register |
| ModbusMaster.Master.ForceMultipleCoils | modbus/modbus_lib.c:1237-1287 | the same for several coils |
| ModbusMaster.Master.PresetMultipleRegisters | modbus/modbus_lib.c:1290-1325 | the same for several registers |
| ModbusTheorems.ReadBitsHeard | modbus/modbus_lib.c:660-773 | what a read of coils or inputs hears: the packed cells, the refusal, or 1 for a refused read of nothing |
| ModbusTheorems.SingleHeard | modbus/modbus_lib.c:917-952 | a single write over the wire sets the one cell, or is refused with ILLEGAL_DATA_ADDRESS and changes nothing |
| ModbusTheorems.MultipleHeard | modbus/modbus_lib.c:953-994 | a multiple write over the wire sets exactly its range, or is refused and changes nothing |
| ModbusTheorems.TransactExactly | modbus/modbus_lib.c:820-1325 | a client call over the wire is the operation on the slave's arrays, with the same tables, result and data, if and only if it is faithful |
| ModbusTheorems.NothingLeft | modbus/modbus_lib.c:660-773 | the client consumes each reply whole |
| ModbusTheorems.TransactTables | modbus/modbus_lib.c:820-1325 | whatever a call hears, the slave's tables afterwards are those of the array operation |
| ModbusTheorems.SessionExactly | modbus/modbus_lib.c:820-1325 | any calls in any order, inside the tables or not: the slave's tables are those of four plain arrays, and all results are the plain ones if and only if every call is faithful for the tables it finds |
| ModbusTheorems.SessionIsPlain | modbus/modbus_lib.c:820-1325 | so the slave behaves as four plain arrays if its bit cells start as 0 or 1 and reads ask for something; input tables never change and coils stay 0 or 1 |
| ModbusWire.Limits | modbus/modbus_lib.c:1067-1325 | a call is refused beforehand for more than 800 cells or 100 registers |
| ModbusWire.QueryHead | modbus/modbus_lib.c:222-257 | bytes 0 to 11 of every query: transaction, length, unit, the function code 1, 2, 3, 4, 5, 6, 15 or 16 of the kind of call, address and count, high byte first |
| ModbusWire.QueryTail | modbus/modbus_lib.c:1237-1325 | nothing follows, or the number of bytes and the data of a multiple write |
| ModbusWire.FlagOnLine | modbus/modbus_lib.c:1259-1277 | a coil to be set is one bit, eight to a byte, the first in the lowest bit, 0 behind the last |
| ModbusWire.WordOnLine | modbus/modbus_lib.c:1313-1316 | a register to be set is two bytes, the high one first |
| ModbusWire.IdIs | modbus/modbus_lib.c:233-241 | the transaction id counts up and goes from 65535 to 0 |
| ModbusWire.BitsServed | modbus/modbus_lib.c:839-874 | code 1 is answered from the coils and code 2 from the inputs, or with code + 128 and 2 |
| ModbusWire.WordsServed | modbus/modbus_lib.c:875-916 | code 3 is answered from the holding registers and code 4 from the input registers, byte by byte, or refused |
| ModbusWire.SingleServed | modbus/modbus_lib.c:917-952 | code 5 sets a coil to 1 for 0xFF00 and to 0 for 0 and refuses other values with 3, code 6 stores a register, and both are echoed |
| ModbusWire.EchoIs | modbus/modbus_lib.c:917-952 | the echo is the query with its length set |
| ModbusWire.MultipleServed | modbus/modbus_lib.c:953-994 | codes 15 and 16 set the range from byte 13 on and repeat code, address and count, or refuse with 2 |
| ModbusWire.CellsSet | modbus/modbus_lib.c:2067-2079 | the addressed coils take the bits of the data, lowest first, and all others stay |
| ModbusWire.RegistersSet | modbus/modbus_lib.c:981-986 | the addressed registers take two bytes each, and all others stay |
| ModbusWire.OthersIgnored | modbus/modbus_lib.c:838-999 | any other code changes nothing and is not answered |
| ModbusWire.ResultNumbers | modbus/modbus.h:101-125 | a call that asks for too much returns -15, one outside the table -2, any other the number of cells |
| ModbusWire.EndNumbers | modbus/modbus_lib.c:572-583 | a silent line is -12, a closed one -18, a failing one -13 |
| ModbusWire.RefusalJudged | modbus/modbus_lib.c:744-766 | a refusal is returned as the negative of its reason up to 11, and as -17 above |
| ModbusWire.ReplyJudged | modbus/modbus_lib.c:672-718 | a reply of full length is judged by the number of values in it, for every function code |
| ModbusWire.WantedLength | modbus/modbus_lib.c:171-203 | the length of the reply that is waited for, for every function code |
| ModbusWire.WholeLength | modbus/modbus_lib.c:421-455 | where a query ends: 12 bytes or 13 and the byte count over TCP, 8 or 9 and the byte count on a serial line, the function code for other codes |
| ModbusWire.TooLong | modbus/modbus_lib.c:605-614 | a query that says it is longer than 256 bytes is given up behind its byte count with -15 |
| IniLines.PutGives | minIni_07/minIni.c:333-489 | what a lookup finds after an edit: the new value if the entry is editable, and otherwise what it found before |
| IniLines.PutGetExactly | minIni_07/minIni.c:333-489 | in any file a value put is found if and only if the entry has no blank in front of its separator or has the value already |
| IniLines.PutGetNew | minIni_07/minIni.c:342-352 | in a new file a value put is found |
| IniLines.PutGetAny | minIni_07/minIni.c:333-489 | any section, any value, any file or none: what is put is found if and only if it was there already, or the section is there or has a name that can be written, the value is a good one, an edit finds the entry, and the entry is written whole |
| IniLines.NewValue | minIni_07/minIni.c:310-324 | an entry that replaces another or ends the file is read as its key with its value if and only if the value has no blanks or quotes around it, no line end, and fits |
| IniLines.InsertedValue | minIni_07/minIni.c:455-464 | in front of another header nothing is cut, and the value comes back if and only if it is a good one and the entry can be read at once: key and value have at most 510 characters |
| IniLines.SectionLost | minIni_07/minIni.c:295-308 | a section whose name holds a bracket or a line end or is too long for a header is not found after an entry was added to it |
| IniLines.PutTwice | minIni_07/minIni.c:333-489 | putting the same value again leaves the lines of any file as they are |
| IniLines.PutAgainIsNothing | minIni_07/minIni.c:358-366 | the second time the file is left alone if and only if the first time made the value one that is found |
| IniLines.EditFrame | minIni_07/minIni.c:380-481 | setting or deleting an entry leaves every other section and key of any file as it was |
| IniLines.EraseFrame | minIni_07/minIni.c:380-481 | erasing a section leaves every other section of any file as it was |
| IniLines.DeletedExactly | minIni_07/minIni.c:419-469 | in any file a deleted entry is gone if and only if the key has no second entry in the section and an edit finds the one it has |
| IniLines.EraseGives | minIni_07/minIni.c:380-454 | in any file, after a section was erased a lookup finds what a second section of that name holds, and otherwise nothing |
| IniMap.KeepsTidy | minIni_07/minIni.c:333-489 | the library's own edits keep sections and keys unique, without regard to case, and entries editable |
| IniMap.RunAgrees | minIni_07/minIni.c:118-489 | after any settings, deletions and erasures all lookups agree with the map from section and key to the last value |
| IniMap.FileIsMap | minIni_07/minIni.c:118-489 | so do they when the file did not exist at first |
| IniList.GetsIsLookup | minIni_07/minIni.c:118-192 | the search by names is the lookup |
| IniList.SectionsListed | minIni_07/minIni.c:241-255 | sections 0, 1, 2, ... are the headers in order, up to the first without a name |
| IniList.KeysListed | minIni_07/minIni.c:267-281 | keys 0, 1, 2, ... of a section are its keys in order, up to the first empty one |
| IniList.ListsWhatIsFound | minIni_07/minIni.c:154-175 | the listed keys are the keys a lookup finds if and only if no key is empty |
| IniText.PiecesJoined | minIni_07/minIni.c:380-481 | what is read of a text is what is read of its parts, if the first ends with a line end or just fills the buffer |
| IniText.ContentJoined | minIni_07/minIni.c:380-481 | so are its lines |
| IniText.CopyPiece | minIni_07/minIni.c:471-481 | what is copied without the blanks in front of it is read as the line it was |
| IniText.Stripped | minIni_07/minIni.c:154-192 | separator, key and value of a line are the same with the blanks behind it and without |
| IniReading.FoldIsSame | minIni_07/minIni.c:138-138 | two names are the same to the code if and only if they have the same length and differ in the case of the letters A to Z only |
| IniReading.NamesAlike | minIni_07/minIni.c:118-192 | every lookup by the same names gives the same |
| IniReading.LineRead | minIni_07/minIni.c:134-137 | a line of a text counts without the characters up to the space around it, and a blank one not at all |
| IniReading.EntryRead | minIni_07/minIni.c:155-190 | a key, a separator and a value with any blanks between: found with the value without its quotes by the names that are the same as the key, passed over by any other, and listed once |
| IniReading.QuotedRead | minIni_07/minIni.c:185-189 | a value in quotes is found without them |
| IniReading.ColonRead | minIni_07/minIni.c:161-162 | a colon separates key and value if there is no equals sign |
| IniReading.IgnoredRead | minIni_07/minIni.c:164-164 | a line that begins with ; or #, or has no separator, is never found and never listed |
| IniReading.HeaderRead | minIni_07/minIni.c:133-138 | a header begins its section for the names that are the same as its own, passes others over, and ends the section before it |
| IniReading.BracketRead | minIni_07/minIni.c:137-138 | a line with an opening bracket only ends a section and begins none |
| IniReading.EditSees | minIni_07/minIni.c:440-446 | an edit takes a line for the key's if all in front of the separator is the key, even in a comment |
| IniReading.LongLineRead | minIni_07/minIni.h:30-31 | of a longer line 511 characters are a line of their own |
| IniReading.WrittenSizes | minIni_07/minIni.c:295-324 | a section name is written up to 507 characters, key and value up to 508 together |
| IniReading.ExampleRead | minIni_07/test.c:21-36 | what the library's own test looks up in its file |
| IniPlace.EditPlace | minIni_07/minIni.c:419-481 | an edit of a section that is there replaces or takes out the first line of the key, or adds one as the section's last line; every other line of the file stays as it is and where it is |
| IniPlace.EditAtEnd | minIni_07/minIni.c:382-397 | a section that is not there is added at the end with its entry, behind all lines as they are |
| IniPlace.ErasePlace | minIni_07/minIni.c:400-454 | erasing takes out the first header of the section and the lines up to the next header, and nothing else |
| IniPlace.EraseNothing | minIni_07/minIni.c:380-417 | erasing a section that is not there changes nothing |
| MinIni.Reader.Read | minIni_07/minIni.c:134-134 | of any text, up to a line end or as much as the buffer holds is read, and the content is that line and the rest |
| MinIni.SkipBlanks | minIni_07/minIni.c:85-91 | the leading blanks are skipped |
| MinIni.StripBlanks | minIni_07/minIni.c:102-108 | the trailing blanks are stripped |
| MinIni.FindSection | minIni_07/minIni.c:130-150 | the reader ends behind the first header with the name or the number, or the search fails |
| MinIni.FindKey | minIni_07/minIni.c:155-175 | the first entry with the key or the number in front of the next header, or none |
| MinIni.GetKeyString | minIni_07/minIni.c:118-192 | the value, key or section name searched for, cut to the buffer |
| MinIni.Gets | minIni_07/minIni.c:201-216 | the value a lookup finds in the file, or the default if it finds none or there is no file, cut to the buffer |
| MinIni.GetSection | minIni_07/minIni.c:241-255 | the section with the number, or nothing |
| MinIni.GetKey | minIni_07/minIni.c:267-281 | the key with the number in a section, or nothing |
| MinIniPuts.WriteSection | minIni_07/minIni.c:295-308 | the content grows by what is read of the header, whatever the name; nothing is written for the part without one |
| MinIniPuts.WriteKey | minIni_07/minIni.c:310-324 | the content grows by what is read of the assignment, cut to the buffer, whatever key and value |
| MinIniPuts.CopyToSection | minIni_07/minIni.c:380-417 | lines copied and lines left add up to the changed file, whether the section is found or not |
| MinIniPuts.RewriteSection | minIni_07/minIni.c:419-469 | the same when the entry is replaced, inserted in front of a header or added at the end |
| MinIniPuts.Puts | minIni_07/minIni.c:333-489 | for any section, key and value the file afterwards is the edited one, line by line; it keeps every character if the value was there already, and it can be edited again unless a new entry longer than the buffer has such a piece as is left out below |
| IniLong.StrReverse | minIni_07/minIni.c:494-504 | the string is reversed in place, and nothing behind it changes |
| IniLong.Long2Str | minIni_07/minIni.c:506-522 | the string is the decimal number, for every long |
| IniLong.DecimalRead | minIni_07/minIni.c:226-231 | parsing a decimal number gives it back, for every long including the smallest |
| IniLong.StrtolReads | minIni_07/minIni.c:230-230 | white space, a sign, digits and anything behind them are read as the number the digits stand for, cut to a long |
| IniLong.StrtolNothing | minIni_07/minIni.c:230-230 | without digits the number is 0 |
| IniLong.DecimalIs | minIni_07/minIni.c:506-522 | the digits written stand for the number, with no zero in front |
| IniLong.Putl | minIni_07/minIni.c:532-537 | for any section and key the file afterwards has the decimal number put |
| IniLong.Getl | minIni_07/minIni.c:226-231 | the default if there is no file, no entry or an empty value, and otherwise the number in the first 63 characters of the value |
| IniLong.PutlGetlExactly | minIni_07/minIni.c:226-537 | a number put is the number got if and only if the entry is editable or gave that number already |
| IniLong.PutlGetlNew | minIni_07/minIni.c:226-537 | in a new file a number put is the number got |

## Left out

- Sockets, serial ports and timers: a connection is a sequence of bytes that is read in pieces of any size; what happens after the last byte (silence, closing, failure) is a parameter. Sending always succeeds.
- The printing of condition lines: a line is a record of level, text, code, qualifier and severity.
- Data items other than conditions, and several clients at a time: with several, `sendInitialData` clears change flags after writing to the new client only (src/adapter.cpp:347-367).
- The constructor of an active condition reads its level before it is set (src/condition.hpp:70-75, src/condition.cpp:295); the model takes the outcome in which the entry is flagged as changed, which the initializer gives in any case.
- Modbus in RTU mode on the slave side: replies to single writes are two bytes too long (modbus/modbus_lib.c:930-931, 949-950), so the end-to-end results are for TCP. The receiver is proved for both.
- ModbusServe.ModbusSend: models TCP and writing that always succeeds; the checksum and the bytes of RTU are `Crc.SendRtu`.
- ModbusMaster.ModbusReceive: models TCP; the checksum of an exception reply in RTU (modbus/modbus_lib.c:728-733) is `Crc.CheckCrc16`.
- Modbus functions 7 and 17: the receiver takes a query of these codes to end at the function code (modbus/modbus_lib.c:421-437); `TakesOneQuery` covers that, the calls do not.
- ModbusServe.Dispatch: asks for queries whose data and whose reply stay inside the 256-byte buffers; the library's own client sends no others (`ModbusCalls.QuerySuits`).
- ModbusServe.ManageQuery: asks for the same.
- ModbusMaster.Slave.Turn: asks for the same of the query that is received.
- Negative addresses and counts in the client's calls, which the library does not check: they are natural numbers here.
- ModbusMaster.Master.ReadRegisters: asks for room for one word even when nothing is read, since a refused read of nothing stores one.
- The transaction id, unit id and protocol fields of a reply, which the client does not check.
- minIni file opening, temporary names and renames: a file is a text that is replaced at once, and writing always succeeds.
- NUL characters and characters outside ASCII in INI files; the wide-character build.
- MinIniPuts.Puts: asks for a file in which no piece of 511 characters without a line end begins with a blank, unless it is the last (`Steady`); the code drops the blanks when it copies such a piece, and what follows it is then read differently. Reading has no such condition.
- IniLines.PutGetAny: is about keys of at most 508 characters without an equals sign, a line end, blanks around them, or a bracket or comment sign in front; the code takes others and cuts longer ones.
- XBee responses beyond the frame: I/O samples, addresses and the other accessors; the near copy in krishna/XBee.cpp.
- XBeeTheorems.StreamDecoded: starts from a parser whose checksum total is 0 and from frames sent to their end; `XBeeProof.SessionInStep` is the statement for any total and for frames given up.
- XBeeLosses.LineExplained: a frame is given up between two bytes; one that is given up between an escape byte and its partner is followed for one call only (`GivenUpInPair`, `SwallowedStart`).
- The 128-bit Murmur variants, which are not used here.
- The Balluff reader, its threads, and its stream splitting; Fanuc, EMC, OPC and audio adapters: wrappers over libraries that are not part of this model.
