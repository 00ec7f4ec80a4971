# Verified model of rs-modbus

rs-modbus implements the MODBUS Application Protocol V1.1b3, for masters and slaves, over RTU, ASCII
and TCP framing. This project models its behaviour with sockets, serial ports and the async runtime
abstracted into steps and events, and proves what the code keeps, in every run and on every input.

`dafny verify dfyconfig.toml` checks everything. The files build on each other in this order:

| files | what they model |
|---|---|
| `Bytes`, `Adus`, `Streams` | bytes and big-endian words, the unit of exchange, streams made of frames |
| `AddressLocks`, `AddressLockSafety`, `AddressLockSerial`, `LockedCommands`, `UnlockedWrites` | the per-address lock protocol of function codes 22 and 23, what it is for, and the writes that take no locks |
| `DrainQueue`, `DrainReuse` | the per-connection work queues of the slave; reused connection ids and handlers that panic |
| `Crc`, `CrcTwoBits` | the table-driven checksum, the bit-serial one, and the errors it detects |
| `RtuPredict`, `RtuFramer`, `RtuStream`, `RtuFragments`, `RtuResync`, `RtuLine`, `Rtu` | frame lengths, the 512-byte pool, arbitrary bytes, any cutting, stray bytes, silences on a serial line, the codec |
| `Ascii`, `AsciiStream`, `AsciiOrder`, `AsciiFraming` | hexadecimal and longitudinal check, the reception automaton, the order of its reports, the frames among the bytes received |
| `Tcp`, `TcpStream`, `TcpFraming` | the header, the receive side, what it takes for a frame |
| `Session`, `SessionRuns`, `SessionProgress` | the awaited responses of a master, any interleaving of requests on them, and that these get on |
| `DeviceObjects`, `DeviceId`, `DeviceFollow`, `DeviceIdWire`, `DeviceAnswers` | Read Device Identification: the objects, a page, following the pages, both ends, where an answer begins |
| `Packing`, `Pdu`, `Builders`, `Serving`, `RequestBytes`, `ServerId`, `Exchange`, `ServedTables`, `MasterChecks`, `Dispatch` | coils and registers, requests, handlers, range checks, responses, entry by entry and check by check, one slave's several models |
| `EndToEnd`, `KnownFrames` | a command through every framing and any cutting to the slave's tables and back; the wire formats on examples |

The two concurrent protocols are step relations over any number of tasks: one step is one critical
section of the map's mutex, one acquire or release, one access to the register store. The theorems
quantify over every run. Objects that the code updates in place are classes, loops are methods, and
each is proved equal to a function about which the theorems are stated. The framers are stated over
an arbitrary extraction function of which only soundness is known, so that the theorems hold for any
registered length predictor; the real extraction is shown to be sound.

## Where the code surprises

These are properties of the code as it is. Each has a lemma giving the exact condition.

- A run of addresses is accepted only if the address after its last one is inside the range as well,
  so no command with a length can use the last address of a declared range, unless the address after it
  goes round (`Serving.LastAddressIsRefused`).
- The range check adds address and length in 16 bits. Without overflow checks the sum goes round, and a
  range that allows the command contains every address it touches if and only if no sum goes round or
  the range is the whole space (`Serving.AllowingContainsIff`). With registers from 100 on declared, a
  write of 123 registers to 65535 is allowed and writes address 0 (`Serving.WritesBelowTheRange`). With
  overflow checks the same sums panic in the handler; its connection is then served no more until
  everything closes (`DrainReuse.PanicStrands`).
- The guard on the values of device objects is 245 bytes, but an object of more than 241 bytes fits no
  page: it is never delivered (`DeviceFollow.DeliversAllIffPageable`), and
  individual access to one of 242 to 245 bytes answers with the next object that is not left out, with
  an empty page or with an exception (`DeviceId.SpecificIffPageable`, `DeviceId.SpecificAnswers`).
- Following the pages of a stream ends and delivers every object if and only if all values fit and the
  stream reaches every id at which pages break (`DeviceFollow.FollowingWorksIff`); if they fit and
  it does not, there is always one more page (`DeviceFollow.AlwaysMore`). A basic stream of a device with an object 3 of 230
  bytes goes round for ever and never delivers it (`DeviceFollow.BasicNeverDelivers`).
- A slave answers Report Server ID with up to 255 counted bytes, but an RTU master receives the
  answer only up to 251 (`ServerId.ReceivedIffFits`).
- The master's builders accept any quantity. They panic exactly if the values need more than 255 bytes
  (`Builders.Build`); of the others the slave drops those without values, without an answer, and refuses
  those beyond the limits (`Pdu.EveryRequestUnderstood`).
- On a network, bytes before a good frame are dropped one at a time as long as they are measured and fail
  the check (`RtuResync.Resynchronises`); but if they begin with a code nothing predicts, the whole chunk is
  lost with the frames in it (`RtuResync.UnknownCodeGivesUp`).
- Stand-alone ASCII decoding refuses a unit without data, which the reception automaton delivers
  (`Ascii.DecodeEncode`, `AsciiStream.EncodingIsDelivered`).
- The order in which ASCII errors are reported can depend on how the stream is cut, although which
  errors are reported, and how often, does not. It depends on it for a stream if and only if some report
  comes before a different one that a chunk reports earlier (`AsciiOrder.OrderKeptIff`,
  `AsciiOrder.MisplacedMeans`; `AsciiStream.ErrorOrderDependsOnCutting` is such a stream).
- A full clear of the work queues makes two drainers possible for a connection that sends again exactly
  if it still had an entry (`DrainReuse.ReuseAfterCloseAll`), and its frames can then be handled in
  another order than they came (`DrainReuse.OrderIsLost`), though none is lost (`DrainReuse.NeverAbandoned`).
- Function codes 6 and 16 write without locks. Such a write and a mask write leave what one after the
  other would, unless it hits the register between the read and the write of the mask write; the write is
  then lost, but for values that make no difference (`UnlockedWrites.InOrderUnlessHit`, `UnlockedWrites.AWriteIsLost`).
- A request still waiting when 65534 further transactions have been issued loses its slot to the next
  one, and is then neither answered nor armed (`SessionRuns.OutlivedIsDropped`); until then it cannot be
  (`SessionRuns.NotDropped`), and there are runs that get there (`SessionRuns.DropIsReached`).

## Model

| member | source | states |
|---|---|---|
| AddressLockSafety.MutualExclusion | src/slave.rs:349-403 | in every reachable state no two tasks run on overlapping address sets, although finished tasks delete locks and later ones create new locks for the same address |
| AddressLockSafety.MapIsReclaimed | src/slave.rs:388-400 | every lock in the map has a task that cloned it and still owes its cleanup, so once all tasks have returned the map is empty |
| AddressLockSafety.DeadlockFree | src/slave.rs:358-382 | every reachable state with an unfinished task has an enabled step |
| AddressLockSafety.HolderIsAhead | src/slave.rs:376-382 | the holder of an awaited mutex, if it waits itself, waits for a higher address |
| AddressLockSafety.Terminates | src/slave.rs:349-403 | a run is never longer than the sum of the ranks of its tasks: any set of tasks finishes |
| AddressLockSafety.StepKeepsInv | src/slave.rs:358-400 | every step keeps: handles are those of the map, guards and owners agree, the map's mutex holder is cleaning, every lock is owed a cleanup |
| AddressLockSafety.CleanKeepsReclaimable | src/slave.rs:388-400 | if a lock survives a cleanup then the clone that kept its count up belongs to a task that still owes one |
| AddressLockSafety.CleanupIsForget | src/slave.rs:388-400 | whatever steps of other tasks come between those of a cleanup, it does to the map what the loop over its addresses does with the counts it finds |
| AddressLockSafety.DropLowersCount | src/slave.rs:383-387 | dropping a handle lowers the count of its lock by one and no other |
| AddressLockSerial.Serialisable | src/slave.rs:63-85 | in any interleaving the registers are those of the critical sections run one after another, as far as each got, in the order they were entered |
| AddressLockSerial.CompleteRunIsSequential | src/slave.rs:1139-1142 | once all have returned without a store failure, every request is in that order exactly once and the registers are those of the whole requests in sequence: no update is lost |
| LockedCommands.SectionIsCommand | src/slave.rs:1115-1220 | a critical section by itself does to the registers what its command does to the tables |
| LockedCommands.ConcurrentIsInTurn | src/slave.rs:1115-1220 | any number of concurrent mask writes and read-and-writes, none of whose accesses fails, leave the holding registers of the same commands carried out one after another, each exactly once |
| UnlockedWrites.InOrderUnlessHit | src/slave.rs:915-942 | a mask write interleaved anyhow with a write of one or many registers without locks leaves what one of the two orders would, iff the write does not fall between its read and its write, or the update of the value read is the value written or its update |
| UnlockedWrites.AWriteIsLost | src/slave.rs:75-85 | an interleaving of function codes 22 and 6 that loses the write of the latter |
| AddressLocks.CloneFromExtends | src/slave.rs:363-374 | cloning keeps the locks there are, adds locks only for the addresses given, and never reuses an identity |
| AddressLocks.CloneFromHandles | src/slave.rs:363-374 | the handle cloned for each address is the lock now in the map |
| AddressLocks.SortDedup | src/slave.rs:358-360 | strictly ascending and with the same members |
| AddressLocks.LockTable.CloneHandles | src/slave.rs:363-374 | the loop over the sorted addresses under the map's mutex is the cloning step |
| AddressLocks.LockTable.Forget | src/slave.rs:391-400 | the loop forgets, address after address, the locks of which it finds only the map's clone |
| DrainQueue.NothingStranded | src/slave.rs:264-272 | in every run with closes anywhere, in which no connection alive at a full clear sends again: an entry is present iff exactly one drainer of its connection is live, every entry is processing, and every enqueued frame is in order exactly one of handled, in flight, queued or dropped |
| DrainQueue.FirstInFirstOut | src/slave.rs:419-432 | while nothing closes, handled then in flight then queued frames are the enqueued ones in order |
| DrainQueue.Independent | src/slave.rs:419-495 | a step on one connection changes nothing of another |
| DrainQueue.SettledIsComplete | src/slave.rs:469-493 | when no drainer is live the map is empty and every frame not dropped has been handled, in order |
| DrainQueue.DrainingTerminates | src/slave.rs:461-495 | without new frames the drainers stop within a bound computed from the state |
| DrainReuse.NeverAbandoned | src/slave.rs:419-495 | in every run whatever, ids reused or not: an entry is processing and has a live drainer, and every enqueued frame is exactly one of handled, in flight, queued or dropped |
| DrainReuse.ReuseAfterCloseAll | src/slave.rs:283-292 | after a full clear a frame under an old id meets a second drainer iff the id still had an entry |
| DrainReuse.OrderIsLost | src/slave.rs:283-292 | a run in which the second frame of such a connection is handled before the first |
| DrainReuse.PanicStrands | src/slave.rs:419-432 | if the handling of a frame never returns, then in every run without a full clear no frame of its connection is handled any more and no drainer starts |
| DrainQueue.StepKeepsInv | src/slave.rs:419-495 | every step keeps one drainer to an entry and the account of every frame |
| DrainQueue.SectionsAreSteps | src/slave.rs:461-493 | the critical sections report what decides where a drainer goes |
| DrainQueue.SlaveQueues.Push | src/slave.rs:419-432 | the frame is appended to its queue, and a drainer is asked for iff none was processing |
| DrainQueue.SlaveQueues.PopFront | src/slave.rs:462-468 | the first frame is taken, or none, or the entry is gone |
| DrainQueue.SlaveQueues.RemoveIfEmpty | src/slave.rs:481-492 | the entry goes iff it is still empty |
| DrainQueue.SlaveQueues.CloseConnection | src/slave.rs:264-272 | the queued frames go, and the entry if nobody processes it |
| DrainQueue.SlaveQueues.DrainLoop | src/slave.rs:461-495 | undisturbed, the loop handles exactly the queued frames in order and takes the entry away |
| Crc.CrcWithSeed | src/utils.rs:35-41 | the table loop computes the bitwise 0xA001 register of section 6.2.2 of MODBUS over Serial Line V1.02, for every input and seed |
| Crc.TableIsShift8 | src/utils.rs:3-26 | every table entry is eight bitwise steps of its index |
| Crc.CrcOverBits | src/utils.rs:35-41 | the byte-wise register is the bit-serial register over the transmitted bits |
| Crc.CrcConcat | src/utils.rs:32-41 | the checksum of a concatenation is the checksum of the second part seeded with that of the first |
| Crc.PassesIffZero | src/layers/application/rtu.rs:561-568 | a frame passes the check iff the checksum of the whole frame is 0 |
| Crc.BurstDetected | src/layers/application/rtu.rs:561-568 | every error burst of at most sixteen bits, checksum field included, makes the check fail |
| Crc.AdjacentBytesDetected | src/layers/application/rtu.rs:561-568 | altering one byte or two adjacent bytes of a valid frame makes the check fail |
| Crc.OddErrorsDetected | src/layers/application/rtu.rs:561-568 | flipping any odd number of bits, wherever they are, makes the check fail |
| Crc.StrayBytesPassIff | src/utils.rs:28-33 | bytes in front of a valid frame pass with it iff their own checksum is the value the register starts from |
| Crc.OneStrayByteIsDetected | src/utils.rs:28-33 | so one stray byte in front of a valid frame, zero included, makes the check fail |
| CrcTwoBits.TwoBitsPassIff | src/layers/application/rtu.rs:561-568 | flipping two bits passes the check iff their distance is a multiple of 32767 |
| CrcTwoBits.UpToThreeDetected | src/layers/application/rtu.rs:561-568 | in frames of at most 4095 bytes flipping any one, two or three bits makes the check fail |
| CrcTwoBits.PeriodIff | src/utils.rs:3-26 | the order of the polynomial without its factor x + 1 is 32767 |
| RtuPredict.WalkDeviceIdentification | src/utils.rs:236-253 | the loop over the objects is the recursive walk the theorems speak of |
| RtuPredict.PredictionIsStable | src/utils.rs:174-253 | a length or unknown verdict never changes as bytes are appended |
| RtuPredict.PrefixPrediction | src/utils.rs:174-253 | a prefix of a frame is undecided or already has the verdict of the frame |
| RtuPredict.KnowsStandardCodes | src/utils.rs:152-163 | the predictor is without a verdict of its own exactly on the non-standard codes, and on an encapsulated response that is not a device identification |
| RtuFramer.ExtractorIsSound | src/layers/application/rtu.rs:508-559 | what is extracted is a checked piece of the buffer of 4 to 256 bytes, whatever the registered predictors do |
| RtuFramer.FlushBound | src/layers/application/rtu.rs:435-498 | a flush ends with fewer than 256 bytes held, a strict one with none, for every content and every predictor |
| RtuFramer.RtuBuffer.ExtendFromSlice | src/layers/application/rtu.rs:102-107 | as much is copied as fits behind the bytes held, which stay |
| RtuFramer.RtuBuffer.Drain | src/layers/application/rtu.rs:110-112 | the first bytes go and the others stay |
| RtuFramer.RtuBuffer.Compact | src/layers/application/rtu.rs:116-128 | the bytes held are at the front of the pool and have not changed |
| RtuFramer.RtuBuffer.Clear | src/layers/application/rtu.rs:130-133 | nothing is held |
| RtuFramer.RtuBuffer.FlushPool | src/layers/application/rtu.rs:417-498 | the extraction loop on the pool reports and leaves what the flush of its bytes does, with the bytes at the front |
| RtuFramer.RtuBuffer.Feed | src/layers/application/rtu.rs:325-353 | the copying loop takes a chunk of any size through the pool and terminates; the branch for a pool still full after a flush is dead |
| RtuFramer.RtuBuffer.ProcessDataEvent | src/layers/application/rtu.rs:285-369 | a data event on the pool reports and leaves what the specified event does |
| RtuStream.DataEventConserves | src/layers/application/rtu.rs:435-498 | for arbitrary bytes and predictors, emitted frames, discarded bytes and residue are in order the bytes held and fed |
| RtuStream.FlushEmitsChecked | src/layers/application/rtu.rs:435-491 | each flush emits frames of 4 to 256 bytes that passed the check, followed by at most one error |
| RtuStream.DataEventEmitsChecked | src/layers/application/rtu.rs:325-369 | so does a whole data event, but for the place of the errors |
| RtuFragments.BuiltInIsRecognised | src/layers/application/rtu.rs:530-541 | a checked frame whose built-in prediction is its length is extracted from any buffer beginning with it, and no proper part of it decides anything |
| RtuFragments.CustomIsRecognised | src/layers/application/rtu.rs:519-528 | so is a frame of a registered code whose predictor does not change its mind |
| RtuFragments.FlushParses | src/layers/application/rtu.rs:435-498 | flushing the beginning of a stream of known frames emits the complete ones and keeps the part of the next |
| RtuFragments.AnyCutting | src/layers/application/rtu.rs:325-369 | known frames and a proper part of another, in any number of chunks of any size, beyond the pool as well: exactly those frames in order, no error, nothing discarded, and the part held |
| RtuResync.Resynchronises | src/layers/application/rtu.rs:456-467 | on a network, stray bytes none of which begins a frame, then known frames and a proper part of another, cut anyhow: each stray byte is dropped by itself, then exactly the frames come out in order with no error, and the part is held |
| RtuResync.BuiltInIsStray | src/layers/application/rtu.rs:530-556 | for the built-in codes it is enough that what follows each stray byte is measured and fails the check |
| RtuResync.InvalidGivesUp | src/layers/application/rtu.rs:487-491 | bytes that cannot begin a frame are given up all together with one error |
| RtuResync.UnknownCodeGivesUp | src/layers/application/rtu.rs:530-541 | a chunk that begins with a code nothing predicts is lost whole, with the frames in it |
| RtuLine.NoFrameSpansASilence | src/layers/application/rtu.rs:301-323 | in every run of chunks, expired t1.5 gaps and t3.5 silences no frame has bytes from both sides of one, and every byte is accounted for |
| RtuLine.SilenceKeepsInv | src/layers/application/rtu.rs:456-486 | a strict flush empties the buffer, in every state |
| RtuLine.FrameThenSilence | src/layers/application/rtu.rs:359-387 | a known frame in any cutting followed by the silence is emitted once, with no error and nothing held |
| RtuLine.FramesInTurn | src/layers/application/rtu.rs:359-387 | on a line, known frames, each in any cutting and followed by the silence, are emitted in order with no error, and nothing is held |
| RtuLine.PartThenSilence | src/layers/application/rtu.rs:468-478 | a silence after a proper part of a known frame emits nothing, gives the part up and reports one error, which says whether a t1.5 gap came first |
| RtuLine.FailedCheckThenSilence | src/layers/application/rtu.rs:456-462 | a silence after bytes that fail the check emits nothing and reports one error |
| RtuLine.GapThenData | src/layers/application/rtu.rs:301-315 | a chunk after a t1.5 gap: the part before it is reported and given up, and the chunk is received as by an idle connection |
| Rtu.EncodeFrame | src/layers/application/rtu.rs:601-611 | the buffer filled in place is unit, code, data and the checksum, low byte first |
| Rtu.DecodeEncode | src/layers/application/rtu.rs:570-584 | decoding undoes encoding for every unit, but for its transaction |
| Rtu.EncodeDecode | src/layers/application/rtu.rs:570-584 | what decodes is exactly what has four bytes and passes the check, and encoding it again gives it back |
| Rtu.EmittedIsEncoding | src/layers/application/rtu.rs:439-463 | whatever arrives in whatever state, every emitted frame is the encoding of the unit sent on with it, and all bytes are accounted for |
| Rtu.UnitsSurviveCutting | src/layers/application/rtu.rs:325-369 | units with a right built-in prediction, encoded in sequence and cut anyhow, come out as their encodings |
| Rtu.DamageIsRefused | src/layers/application/rtu.rs:544-559 | a frame damaged in one byte or two adjacent ones is not taken for a frame of its length |
| Ascii.EncodeFrame | src/layers/application/ascii.rs:281-293 | the loop pushing two characters to a byte gives the framed encoding |
| Ascii.DecodeFrame | src/layers/application/ascii.rs:236-265 | the loop over pairs of characters is the decoding the lemmas speak of, errors in the same order |
| Ascii.ComputeLrc | src/utils.rs:43-46 | the wrapping fold is the negated sum of the bytes |
| Ascii.LrcMatchesIffZero | src/layers/application/ascii.rs:248-252 | a message ends in its check byte iff all its bytes add up to nothing |
| Ascii.OneByteDetected | src/layers/application/ascii.rs:248-252 | changing one byte of a valid message, its check byte included, makes the check fail |
| Ascii.HexIsHex | src/layers/application/ascii.rs:285-290 | what is sent are upper-case hexadecimal characters, two to a byte, and they decode to the bytes |
| Ascii.UnhexIsHex | src/layers/application/ascii.rs:46-60 | hexadecimal characters always decode, and writing the result again gives their capitals |
| Ascii.DecodeEncode | src/layers/application/ascii.rs:295-308 | stand-alone decoding undoes encoding except on a unit without data, which is refused |
| Ascii.DecodedIsEncoding | src/layers/application/ascii.rs:295-308 | what decodes is, in capitals, the encoding of the result |
| AsciiStream.Connection.Take | src/layers/application/ascii.rs:156-204 | one byte moves status and buffer as the automaton does |
| AsciiStream.Connection.DriveFsm | src/layers/application/ascii.rs:141-231 | a chunk moves the automaton byte by byte, and reports overflows, then bad characters, then the completed frames |
| AsciiStream.AnyCutting | src/layers/application/ascii.rs:141-231 | for arbitrary bytes, any state and any cutting: same frames in the same order, each error as often, same final state |
| AsciiStream.ErrorOrderDependsOnCutting | src/layers/application/ascii.rs:209-231 | a stream whose errors come in another order when it is cut |
| AsciiOrder.OrderKeptIff | src/layers/application/ascii.rs:209-231 | for arbitrary bytes and any listener: no cutting changes what is heard iff no signal of the stream precedes, with a different report, one that a chunk reports earlier |
| AsciiOrder.MisplacedMeans | src/layers/application/ascii.rs:209-231 | these are a bad character after a completed payload, and an overflow after a bad character or after a completed payload not reported as one |
| AsciiStream.EncodingIsDelivered | src/layers/application/ascii.rs:164-231 | from any state an encoded unit is delivered, alone, iff it has at most 253 data bytes; otherwise there is exactly one overflow error |
| AsciiStream.UnitsSurviveCutting | src/layers/application/ascii.rs:141-231 | encoded units in any cutting come out in order with no error, from any state |
| AsciiStream.DriveKeepsClean | src/layers/application/ascii.rs:172-191 | what is held is at most 512 characters, all hexadecimal, and nothing when idle |
| AsciiStream.CompletedDecodes | src/layers/application/ascii.rs:236-265 | decoding a payload of the automaton never reports a bad character, and what is delivered is in strict mode to the letter the encoding of the unit |
| AsciiStream.RunDeliversEncodings | src/layers/application/ascii.rs:141-231 | in every run every delivered frame is the encoding of its unit, to the letter in strict mode and in capitals otherwise |
| AsciiFraming.SignalIs | src/layers/application/ascii.rs:164-204 | from an idle connection, a byte completes a frame iff the bytes received end in a colon, at most 512 hexadecimal characters and the line end; it is a bad character, or an overflow, iff it breaks fewer than 512, or exactly 512, such characters |
| AsciiFraming.DeliveredAreWholes | src/layers/application/ascii.rs:141-231 | whatever arrives in whatever cutting, the frames delivered are those there are among the bytes whose payloads decode |
| AsciiFraming.RawWasReceived | src/layers/application/ascii.rs:194-201 | in whatever cutting, the raw bytes of every delivered frame are a piece of the bytes received, and the pieces follow one another |
| AsciiFraming.PayloadIs | src/layers/application/ascii.rs:236-265 | the characters between colon and line end are refused iff odd in number, not hexadecimal, fewer than three bytes or with a wrong check, each with its error, and otherwise give the unit |
| AsciiFraming.DecodeIs | src/layers/application/ascii.rs:295-307 | decoding alone asks for ten bytes, the colon and the line end |
| Tcp.EncodeFrame | src/layers/application/tcp.rs:181-198 | the buffer filled in place is the header, unit, code and data |
| Tcp.DecodeEncode | src/layers/application/tcp.rs:147-165 | decoding undoes encoding iff the length fits its 16 bits |
| Tcp.EncodeDecode | src/layers/application/tcp.rs:147-165 | encoding what decoded gives back the bytes |
| Tcp.EncodingIsExtracted | src/layers/application/tcp.rs:129-145 | a unit is taken whole from any buffer beginning with its encoding iff it has at most 252 data bytes |
| Tcp.ExtractedIsEncoding | src/layers/application/tcp.rs:129-145 | what is extracted is the encoding of the unit sent on with it |
| Tcp.PartDecidesNothing | src/layers/application/tcp.rs:129-145 | no proper part of such an encoding decides anything |
| TcpStream.Connection.ProcessDataEvent | src/layers/application/tcp.rs:79-121 | the loop on the connection's buffer reports and leaves what the processing of old and new bytes does |
| TcpStream.EmittedIsEncoding | src/layers/application/tcp.rs:87-116 | whatever arrives: all bytes are accounted for in order, every frame is the encoding of its unit, and less than 260 bytes are kept |
| TcpStream.UnitsSurviveCutting | src/layers/application/tcp.rs:79-121 | units of at most 252 data bytes and a proper part of another, cut anyhow: exactly their encodings in order, no error, and the part kept |
| TcpFraming.ExtractsIff | src/layers/application/tcp.rs:129-145 | a buffer gives a frame iff it begins with a unit of at most 252 data bytes, waits iff it has fewer than eight bytes or is the beginning of such a unit, and is invalid otherwise |
| TcpFraming.GivesUp | src/layers/application/tcp.rs:87-116 | known frames and then bytes that cannot begin one: the frames come out, there is one error, and the rest is lost |
| TcpFraming.StartsAfresh | src/layers/application/tcp.rs:109-113 | the chunk after that is received as by a new connection |
| Session.RunPreChecks | src/master_session.rs:168-188 | a unit is accepted iff every check accepts it, and otherwise the first that does not decides the error |
| Session.MasterSession.Start | src/master_session.rs:83-98 | the slot of the key holds the new waiter, the others stay |
| Session.MasterSession.Stop | src/master_session.rs:102-104 | the slot of the key is free, and nobody is told |
| Session.MasterSession.StopAll | src/master_session.rs:109-117 | all slots are free, and exactly their owners are told the error |
| Session.MasterSession.HandleFrame | src/master_session.rs:129-147 | the waiter of the frame's key, if any, is removed and told the verdict of its checks |
| Session.TidAllocator.AllocateTid | src/master.rs:100-107 | the nth allocation is 1 + n mod 65535, never 0 |
| Session.TidsDistinct | src/master.rs:100-107 | two allocations give the same number iff they are a multiple of 65535 apart |
| SessionRuns.StepKeepsSafe | src/master.rs:201-305 | every move of any run keeps: slots belong to unanswered requests with that key, keys fit, answers fit, at most one waits on a master that is not concurrent |
| SessionRuns.StepKeepsInv | src/master.rs:201-305 | if moreover no request outlives 65534 later allocations, whoever expects an answer keeps its own slot |
| SessionRuns.StepAnswers | src/master_session.rs:109-147 | a request is answered only while its own slot is armed and it has no answer, by a frame of its key with the verdict of its checks or by an error told to all |
| SessionRuns.AnsweredOnce | src/master_session.rs:129-147 | in every run, requests that lose their slots included, the answer to a request never changes once given |
| SessionRuns.ReturnsItsOwn | src/master.rs:248-305 | in every run, requests that lose their slots included, a request that returns a frame returns one with its own transaction, if it has one, that all its checks accept |
| SessionRuns.NotDropped | src/master.rs:290-300 | in every run in which no request outlives 65534 later allocations, a request awaiting its response is answered or still armed: its receiver is never dropped under it |
| SessionRuns.SlotIsOwn | src/master.rs:276-305 | arming overwrites nothing and giving up removes nothing of another request, except between broadcasts of a concurrent master |
| SessionRuns.OneAtATime | src/master.rs:218-226 | a master that is not concurrent has at most one waiter armed |
| SessionRuns.NothingLeft | src/master.rs:276-305 | once every request has returned no waiter is left |
| SessionRuns.OutlivedIsDropped | src/master_session.rs:77-98 | the limit is exact: at 65535 allocations the key returns, the slot is overwritten and the earlier request is neither armed nor answered |
| SessionRuns.DropIsReached | src/master.rs:294-299 | a run of 65536 requests that gets there, after which the first returns as cleared |
| SessionProgress.SomeoneCanMove | src/master.rs:218-305 | in every run, as long as a request has not returned, some request can move |
| SessionProgress.MovesAreBounded | src/master.rs:201-305 | whatever arrives, requests make at most four moves each |
| SessionProgress.ReturnsWhatArrives | src/master_session.rs:129-147 | a frame with the key of a waiting, armed request is what it returns if its own checks accept it, and otherwise the error of the first that does not |
| SessionProgress.ReturnsTheError | src/master_session.rs:109-117 | an error told to all is what each armed request returns |
| SessionProgress.Endings | src/master.rs:276-305 | a request that ends otherwise says how, frees its slot and releases the lock |
| SessionProgress.KeysAre | src/master.rs:237-246 | only a request to a single unit over TCP has a number, which is that of its allocation |
| DeviceObjects.ListObjects | src/slave.rs:1294-1306 | the sorted list holds exactly the model's objects and placeholders for the mandatory ones it lacks |
| DeviceObjects.SortByIdSorts | src/slave.rs:1306 | sorting orders the list and neither adds nor loses an object |
| DeviceObjects.ListBeginsWithZero | src/slave.rs:1294-1298 | the list always begins with object 0, where a page can start |
| DeviceObjects.ListIsUnique | src/slave.rs:1294-1306 | only one list does so, whatever order the model gives its objects in |
| DeviceId.BuildPage | src/slave.rs:1334-1362 | the loop that picks objects is the picking the lemmas speak of |
| DeviceId.PickedFits | src/slave.rs:1334-1362 | a page is made of objects from its start on and never exceeds its limit |
| DeviceId.BeforeMark | src/slave.rs:1351-1356 | a stream page holds every object from its start up to the one it names as next, or to the end |
| DeviceId.MarkIsLater | src/slave.rs:1351-1356 | the object named as next is a later one than the page starts at |
| DeviceId.LongIsNeverSent | src/slave.rs:1351-1356 | an object of more than 241 bytes is on no page of any request |
| DeviceId.ContinuesIffReached | src/slave.rs:1254-1320 | asking for the named object continues there iff the stream reaches that id, and otherwise starts again at 0 |
| DeviceFollow.FollowingWorksIff | src/slave.rs:1254-1362 | following a basic, regular or extended stream ends and delivers every object iff every value has at most 241 bytes and the stream reaches every id at which its pages break |
| DeviceFollow.FollowingDeliversAll | src/slave.rs:1254-1362 | it then ends within as many pages as objects, and every object is on one of them |
| DeviceFollow.AlwaysMore | src/slave.rs:1254-1320 | if some such id is not reached, then however far the pages are followed there is a next one |
| DeviceFollow.DeliversAllIffPageable | src/slave.rs:1342-1356 | in a stream that reaches all ids, every object is delivered iff every value has at most 241 bytes |
| DeviceFollow.BasicNeverDelivers | src/slave.rs:1254-1320 | a device whose basic stream never ends and never delivers its object 3 |
| DeviceId.SpecificIffPageable | src/slave.rs:1342-1362 | individual access answers with exactly the object asked for iff its value has at most 241 bytes |
| DeviceId.SpecificAnswers | src/slave.rs:1334-1362 | in every case: individual access answers with the first object from the one asked for on that is not left out, with an exception if that is over the guard, and with an empty page if there is none |
| DeviceIdWire.Answer | src/slave.rs:1235-1389 | the handler checks the request, lists the objects, builds and packs the page the function describes |
| DeviceIdWire.AnswerIsDetermined | src/slave.rs:1292-1306 | the objects decide the answer, whatever order they come in |
| DeviceIdWire.InspectResponse | src/master.rs:950-975 | the loop of the check is the walk the lemmas speak of |
| DeviceIdWire.ParseResponse | src/master.rs:977-1001 | a response that passed the check is read without leaving its bounds |
| DeviceIdWire.AcceptedIsExact | src/master.rs:950-1001 | what is read is exactly the ids and values packed in the response, and all of them |
| DeviceIdWire.MasterReadsPage | src/slave.rs:1364-1389 | every answer with data passes the check of the master that asked, which reads exactly the page and where the next one starts |
| DeviceAnswers.RefusedIff | src/slave.rs:1241-1290 | the request is refused with each exception exactly when it is malformed, has an unknown code, or asks individually for a reserved or absent object |
| DeviceAnswers.ListedAre | src/slave.rs:1294-1306 | the objects are those of the model, and "null" in the place of each of the mandatory ones it lacks |
| DeviceAnswers.StartsAgain | src/slave.rs:1254-1320 | asked for an object it does not reach or the device does not have, a stream answers as if asked for object 0 |
| DeviceAnswers.BeginsWithAsked | src/slave.rs:1334-1362 | otherwise the master reads nothing before the object asked for, and that object first if its value has at most 241 bytes |
| DeviceAnswers.StreamFailsIff | src/slave.rs:1342-1350 | a stream fails iff an object from its start on has more than 245 bytes |
| DeviceAnswers.PageGrows | src/slave.rs:1334-1362 | the page is filled greedily: one more object goes on it iff it is not before the start and there is room in 253 bytes, and the first without room is named as next |
| DeviceAnswers.ReportsConformity | src/slave.rs:1326-1332 | the master reads the level 0x83, 0x82 or 0x81 of the highest kind of object the device has |
| DeviceIdWire.PredictedExactly | src/utils.rs:236-253 | the RTU receiver measures every well-formed answer right |
| Packing.PackCoils | src/utils.rs:87-101 | the byte count of the length and the coils eight to a byte, lowest bit first |
| Packing.ParseCoils | src/utils.rs:103-116 | the coils in the bytes after the count |
| Packing.PackRegisters | src/utils.rs:118-126 | the byte count of the length and the registers, high byte first |
| Packing.ParseRegisters | src/utils.rs:128-135 | the registers in the bytes after the count |
| Packing.CoilsRoundTrip | src/utils.rs:87-116 | coils survive packing and parsing, whatever their number |
| Packing.RegistersRoundTrip | src/utils.rs:118-135 | registers survive packing and parsing, whatever their number |
| Pdu.RequestUnderstood | src/slave.rs:679-1187 | the slave understands every request within the limits as the command it was built from |
| Pdu.EveryRequestUnderstood | src/slave.rs:1001-1061 | of all requests a master can build, those within the limits are understood, those without any values to write dropped, and all others refused |
| Pdu.UnderstoodInLimit | src/slave.rs:688-697 | whatever the slave takes for a command is within the limits |
| RequestBytes.SilentIff | src/slave.rs:679-1187 | whatever its data: a request is dropped iff its code is one of the tables' and its length is wrong for it, and unknown iff its code is neither one of these nor of identification |
| RequestBytes.KnownIff | src/slave.rs:688-1187 | a request of the right length is understood iff its quantities are within the limits and its byte count goes with them, and refused otherwise |
| RequestBytes.ExceptionsAre | src/slave.rs:661-676 | the exceptions on the wire: the code with its highest bit set, and 1 for an unknown code, 2 for a command not allowed, 3 for a bad value; the tables stay |
| RequestBytes.UnderstoodIsBuilt | src/slave.rs:944-1061 | whatever data the slave takes for a command are those a master builds for it, but for the unused bits after the last coil |
| Builders.Build | src/master.rs:309-900 | the buffer a builder fills in place is the data of its command, for any quantity; it panics iff the values do not fit the byte count |
| Serving.CheckRange | src/utils.rs:52-62 | true iff no range is declared or all values lie inside one and the same range |
| Serving.AllowingContainsIff | src/slave.rs:699-723 | a range that allows a command contains every address it touches iff no sum of address and length goes round, or the range is the whole space |
| Serving.AllowedStaysInside | src/slave.rs:699-723 | all addresses that a command without such a sum touches lie inside one declared range |
| Serving.WritesBelowTheRange | src/slave.rs:63-72 | a request that is allowed by the range from 100 to 65535 and writes address 0 |
| Serving.ServedInside | src/slave.rs:699-723 | whatever a request to the tables holds, an entry it changes belongs to an understood and allowed command that touches it, and lies in the range that allowed it unless a sum goes round; inputs never change |
| Serving.OnlyTouchedChange | src/slave.rs:37-85 | a command changes only what it touches |
| Serving.LastAddressIsRefused | src/slave.rs:701 | a run of addresses is allowed iff the address after it, which may have gone round, is in the range as well |
| Serving.PatchAt | src/slave.rs:63-72 | the addresses written, going round after the last, get the values and no other changes |
| Serving.Model.WriteMultiple | src/slave.rs:63-72 | the default loop of single writes writes all the values, in place |
| Serving.Model.MaskWrite | src/slave.rs:75-85 | the default read, mask and write changes the one register |
| Serving.HandleRequest | src/slave.rs:679-723 | range check, execution on the tables and response are the answer the lemmas speak of, errors included |
| Exchange.CarriedOut | src/slave.rs:944-998 | a command within limits and ranges is carried out exactly, its response passes every check, and the master reads what the tables held |
| Exchange.Refused | src/slave.rs:661-676 | a command outside the ranges changes nothing and the master rejects the answer |
| ServedTables.AllowedIff | src/slave.rs:701-1196 | each command is checked against the ranges of the table it reads or writes, and at which addresses |
| ServedTables.TouchesIff | src/slave.rs:63-72 | the addresses a command touches are as many as it has values or asks for, one after the other, going round |
| ServedTables.ReadsTheTable | src/slave.rs:679-874 | what the master reads from the response is, entry by entry, what the table of the command holds from the address on; for function code 23 after the write |
| ServedTables.WritesTheTable | src/slave.rs:63-85 | what a command leaves in the tables, entry by entry, and for a mask write bit by bit: a one in the AND mask keeps the bit, a zero takes that of the OR mask |
| MasterChecks.ResponseVerdict | src/master.rs:168-205 | a response is accepted, or rejected with which error, exactly by its unit, its code, its length, and its byte count or its beginning |
| Exchange.RequestPredicted | src/utils.rs:184-227 | the RTU receiver of a slave measures every request of a master right |
| Exchange.ReplyPredicted | src/utils.rs:184-227 | the RTU receiver of a master measures every reply right |
| Exchange.RefusalPredicted | src/utils.rs:180-182 | and every exception |
| Dispatch.ProcessFrame | src/slave.rs:498-533 | the models a request is for handle it, one or all of them, the others stay, and only a request for one is answered |
| Dispatch.BroadcastCarriedOut | src/slave.rs:514-533 | a broadcast is carried out by exactly the models whose ranges allow it, and nothing is sent |
| Dispatch.OneUnitServed | src/slave.rs:514-533 | a request to one unit changes no other model; without a model for it nothing is sent, and otherwise what that model answers |
| ServerId.MasterReads | src/master.rs:747-791 | an answer passes the check, and a master that knows the length of the id reads what was reported |
| ServerId.AnswersIff | src/slave.rs:1083-1101 | there is an answer iff id, status and the rest are at most 255 bytes |
| ServerId.AnswerPredicted | src/utils.rs:203-220 | the RTU receiver measures every answer right |
| ServerId.ReceivedIffFits | src/slave.rs:1083-1101 | the RTU receiver takes the answer iff its byte count is at most 251 |
| EndToEnd.CommandCarriedOut | src/master.rs:639-647 | a command to one unit in any framing and any cutting both ways: the slave receives exactly the request and carries it out, the master receives exactly the response, accepts it and reads what the tables held |
| EndToEnd.CommandRefused | src/slave.rs:701-709 | a command outside the ranges changes nothing and comes back as a rejection, in any framing and any cutting |
| EndToEnd.BroadcastCarried | src/slave.rs:514-533 | a broadcast in any framing and any cutting is carried out by exactly the models that allow it, and nothing comes back |
| EndToEnd.PageCarried | src/slave.rs:1235-1389 | a page of device objects in any framing and any cutting is read exactly |
| EndToEnd.ServerIdCarried | src/slave.rs:1063-1112 | a server id of at most 251 counted bytes in any framing and any cutting is read exactly |
| KnownFrames.KnownRtu | src/layers/application/rtu.rs:601-611 | one request in RTU: the checksum low byte first |
| KnownFrames.KnownAscii | src/layers/application/ascii.rs:281-293 | the same in ASCII |
| KnownFrames.KnownTcp | src/layers/application/tcp.rs:181-198 | the same in TCP |
| KnownFrames.KnownCoils | src/utils.rs:87-101 | ten coils packed, the first in the lowest bit |
| KnownFrames.KnownRegisters | src/utils.rs:118-126 | two registers packed, high byte first |
| KnownFrames.KnownWriteCoils | src/master.rs:632-647 | function code 15 on the example of the protocol |
| KnownFrames.KnownWriteRegisters | src/master.rs:696-706 | function code 16 |
| KnownFrames.KnownReadWrite | src/master.rs:872-884 | function code 23 |
| KnownFrames.KnownServerId | src/slave.rs:1083-1101 | an answer to Report Server ID |

## Left out

- The physical layers (`src/layers/physical`): they appear only as chunks of bytes and close events.
- The tokio runtime, the bounded broadcast channels and their lag, and the mechanics of oneshot channels: they are nondeterministic steps, and a receiver is an entry in a map of answers.
- Emptying the receive buffers before each request of a master that is not concurrent (`src/master.rs:230-232`): the delivery theorems begin with an empty buffer, or hold from any.
- Wall-clock timing: t1.5 and t3.5 are events, and the floating-point interval computation (`compute_interval_ms`, `bits_to_ms`) is not modelled.
- Clearing the lock and queue maps on `close` or `destroy` of a slave (`src/slave.rs:304-315`): it discards live locks by design; clearing the queues alone is a step of their runs.
- Reopening a master, which restarts the transaction numbers (`src/master.rs:139`), and closing it, which rejects new requests (`src/master.rs:209-212`): runs begin with an empty session.
- Cancellation of a request or of a locked section in the middle of an await.
- Function codes 6 and 16 take no address locks, so serialisability of whole runs is stated for the operations that do, and `UnlockedWrites` sets one such write against one mask write; the reading half of function code 23 is outside the lock and is not part of its critical section.
- Which connection a chunk belongs to: each framer is modelled for one connection, whose buffer the code finds in a map by its id; an emptied buffer is taken out of that map, which the model shows as an empty buffer without its t1.5 flag.
- `skip` in the extraction result of the RTU framer: no branch sets it to anything but 0.
- Registered length predictors are functions of the buffer; ones that keep state of their own are not covered.
- RtuFragments.CustomIsRecognised: asks of a registered predictor that it gives the length of the frame on every buffer beginning with it, which the code cannot know.
- SessionRuns.SlotIsOwn: leaves out two broadcasts of one concurrent master, which share a slot and await nothing.
- SessionRuns.NotDropped: holds for runs in which no request outlives 65534 later allocations; `SessionRuns.OutlivedIsDropped` shows that this is exact.
- Exchange.CarriedOut: sums of 16-bit addresses go round as in a build without overflow checks; with these the handler panics exactly for the commands that `Pdu.Spans` excludes (`src/slave.rs:701`).
- What a model reads past the last address: its own methods decide; the tables here go round, as the default writes do.
- The transaction counter of a TCP encoder that is given no transaction: it is a parameter.
- The `intercept` hook, registered handlers of non-standard codes on the slave.
- UTF-8: values of device objects are byte strings.
- Serving.ServedInside: speaks of requests to the tables; Report Server ID and Read Device Identification, which touch none, have handlers of their own in `ServerId` and `DeviceIdWire`.
- Error mappings (`src/error.rs`), the role check, and the aliases of the master's methods: finite or trivial.
