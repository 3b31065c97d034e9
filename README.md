# Access control system: a Dafny model of the bus protocol, the door terminal and the master codec

The access control system joins door terminals to one or more master servers over a
CAN bus. A terminal drives two card readers (A and B): it decodes 26-bit Wiegand
credentials, asks the active master whether a user may enter, unlocks the door on an
approval, reports door open/close changes and, in a caching build, remembers the
master's decisions in a small sorted cache. A master announces itself with periodic
ALIVE broadcasts; the terminal follows whichever master announced itself and forgets
it after two silent timer periods. The master's side is a Python codec that builds and
parses the 29-bit extended identifiers.

The model has one module per source file of that core:

| module | file | what it holds |
|---|---|---|
| `Common` | (shared) | `Option`, bytes, little-endian numbers |
| `AcsProtocol` | `cardreader/app/acs_can_protocol.h` | the identifier layout (src, dst, fc, prio, flags), the address plan, the function-code and priority tables |
| `CanDriver` | `cardreader/bsp/can/can_term_driver.c` | the bit-timing search of chapter 8 ("Bit Timing Requirements") of the Bosch CAN Specification 2.0 as two imperative methods over the two-word configuration array, the bus-timing register packing, the frame and filter handed to the ROM driver |
| `StaticCache` | `app/static_cache.c` | the credential cache: four sorted sets in fixed arrays, binary search, shifting insert and erase, the partial reset; classes `CacheSet` and `Cache` proved against pure functions on sequences |
| `TerminalConfig` | `cardreader/app/terminal_config.c` | the even/odd pair of reader addresses, class `AddressConfig` |
| `Wiegand` | `cardreader/bsp/weigand/weigand.c` | HID H10301 26-bit frame decoding and parity, and the interrupt-driven bit accumulator, class `WiegandDevice` |
| `Terminal` | `cardreader/app/terminal.c` | every handler as a pure transition on the terminal's globals that returns the collaborator calls in order, and class `Controller` whose methods are proved to perform exactly those transitions |
| `MasterProto` | `acs-server/src/acs_can_proto.py` | the master's codec: heads, replies, signed little-endian user ids, `process_msg` |
| `Helpers` | `acs-server/src/helpers.py` | `format_data`, with its inverse |
| `Bus` | both ends | frames the master builds, as the terminal's filters and handlers see them, and the other way round |

Calls into collaborators the model cannot see (reader actuation, the status LED, the CAN
transmit routine, the cache, the RTOS delay, reader init/deinit) are recorded as
`Terminal.Effect` values in a call log. Inputs from hardware, storage and the other
tasks are parameters: the GPIO pin states, the stored address word, what
`reader_get_request_from_buffer` and `static_cache_get` return, and what
`reader_is_door_open` reports.

Some facts the proofs bring out, all as the code behaves:

- With caching enabled (`CACHING_ENABLED` is 0 in the shipped header), an identified user
  never causes an auth request. Outside learn mode, while a master is active nothing happens
  at all, and with no master the cache decides. Learn mode still sends a learn request to an
  active master. `Terminal.IdentifiedPolicy` and `Terminal.CachingSendsNoAuthRequest`
  state this.
- `static_cache_reset` clears `CAP` bytes per set. That is `CAP / 4` items of 4 bytes. It
  leaves every length as it was. `StaticCache.ResetIsNotClear` gives an example in which a
  stale entry is still found after a reset and the set is no longer sorted.
- The two comments inside `set_reader_addr` describe the branches the other way round
  (`terminal_config.c:62-71`). The model follows the code: an odd address is B, and A is
  the address minus one.
- Seeds whose ten address bits are 0..3 or 1022..1023 give a reader the reserved, a master
  or the broadcast address (`TerminalConfig.PairIsPanelPair`).
- The master decodes a short user id as signed and answers with its sign extended to four
  bytes. A one-byte id 0x80 comes back as 80 FF FF FF (`MasterProto.ShortIdSignExtended`).
- The master's `MASTER_ALIVE_TIMEOUT` is 12 s (`acs_can_proto.py:145`). The terminal
  header gives `MASTER_ALIVE_TIMEOUT_MS` 10000, twice the 5000 ms period
  (`acs_can_protocol.h:87-88`). The terminal's behaviour is set by its timer: a master is
  dropped after two silent timer periods.

## Model

| member | source | states |
|---|---|---|
| AcsProtocol.LayoutConstants | cardreader/app/acs_can_protocol.h:37-46 | src, dst, fc and prio start at bits 0, 10, 20 and 26 under masks 0x3FF, 0xFFC00, 0x3F00000 and 0x1C000000; flags start at bit 29 |
| AcsProtocol.Unpack | cardreader/app/acs_can_protocol.h:98-109 | reading the head union's members gives fields that each fit their width |
| AcsProtocol.UnpackPack | cardreader/app/acs_can_protocol.h:98-109 | writing fields that fit their widths into the head and reading them back gives the same fields |
| AcsProtocol.UnpackPackTruncates | cardreader/app/acs_can_protocol.h:98-109 | an oversized field is cut to its width and never spills into a neighbouring field |
| AcsProtocol.PackUnpack | cardreader/app/acs_can_protocol.h:98-109 | every 32-bit head is the packing of its own fields, so decoding loses nothing |
| AcsProtocol.MasksPartitionHead | cardreader/app/acs_can_protocol.h:43-46 | the four field masks are pairwise disjoint and together cover exactly the 29 identifier bits |
| AcsProtocol.AddressPlan | cardreader/app/acs_can_protocol.h:29-34 | broadcast is 1023 and reserved is 0; masters are 1..3 and panels 4..1022; no address is in two classes |
| AcsProtocol.FunctionCodesDistinct | cardreader/app/acs_can_protocol.h:49-58 | the ten function codes are 0..9 in listed order, pairwise distinct, each within the 6-bit fc field |
| AcsProtocol.PriorityOrder | cardreader/app/acs_can_protocol.h:61-74 | every priority lies in [MAX_PRIO, LOW_PRIO] = [0, 7]; ALIVE is the most urgent and DOOR_STATUS the least urgent priority in use |
| AcsProtocol.TimeoutIsTwoPeriods | cardreader/app/acs_can_protocol.h:87-88 | the terminal's master timeout is exactly two alive periods |
| CanDriver.Bcr | cardreader/bsp/can/can_term_driver.c:46-52 | the packed bus-timing register fits 15 bits |
| CanDriver.BcrFieldsReadBack | cardreader/bsp/can/can_term_driver.c:46-52 | quanta, SJW, TSEG1 and TSEG2 sit in bits 0-5, 6-7, 8-11 and 12-14 and read back unchanged |
| CanDriver.TimingRegister | cardreader/bsp/can/can_term_driver.c:99-101 | the written register holds quanta - 1 and the low bits of the sjw, tseg1 and tseg2 of the split |
| CanDriver.SegmentsHalf | cardreader/bsp/can/can_term_driver.c:95-98 | the segs - 3 quanta after sync are split into two halves with tseg2 taking the odd one; sjw is tseg1 capped at 3 |
| CanDriver.TimingCalculate | cardreader/bsp/can/can_term_driver.c:80-107 | the prescaler and register of the FIRST divider/quanta/segments combination in loop order whose bit time equals clk / baud are written; with no match the array is untouched |
| CanDriver.FirstMatchExists | cardreader/bsp/can/can_term_driver.c:93 | a first match means the search does not come up empty |
| CanDriver.NominalSamplePoint | cardreader/bsp/can/can_term_driver.c:123-134 | the sample point is 75% above 800 kbit/s, 80% above 500 kbit/s, 87% otherwise |
| CanDriver.SegmentsAtSamplePoint | cardreader/bsp/can/can_term_driver.c:146-153 | tseg2 is clamped to 1..8; tseg1 takes the rest, and for segs == 3 it wraps to 0xFFFFFFFF in unsigned arithmetic; sjw is tseg1 capped at 3 |
| CanDriver.TimingCalculateSamplePoint | cardreader/bsp/can/can_term_driver.c:116-163 | the same first-match search with the segments placed around the nominal sample point; with no match the array is untouched |
| CanDriver.SendOnce | cardreader/bsp/can/can_term_driver.c:227-241 | the frame given to the ROM keeps object and id, has mask 0, and carries the first min(size, 8) data bytes with dlc exactly min(size, 8); only those bytes need to exist |
| CanDriver.RecvFilter | cardreader/bsp/can/can_term_driver.c:201-215 | an extended filter adds the MSGOBJ_EXT bit to both id and mask and keeps every other bit; a standard filter is passed through unchanged |
| CanDriver.DstFilterAcceptsExactlyDst | cardreader/app/terminal.c:459-469 | the filter for an address accepts a frame if and only if it is extended and its dst field is that address |
| StaticCache.SetIndex | app/static_cache.c:53-56 | a key's set is its low two bits, one of the four sets |
| StaticCache.SearchIn | app/static_cache.c:31-50 | a hit gives an index below the length that holds the key; a miss gives an index within 0..length |
| StaticCache.SearchRangeSorted | app/static_cache.c:31-50 | on a sorted window the search hits exactly the keys present, at their index; on a miss it gives the insertion point |
| StaticCache.SearchSorted | app/static_cache.c:31-50 | on a sorted set the search finds a key if and only if it is present; a miss gives the index that keeps the set sorted |
| StaticCache.LookupIn | app/static_cache.c:59-75 | a lookup returns an item only if it is one of the set's items with that key |
| StaticCache.LookupSorted | app/static_cache.c:59-75 | in a sorted set a key at some index is returned with that index's item |
| StaticCache.LookupAbsent | app/static_cache.c:59-75 | in a sorted set a lookup of an absent key finds nothing |
| StaticCache.SameItemsSameLookup | app/static_cache.c:59-75 | two sorted sets holding the same items with a key give the same lookup for that key |
| StaticCache.ShiftInsert | app/static_cache.c:96-103 | the shift moves items from the insertion index one place right and writes the new item at that index; nothing else changes |
| StaticCache.ShiftErase | app/static_cache.c:108-122 | the shift moves items after the erased index one place left; the tail stays as it was |
| StaticCache.InsertInto | app/static_cache.c:78-105 | insertion keeps the length or grows it by one, and never past capacity - 1 |
| StaticCache.InsertExisting | app/static_cache.c:83-86 | a present key's item is overwritten in place; the length stays, the set stays sorted and the new item is found |
| StaticCache.InsertNew | app/static_cache.c:89-103 | an absent key with room: the set gains exactly the new item (a multiset equality), stays sorted, finds it, and every other key looks up as before |
| StaticCache.InsertIntoFull | app/static_cache.c:89-93 | an absent key in a full set overwrites the slot at its insertion point, evicting the next larger key, or lands beyond the length where it is never found |
| StaticCache.EraseFrom | app/static_cache.c:108-122 | erasure keeps the length or shrinks it by one |
| StaticCache.ErasePresent | app/static_cache.c:108-122 | erasing a present key shrinks the set by one; the key is gone and every other key looks up as before |
| StaticCache.ShiftEraseContents | app/static_cache.c:108-122 | after the shift the set holds the old items minus the erased one, as multisets |
| StaticCache.ErasedSorted | app/static_cache.c:108-122 | erasing from a sorted set keeps it sorted |
| StaticCache.EraseAbsent | app/static_cache.c:108-122 | erasing an absent key changes nothing |
| StaticCache.Zeroed | app/static_cache.c:124-130 | the first n items become zero items and the rest are kept |
| StaticCache.ResetIsNotClear | app/static_cache.c:124-130 | with capacity 8 a reset zeroes two items and keeps the length 3; the set is unsorted afterwards, a stale entry is still found, and key 0 looks up as the zero item |
| StaticCache.CacheSet.constructor | app/static_cache.c:18-28 | an empty set over a zero-filled array of the capacity |
| StaticCache.CacheSet.Search | app/static_cache.c:31-50 | the binary-search loop returns what the search specification gives; a hit points at the key, a miss within 0..length |
| StaticCache.CacheSet.Get | app/static_cache.c:59-75 | the result is the lookup of the key in the set's items |
| StaticCache.CacheSet.Insert | app/static_cache.c:78-105 | the new items and length are InsertInto of the old ones; the set keeps a free slot |
| StaticCache.CacheSet.OpenSlot | app/static_cache.c:96-103 | the shift loop leaves the array equal to ShiftInsert of its old contents |
| StaticCache.CacheSet.Erase | app/static_cache.c:108-122 | the new items and length are EraseFrom of the old ones |
| StaticCache.CacheSet.CloseSlot | app/static_cache.c:112-118 | the shift loop leaves the array equal to ShiftErase of its old contents |
| StaticCache.CacheSet.ZeroPrefix | app/static_cache.c:124-130 | the memset leaves the array equal to Zeroed of its old contents |
| StaticCache.Cache.constructor | app/static_cache.c:18-28 | four distinct empty, zero-filled sets of equal capacity |
| StaticCache.Cache.SetFor | app/static_cache.c:53-56 | a key maps to the set its low two bits select |
| StaticCache.Cache.Get | app/static_cache.c:59-75 | a lookup searches only the key's set |
| StaticCache.Cache.Insert | app/static_cache.c:78-105 | an insert changes only the key's set, exactly as InsertInto says; the other three sets are unchanged |
| StaticCache.Cache.Erase | app/static_cache.c:108-122 | an erase changes only the key's set, exactly as EraseFrom says; the other three sets are unchanged |
| StaticCache.Cache.Reset | app/static_cache.c:124-130 | every set's first cap / 4 items are zeroed and no length changes |
| TerminalConfig.Pair | cardreader/app/terminal_config.c:58-72 | A is even, B = A + 1, both within 10 bits, and the masked seed is one of the two |
| TerminalConfig.PairReference | cardreader/app/terminal_config.c:58-72 | the pair is the masked seed with its low bit cleared, and then set |
| TerminalConfig.PairRoundTrip | cardreader/app/terminal_config.c:49-72 | reloading the stored A address, or B, selects the same pair |
| TerminalConfig.PairIsPanelPair | cardreader/app/terminal_config.c:58-72 | both readers get panel addresses if and only if the masked seed is in 4..1021 |
| TerminalConfig.AddressConfig.constructor | cardreader/app/terminal_config.c:19-20 | the addresses start at 4 and 5 |
| TerminalConfig.AddressConfig.SetReaderAddr | cardreader/app/terminal_config.c:58-72 | the fields become the seed's pair and keep the pair shape |
| TerminalConfig.AddressConfig.LoadFromStorage | cardreader/app/terminal_config.c:33-47 | success if and only if the read succeeds, and then the stored word's pair; otherwise the addresses are kept |
| TerminalConfig.AddressConfig.Init | cardreader/app/terminal_config.c:74-113 | a non-zero local address is applied and its A address stored; a zero one loads the pair from storage, keeping the old pair on failure |
| Wiegand.Facility | cardreader/bsp/weigand/weigand.c:114-117 | the facility code is below 256 |
| Wiegand.Card | cardreader/bsp/weigand/weigand.c:119-122 | the card number is below 65536 |
| Wiegand.Parity | cardreader/bsp/weigand/weigand.c:124-129 | the parity of a word is a single bit |
| Wiegand.ParityOkAssemble | cardreader/bsp/weigand/weigand.c:124-129 | a frame passes the parity check if and only if bit 25 is the even parity of bits 13-24 and bit 0 the odd parity of bits 1-12 |
| Wiegand.FieldsOfAssemble | cardreader/bsp/weigand/weigand.c:114-122 | the facility code and card number are read back whatever the parity bits |
| Wiegand.DecodeEncode | cardreader/bsp/weigand/weigand.c:114-129 | an encoded frame decodes to its facility code and card number and passes the parity check |
| Wiegand.EncodeDecode | cardreader/bsp/weigand/weigand.h:11-12 | every 26-bit frame that passes the parity check is the encoding of its own fields |
| Wiegand.CredentialId | cardreader/bsp/reader.c:192-194 | the user id is below 2^24, with the facility code in its top byte and the card number in its low 16 bits |
| Wiegand.BinaryValue | cardreader/bsp/weigand/weigand.c:148-165 | n bits read most significant first give a number below 2^n |
| Wiegand.AppendBit | cardreader/bsp/weigand/weigand.c:148-165 | setting or clearing the bit below the received ones appends that bit to the received number |
| Wiegand.EdgeBit | cardreader/bsp/weigand/weigand.c:148-169 | a pending D1 edge with its line low gives a 1; otherwise a pending D0 edge with its line low gives a 0; anything else gives no bit |
| Wiegand.WiegandDevice.constructor | cardreader/bsp/weigand/weigand.c:55-95 | an empty frame with 26 bits to come, an empty queue and the timer stopped |
| Wiegand.WiegandDevice.FrameTimeout | cardreader/bsp/weigand/weigand.c:38-53 | the partial frame is dropped and the accumulator restarts; the queue is kept |
| Wiegand.WiegandDevice.ShiftIn | cardreader/bsp/weigand/weigand.c:148-165 | the pointer moves down one, the bit is appended to the received bits, and the word holds them above the pointer |
| Wiegand.WiegandDevice.IntHandler | cardreader/bsp/weigand/weigand.c:141-202 | no bit leaves everything as it was; a bit is appended; the 26th bit queues the frame word when the buffer has room, stops the timer and starts over |
| Wiegand.WiegandDevice.Deliver | cardreader/bsp/weigand/weigand.c:171-197 | the complete frame is queued unless the buffer is full, and the accumulator is emptied |
| Wiegand.FrameWordBound | cardreader/bsp/weigand/weigand.h:29 | a queued frame word fits 26 bits |
| Wiegand.FrameComplete | cardreader/bsp/weigand/weigand.c:171-190 | once the pointer is 0 the word is the whole received frame |
| Wiegand.BinaryValueBit | cardreader/bsp/weigand/weigand.c:148-165 | bit i of the accumulated number is the i-th bit counted back from the last one received |
| Wiegand.FrameWordBit | cardreader/bsp/weigand/weigand.c:171-190 | bit i of a queued frame word is received bit 25 - i, so the first bit is bit 25 (even parity) and the last is bit 0 (odd parity), the positions the decoders read |
| Terminal.CacheValues | cardreader/app/terminal.c:41-47 | NONE opens no reader and ALL opens both; A and B each open exactly their own reader, and a reader's own value opens it |
| Terminal.OneTickTolerated | cardreader/app/terminal.c:90-109 | a tick with the timeout flag clear only sets the flag |
| Terminal.TwoTicksDropMaster | cardreader/app/terminal.c:90-109 | two ticks in a row drop the active master and turn the status LED off |
| Terminal.ReceivedUserId | cardreader/app/terminal.c:186-188 | the id read from a response fits 32 bits |
| Terminal.ReceivedUserIdBytes | cardreader/app/terminal.c:186-188 | the low min(dlc, 4) bytes of the id are the received bytes; a response of 4 or more bytes determines the id completely |
| Terminal.AliveAdoption | cardreader/app/terminal.c:163-175 | an ALIVE from a master always clears the flag; it adopts the sender, lights the LED and requests a cache clear exactly when the flag was set; nothing else changes |
| Terminal.MasterTakeover | cardreader/app/terminal.c:90-109 | after one silent tick, an ALIVE from any master address takes over, even from another active master |
| Terminal.FramesDropped | cardreader/app/terminal.c:144-178 | frames on other objects, non-ALIVE broadcasts, frames for a disabled reader and unhandled function codes change nothing; only a broadcast changes the master |
| Terminal.AuthResponses | cardreader/app/terminal.c:181-208 | an AUTH_RESP unlocks the reader and, with caching, caches the user with the reader's bit; a NOT_AUTH_RESP never unlocks and caches the user with no reader |
| Terminal.DoorCommands | cardreader/app/terminal.c:213-240 | REMOTE_UNLCK unlocks; LEARN/NORMAL_MODE set or clear only that reader's learn mode and signal; CLR_CACHE only raises the request, with caching; other bytes do nothing |
| Terminal.RequestHeadFields | cardreader/app/terminal.c:253-258 | the terminal's head reads back the 10-bit addresses, fc and prio, and carries the extended flag |
| Terminal.SendToMasterFrame | cardreader/app/terminal.c:245-302 | without a master nothing is sent; with one, exactly one frame leaves on the reader's object, from the reader's address to the master, with the whole payload |
| Terminal.SendersFollowTables | cardreader/app/terminal.c:245-331 | door status, auth request and learn request use fc 5/1/7 and prio 4/2/2; the payload is the status byte or the id's four little-endian bytes |
| Terminal.IdentifiedPolicy | cardreader/app/terminal.c:334-362 | nothing for a disabled reader; learn mode sends a learn request; caching off sends an auth request; caching on unlocks if and only if there is no master and the cached value allows the reader, and does nothing while a master is active |
| Terminal.CachingSendsNoAuthRequest | cardreader/app/terminal.c:334-362 | with caching on, an identification never sends an auth request |
| Terminal.ScanOne | cardreader/app/terminal.c:422-430 | a reader's check changes at most the door flags |
| Terminal.ScanDoors | cardreader/app/terminal.c:417-432 | the door scan changes at most the door flags |
| Terminal.ScanOneSyncs | cardreader/app/terminal.c:422-430 | an enabled reader's flag follows its door, and a change is reported with the new state |
| Terminal.ScanDoorsSyncs | cardreader/app/terminal.c:417-432 | after the scan each enabled reader's flag equals its door and a disabled reader's flag is kept; exactly the changed doors are reported, in reader order, and nothing is reported without a master |
| Terminal.PeriodDelay | cardreader/app/terminal.c:406-413 | there is a delay if and only if the iteration took less than 1000 ms, and it tops the iteration up to 1000 ms |
| Terminal.Prelude | cardreader/app/terminal.c:383-413 | the request polls, the cache clear and the delay keep the globals well formed |
| Terminal.DoorStatusCadence | cardreader/app/terminal.c:374-432 | the door-status counter stays within 1..5 and never wraps; the doors are scanned on the first iteration and on every fifth one after |
| Terminal.IterationCounter | cardreader/app/terminal.c:367-434 | one iteration advances the counter one step, keeps master, flag and reader configuration, clears a pending cache-clear request exactly with caching, and resets the cache exactly then |
| Terminal.ServedEffects | cardreader/app/terminal.c:383-395 | the request loop only sends frames or unlocks |
| Terminal.ScanEffects | cardreader/app/terminal.c:417-432 | the door scan only sends frames |
| Terminal.Reconfigured | cardreader/app/terminal.c:487-517 | an out-of-range index is ignored; a new configuration is stored and the reader initialised if and only if it is enabled, else deinitialised; a missing one keeps the state and initialises the reader |
| Terminal.MasterKeptWhileAlive | cardreader/app/terminal.c:90-175 | a master that announces itself between any two timer expiries stays the active master while no other master address sends ALIVE |
| Terminal.SilenceDropsMaster | cardreader/app/terminal.c:90-109 | two timer expiries in a row drop any master, whatever happened before |
| Terminal.Controller.constructor | cardreader/app/terminal.c:50-65 | no master, the timeout flag set, doors closed, the counter at 5 |
| Terminal.Controller.TimerCallback | cardreader/app/terminal.c:90-109 | the globals and call log move exactly as TimerTick says |
| Terminal.Controller.CanRecv | cardreader/app/terminal.c:130-242 | the globals and call log move exactly as OnRecv says |
| Terminal.Controller.SendToActiveMaster | cardreader/app/terminal.c:245-302 | the globals are kept and the log gains the SendToMaster frames |
| Terminal.Controller.SendDoorStatus | cardreader/app/terminal.c:245-273 | the globals are kept and the log gains the door-status message |
| Terminal.Controller.RequestAuth | cardreader/app/terminal.c:276-302 | the globals are kept and the log gains the auth request |
| Terminal.Controller.RequestUserLearn | cardreader/app/terminal.c:305-331 | the globals are kept and the log gains the learn request |
| Terminal.Controller.UserIdentified | cardreader/app/terminal.c:334-362 | the globals are kept and the log gains what the identification policy calls for |
| Terminal.Controller.ServePending | cardreader/app/terminal.c:383-395 | the request loop adds exactly the calls of the polls of the enabled slots, in order |
| Terminal.Controller.ReportDoorChanges | cardreader/app/terminal.c:417-432 | the door loop performs exactly the door-scan transition |
| Terminal.Controller.CheckDoor | cardreader/app/terminal.c:422-430 | one reader's door check performs exactly that reader's transition |
| Terminal.Controller.ServeAndWait | cardreader/app/terminal.c:383-413 | the part before the door check performs exactly the Prelude transition |
| Terminal.Controller.TaskIteration | cardreader/app/terminal.c:367-434 | one loop iteration performs exactly the LoopIteration transition, counter included |
| Terminal.Controller.Reconfigure | cardreader/app/terminal.c:487-517 | the globals and call log move exactly as Reconfigured says |
| MasterProto.NewProto | acs-server/src/acs_can_proto.py:187-198 | a constructed codec holds a master address |
| MasterProto.NewProtoAccepts | acs-server/src/acs_can_proto.py:195-198 | construction succeeds if and only if the address is in 1..3, and keeps it |
| MasterProto.FiltersSelect | acs-server/src/acs_can_proto.py:200-205 | a frame passes the installed filters if and only if it is extended and addressed to this master or to broadcast |
| MasterProto.ParseMsg | acs-server/src/acs_can_proto.py:212-248 | parsing a built head gives each argument cut to its field width, and the extended flag is set |
| MasterProto.ParseMsgInRange | acs-server/src/acs_can_proto.py:212-248 | arguments within their widths come back unchanged |
| MasterProto.LayoutAgrees | acs-server/src/acs_can_proto.py:175-178 | the terminal decodes a master head to the same fields; the masks are the terminal's |
| MasterProto.TablesAgree | acs-server/src/acs_can_proto.py:121-153 | every function code, priority and data byte defined on both sides, the reserved ones and those of frames the master receives included, has the terminal's value |
| MasterProto.ToBytesSigned | acs-server/src/acs_can_proto.py:224 | a successful encoding has exactly n bytes |
| MasterProto.SignedRoundTrip | acs-server/src/acs_can_proto.py:224 | encoding succeeds if and only if the value is in the n-byte signed range, and decoding undoes it |
| MasterProto.BytesRoundTrip | acs-server/src/acs_can_proto.py:260 | decoding n bytes lands in the signed range, and encoding gives the same bytes back |
| MasterProto.ShortIdFits | acs-server/src/acs_can_proto.py:260-262 | an id decoded from at most four bytes always encodes into four again |
| MasterProto.AuthAnswerEchoes | acs-server/src/acs_can_proto.py:258-264 | answering the id four bytes decode to gives back those same bytes, under fc 3 or 2 at prio 2 |
| MasterProto.AuthReplies | acs-server/src/acs_can_proto.py:222-228 | the auth replies go to the reader at prio 2 with fc 3 or 2 and carry the id in four bytes that decode to it; an id outside 32 signed bits is refused |
| MasterProto.ControlMessages | acs-server/src/acs_can_proto.py:230-240 | unlock and clear-cache go to the reader at prio 3, fc 4, with the one byte 0x01 or 0x02; ALIVE goes to 1023 at prio 1, fc 6, dlc 0 |
| MasterProto.UnservedIgnored | acs-server/src/acs_can_proto.py:254-257 | a head that is not extended, not from a panel or at reserved priority gives NO_MESSAGE and no callback; served means exactly those three |
| MasterProto.AuthRequestAnswered | acs-server/src/acs_can_proto.py:258-264 | a served auth request asks the callback about (src, id) and replies to src, OK when approved, dlc 4; a 4-byte request is echoed byte for byte |
| MasterProto.ShortIdSignExtended | acs-server/src/acs_can_proto.py:260-262 | the one-byte id 0x80 is answered as 80 FF FF FF |
| MasterProto.DoorStatusReported | acs-server/src/acs_can_proto.py:265-272 | a served door status reports (src, first byte == 0x02) and returns NO_MESSAGE; any other function code returns NO_MESSAGE without a callback |
| Helpers.Hex2 | acs-server/src/helpers.py:5-7 | each byte is two characters |
| Helpers.FormatData | acs-server/src/helpers.py:5-7 | the text has two characters per byte |
| Helpers.Hex2ReadBack | acs-server/src/helpers.py:5-7 | a byte's two digits read back as the byte |
| Helpers.Hex2Lowercase | acs-server/src/helpers.py:5-7 | the digits are lowercase hexadecimal |
| Helpers.FormatDataDigits | acs-server/src/helpers.py:5-7 | byte i becomes characters 2i and 2i+1, in input order |
| Helpers.FormatDataAppend | acs-server/src/helpers.py:5-7 | formatting distributes over concatenation, and empty input gives the empty string |
| Helpers.ParseFormat | acs-server/src/helpers.py:5-7 | parsing the text gives the bytes back |
| Helpers.FormatDataInjective | acs-server/src/helpers.py:5-7 | distinct byte strings give distinct text |
| Bus.ConfiguredReaderAddrs | cardreader/app/terminal_config.c:58-72 | the reader addresses the handlers use, taken from the configured pair, are A even and B = A + 1, both below 1024, so they fit the dst field of filters and replies |
| Bus.TerminalHeadAtMaster | cardreader/app/terminal.c:253-258 | a terminal head reaches the master with the same fields, marked extended |
| Bus.MasterHeadAtTerminal | acs-server/src/acs_can_proto.py:212-220 | a master head reaches the terminal with the same fields, marked extended |
| Bus.AliveReachesTerminal | acs-server/src/acs_can_proto.py:238-240 | the master's ALIVE passes the broadcast filter and is handled as an ALIVE from that master |
| Bus.ReplyAccepted | cardreader/app/terminal.c:459-469 | a prio-2 master reply to a reader's address carries its fc and passes that reader's filter |
| Bus.AuthReplyHandled | cardreader/app/terminal.c:181-208 | a four-byte auth reply on a reader's object unlocks exactly when approved and, with caching, caches the id it carries |
| Bus.ReplyFrameId | acs-server/src/acs_can_proto.py:258-264 | the master's answer has the prio-2 head with fc 3 or 2 to the reader's address |
| Bus.ReplyPassesFilter | cardreader/app/terminal.c:459-469 | the master's answer passes the filter of the reader it names |
| Bus.ReplyHandled | acs-server/src/acs_can_proto.py:258-264 | the master's answer, received there, unlocks exactly when approved and caches the very id the request carried |
| Bus.RequestSent | cardreader/app/terminal.c:276-302 | with caching off, a user identified in normal mode while a master is active produces exactly one auth request frame carrying the id's four bytes |
| Bus.RequestHeadServed | acs-server/src/acs_can_proto.py:254-258 | an auth request from a panel address is served by the master, from that address |
| Bus.RequestServed | acs-server/src/acs_can_proto.py:251-264 | the master asks its callback about the sender and the id the four bytes hold, and answers the sender with the same four bytes |

## Left out

- I/O, the RTOS and concurrency: tasks, queues, interrupts and timers are sequential calls. The model does not capture interleavings of `term_can_recv`, `_timer_callback` and `terminal_task`.
- Real time: the iteration's processing time is the `elapsed` input, and `vTaskDelay` is the recorded `Delay` effect.
- Terminal.ReceivedUserId: the bytes of the local id that a response shorter than four bytes leaves unwritten are the `stale` input. The firmware reads whatever the variable held.
- Terminal.Identified: `static_cache_get`'s answer is the `cached` input, and `reader_get_request_from_buffer`'s result is the `Request` input. The cache itself is modelled in `StaticCache`.
- Terminal.ScanDoors: `reader_is_door_open` is the `doorOpen` input.
- Reader actuation, the status LED, `reader_init` and `reader_deinit` are recorded calls. The reader module is not part of this model, apart from the credential id at `reader.c:192-194`.
- Terminal.OnReaderFrame: the cache key recorded in `CacheInsert` is the whole received user id, and the same holds for `Terminal.Controller.CanRecv` and `StaticCache.Item.key`. The firmware stores the id into the key field of a 4-byte cache item, whose definition is not part of this model, so ids that agree in the key field's bits would share one entry there. The model is exact only while ids fit that field; Wiegand credential ids are below 2^24 (`Wiegand.CredentialId`).
- StaticCache.Cache.Reset: the memset clears `CAP` bytes. The model zeroes `CAP / 4` whole items of 4 bytes, the item size the terminal uses. It does not model a byte count that ends inside an item.
- Wiegand.WiegandDevice: the frame word is a natural number below 2^26 instead of a 32-bit union. The GPIO interrupt states and pin reads are inputs. Starting and stopping the timer is a boolean field. The stream buffer is a bounded sequence.
- Wiegand.FrameWordBit: bit positions are stated on the frame word as a number. The step from that number to the 32-bit word that `Facility`, `Card`, `ParityOk` and `CredentialId` take is not proved, so the chain from interrupts to user id is joined by bit position, not by one lemma.
- `weigand_pending_frame` and `weigand_get_frame` are trivial accessors and are not modelled.
- `_125_kbaud_75sp` is not modelled, because nothing calls it.
- `CAN_recv_filter_all_ext` and `CAN_send_test` are not modelled, because the core calls neither.
- The ROM driver's `init`, `config_rxmsgobj` and `can_transmit` are represented by the values handed to them.
- `CAN_MSGOBJ_EXT` (bit 29) and Linux SocketCAN's `CAN_EFF_FLAG` (bit 31) are platform constants taken as given.
- TerminalConfig.AddressConfig.Init: the UART dialogue for entering an address locally is the `localAddr` input. That includes the switch `ENABLE_LOCAL_ACS_ADDR_WRITE` and the byte handling. The storage read and write are the `read` and `writeOk` inputs.
- `terminal_init` is not modelled as one operation. Its three receive filters appear in `Bus` and `CanDriver.DstFilterAcceptsExactlyDst`. Driver, timer and task creation are left out.
- `term_can_error` and `term_can_send` are not modelled. The first resets the board by watchdog on bus-off, and the second does nothing.
- `get_reader_a_addr` and `get_reader_b_addr` read the class fields and are not separate members.
- MasterProto.ProcessMsg: `msg_len` is not read, as in the source. The Python callbacks are inputs: whether one is registered, and the answer it gives. Socket creation and binding are left out.
- MasterProto: the master's `MASTER_ALIVE_TIMEOUT` of 12 s is a constant that no modelled code reads.
- MasterProto.Msg: head arguments are 32-bit vectors. Python integers are unbounded, but `__msg` only shifts, masks and ORs them and then keeps 32 bits. Only each argument's low 32 bits can matter, so the model is exact for every Python int.
