# Verified model of the device firmware

This project models the parts of the firmware whose correctness depends on state, order
or arithmetic, and proves what they promise for every input, every run or every
interleaving. The firmware itself is not part of it.

| files | what they model |
|---|---|
| `Relay.dfy`, `Switch.dfy` | the relay, the Matter attribute that shows it, and the three threads that keep both equal |
| `ByteStreams.dfy`, `EntryTable.dfy`, `Config*.dfy`, `Numbers32.dfy` | the crash-safe key/value store with two slots: images, service, power loss, and whole runs of service calls |
| `Crc.dfy`, `CrcPolynomial.dfy`, `CrcCheck.dfy`, `Frame.dfy`, `Bytes8.dfy` | CRC-16 and CRC-32 as loops and as polynomial remainders, and the frame codec |
| `JsonText.dfy`, `JsonKeys.dfy`, `Json.dfy` | the JSON writer and scanner, and the keys they work for |
| `RingBuffer.dfy`, `Topics.dfy`, `Messaging.dfy`, `Telemetry.dfy`, `Dispatcher.dfy`, `Recent.dfy` | store-and-forward messaging, telemetry and idempotent commands |
| `Ota.dfy` | the over-the-air update machine |
| `Claim.dfy`, `Gatt.dfy` | the claim protocol and its Bluetooth session |
| `Stores.dfy` | the two write-behind stores in flash |
| `Network.dfy`, `Button.dfy` | retries of network links, and the debounced button |
| `Uhal.dfy` | status codes and the wrapping millisecond counter |

## How to read it

- An object whose methods update fields is a class with those fields. Its methods state
  their whole result, either outright or as the value of a pure step function; what the
  firmware promises is then proved about that function and about the invariant that every
  method keeps.
- Hardware, network, flash and cryptography are ports. What a port answers is a parameter
  of the call, so a theorem holds for all answers; what a port was asked is a log. Parameters
  and fields marked ghost belong to an observer: true time, histories, counts that never wrap.
- Time: a `uint32_t` millisecond counter is the true time modulo 2^32. Its differences and
  signed comparisons are written out in `Uhal.dfy`.
- Threads (`Relay.dfy`, `Stores.dfy`): one atomic step for each access to shared state, any
  order, sequentially consistent. Matter work items and attribute callbacks run one at a
  time. The timer task runs one callback at a time.
- C strings are sequences without NUL. `char` is unsigned, as on the target.
- CRC-16 is that of section 2.5.1.2 of the MODBUS over Serial Line Specification and
  Implementation Guide V1.02, CRC-32 that of section 8 of RFC 1952. HMAC (section 2 of
  RFC 2104) is any function. JSON strings are the subset of section 7 of RFC 8259 that the
  writer prints: control characters are not escaped, and the scanner turns a backslash and
  any character into that character.

## Where the code falls short of what one might expect

Each of these is a proved member with a concrete run or an exact condition.

- A command response can be lost: a droppable reading evicts the oldest record of a full
  queue whatever it is (`Messaging.ReadingEvictsOldest`).
- A commit is lost at a restart exactly when the 32-bit sequence number wraps
  (`ConfigCrash.CommitSurvivesRestart`).
- A start-up that cannot read the slot in use silently adopts the table before, and the next
  commit erases the newer one; the committed table comes back exactly if the slot in use is
  read (`ConfigCrash.RestartIsExact`). Failing reads that claim blank slots give an empty table
  (`ConfigCrash.BlankReadsForget`).
- The frame encoder never writes the byte between payload and CRC, although the CRC covers
  it; decoding is unaffected (`FrameCodec.WireDecodes`), and works for payloads of at most
  255 bytes only.
- JSON keys can be confused by the scanner. A key without a quote is safe next to good keys
  exactly if no colon follows its leading blanks and it is not a printed text with one more
  backslash (`JsonKeys.KeyIsSafe`, `JsonKeys.EscapesQuoteMeans`); a key that holds a quote
  hides every good key that it ends with (`JsonKeys.QuoteKeyIsConfused`).
- The size test of the update machine is exact only for images that leave room for one chunk
  below 2^32 (`Ota.SizeTestIsExact`).
- A failed claim challenge of the connection that may read does not revoke its proof if it
  was refused, for its length say, before it reached the protocol
  (`Gatt.FailureRevokesIffPut`). The end of the window does not revoke it either
  (`Gatt.RhophiClaimGatt.ReadState`).
- A random call that fails still replaces the nonce, and an open window goes on with it: any
  value can be released twice, even in the same proof (`Claim.SpoiledNonceIsReused`). Nonces
  of successful calls are never reused (`Claim.RunReleasesFresh`).
- A claim window that nobody looks at for 2^31 ms after its end is found open again
  (`Claim.CheckWithinTurn`).
- A failed timer start drops an earlier save that had reported success
  (`BinaryStore.SuccessfulSaveIsLost`; `BinaryStore.AtRestFlashIsLastSave` has the exact
  condition for the last save), and a clear of the claim state can be undone by
  a request in the worker's hand (`ClaimStore.ClearCanLose`).
- A failed `ScheduleWork` loses a report of the relay (`Relay.FailedScheduleLosesReport`).
- A press of more than 49 days is classified by its remainder (`Button.HoldIsExact`).

## Model

| member | source | states |
|---|---|---|
| `Relay.QuiescentAgree` | app/product_smart_device/src/connectivity/MatterNode.cpp:104-114 | After any interleaving of edges, presses, remote writes, reports and start-up: once the queue is empty, the threads idle and no report scheduled, pending state equals relay and the flag is clear, and the attribute equals both unless a failed call dropped a report |
| `Relay.NothingDropped` | app/product_smart_device/src/connectivity/MatterNode.cpp:256-267 | In a run whose `ScheduleWork` and attribute updates all succeed nothing is dropped, so the attribute always agrees at rest |
| `Relay.StepKeeps` | app/product_smart_device/src/connectivity/MatterNode.cpp:256-298 | The invariant every step of every thread keeps: the flag stands for exactly one holder, and a report that will see the relay state is coming, or a command that changes it waits, or the attribute already agrees |
| `Relay.ReceiveKeeps` | app/product_smart_device/src/runtime/SwitchRuntime.cpp:71-85 | Taking an event from the queue keeps the invariant, even if it is the waiting command |
| `Relay.RuntimeKeeps` | app/product_smart_device/src/connectivity/MatterNode.cpp:109-114 | The runtime task's store, look at `started_`, exchange and scheduling keep it |
| `Relay.MatterKeeps` | app/product_smart_device/src/connectivity/MatterNode.cpp:283-298 | Load, update, clear and recheck in `report_state`, and the end of a remote write, keep it |
| `Relay.StartupKeeps` | app/product_smart_device/src/connectivity/MatterNode.cpp:79-106 | Creating the attribute from the pending state, starting, and the first report keep it |
| `Relay.OutsideKeeps` | app/product_smart_device/src/runtime/SwitchRuntime.cpp:49-106 | Edges, presses and remote writes, accepted or refused by the full queue, keep it |
| `Relay.RunKeeps` | app/product_smart_device/src/connectivity/MatterNode.cpp:256-298 | The invariant in every reachable state |
| `Relay.StepRanksDown` | app/product_smart_device/src/runtime/SwitchRuntime.cpp:71-85 | Whatever thread steps, without new input a measure decreases: reports cannot chase each other for ever |
| `Relay.PickIsEnabled` | app/product_smart_device/src/connectivity/MatterNode.cpp:256-298 | There is no deadlock: a node that is not at rest can take a step |
| `Relay.SettlesInAgreement` | app/product_smart_device/src/connectivity/MatterNode.cpp:283-298 | Left to itself the node comes to rest with every queued command carried out and attribute, pending state and relay equal |
| `Relay.FailedScheduleLosesReport` | app/product_smart_device/src/connectivity/MatterNode.cpp:260-266 | In every settled state, one press whose `ScheduleWork` fails leaves the attribute wrong at rest |
| `Relay.RemoteWriteIsCarriedOut` | app/product_smart_device/src/connectivity/MatterNode.cpp:173-175 | A write from outside is taken whenever the stack is idle and the queue has room, and the node then comes to rest with relay, pending state and attribute at the value written |
| `Relay.PressIsCarriedOut` | app/product_smart_device/src/runtime/SwitchRuntime.cpp:87-106 | A short press flips the relay at once, and the node comes to rest showing it, after the commands that wait |
| `Relay.EdgeIsQueued` | app/product_smart_device/src/runtime/SwitchRuntime.cpp:57-64 | An edge is queued behind what waits and changes no relay |
| `Relay.FullQueueRefuses` | app/product_smart_device/src/runtime/SwitchRuntime.cpp:49-64 | With eight items waiting, a write from outside and an edge change nothing |
| `Relay.StepDropsNothing` | app/product_smart_device/src/connectivity/MatterNode.cpp:256-267 | Only a failing call can drop a report |
| `Switch.ObserverIsExact` | app/product_smart_device/src/application/SmartDeviceApplication.cpp:22-53 | Over any commands and failures the observer hears every change and nothing else: notifications alternate and the last one is the state |
| `Switch.OutputsFollow` | app/product_smart_device/src/application/SmartDeviceApplication.cpp:22-39 | Whatever fails, both outputs were last driven to the relay state; if all ports answer ok, the store holds it too |
| `Switch.PowerCycle` | components/middleware/services/binary_switch/src/BinarySwitchService.cpp:12-55 | A service that restores from what the store then holds comes up in the state the commands led to, with both outputs driven to it |
| `Switch.BinarySwitchService.Set` | components/middleware/services/binary_switch/src/BinarySwitchService.cpp:26-35 | The state changes even if driving or saving fails; it is saved only when both outputs took it |
| `Switch.BinarySwitchService.Apply` | components/middleware/services/binary_switch/src/BinarySwitchService.cpp:47-55 | Both outputs are driven, whatever the first answers |
| `Switch.BinarySwitchService.Restore` | components/middleware/services/binary_switch/src/BinarySwitchService.cpp:12-24 | The stored state, or off if it cannot be loaded, is applied |
| `Switch.BinarySwitchService.Toggle` | components/middleware/services/binary_switch/src/BinarySwitchService.cpp:37-40 | Sets the opposite state |
| `Switch.SmartDeviceApplication.Initialize` | app/product_smart_device/src/application/SmartDeviceApplication.cpp:12-20 | The restored state is announced, if there is an observer, exactly if it could be applied |
| `Switch.SmartDeviceApplication.OnShortPress` | app/product_smart_device/src/application/SmartDeviceApplication.cpp:22-28 | A press flips the state and announces it to an observer |
| `Switch.SmartDeviceApplication.SetSwitch` | app/product_smart_device/src/application/SmartDeviceApplication.cpp:30-39 | A command for the present state does nothing at all; any other changes and announces it |
| `ConfigCrash.RunRestores` | components/middleware/services/configuration/src/ConfigService.cpp:40-67 | After any run of edits, commits, failed commits, power cuts and restarts, whatever the reads of each start-up answer as long as a failing one does not claim a blank slot: a restart that reads the slot in use finds exactly the table committed last or one of a newer image, never a mixture; one that cannot read it may find the table before, or fail; with both reads it never fails |
| `ConfigCrash.CutIsAtomic` | components/middleware/services/configuration/src/ConfigService.cpp:157-167 | Power loss inside a commit: the table being committed if its image is complete, the committed one otherwise |
| `ConfigCrash.CommitSurvivesRestart` | components/middleware/services/configuration/src/ConfigService.cpp:60-61 | A commit, also the first one of a fresh device, survives a restart if and only if the sequence number does not wrap; at the wrap the restart returns to the previous table |
| `ConfigCrash.NeverWraps` | components/middleware/services/configuration/src/ConfigService.cpp:157-167 | Fewer than 2^32 - 1 steps from a fresh device never meet that wrap |
| `ConfigCrash.SequenceBound` | components/middleware/services/configuration/src/ConfigService.cpp:157-167 | The sequence number grows by at most one a step |
| `ConfigCrash.StepKeeps` | components/middleware/services/configuration/src/ConfigService.cpp:157-167 | Every step keeps the slots consistent with what must be remembered |
| `ConfigCrash.RestartRestores` | components/middleware/services/configuration/src/ConfigService.cpp:42-66 | What one start-up adopts: the committed, the attempted or the previous table, the last only if the slot in use was not read; and the slots stay consistent with what must be remembered |
| `ConfigCrash.RestartIsExact` | components/middleware/services/configuration/src/ConfigService.cpp:47-62 | Both slots readable and nothing attempted: the committed table comes back if and only if the read of the slot in use answers ok - or by chance, the other table being the same, or both being empty; if only the other slot is read, start-up succeeds with the previous table |
| `ConfigCrash.BlankReadsForget` | components/middleware/services/configuration/src/ConfigService.cpp:49-58 | Failing reads that both claim blank slots give an empty table, and the next commit, though successful, can be gone after a restart |
| `ConfigCrash.DamagedSlotFallsBack` | components/middleware/services/configuration/src/ConfigService.cpp:47-62 | A change inside four consecutive bytes of the slot in use sends start-up to the other slot, if that one is readable |
| `ConfigCrash.FreshIsConsistent` | components/middleware/services/configuration/src/ConfigService.cpp:49-58 | Two unreadable slots are the empty table |
| `ConfigCrash.CommitTakesStep` | components/middleware/services/configuration/src/ConfigService.cpp:256-260 | What the storage operations of a commit leave, each succeeding, failing or never started, is what this model allows |
| `ConfigCrash.CommitIsStep` | components/middleware/services/configuration/src/ConfigService.cpp:157-167 | The device after a commit is that of the step `Commit` or `Fail` |
| `ConfigCrash.CutIsStep` | components/middleware/services/configuration/src/ConfigService.cpp:256-260 | A restart behind a commit, whatever became of it, is the step `Cut` |
| `ConfigRun.ConfigNode.Set` | components/middleware/services/configuration/src/ConfigService.cpp:84-106 | On a running node: the table changes as the service promises, and the run is one `Edit` longer |
| `ConfigRun.ConfigNode.Remove` | components/middleware/services/configuration/src/ConfigService.cpp:148-155 | The same for erasing |
| `ConfigRun.ConfigNode.Commit` | components/middleware/services/configuration/src/ConfigService.cpp:157-167 | The run is one `Commit` or `Fail` longer; the committed table is the one in RAM exactly if the commit succeeded |
| `ConfigRun.ConfigNode.Restart` | components/middleware/services/configuration/src/ConfigService.cpp:40-67 | A new service over the same storage starts with the committed, the attempted or the previous table; the run is one `Restart` longer |
| `ConfigRun.ConfigNode.Cut` | components/middleware/services/configuration/src/ConfigService.cpp:256-260 | Power loss in the service's own commit: with both reads, the new table if its image is complete, else the committed one |
| `ConfigImage.SlotRoundTrip` | components/middleware/services/configuration/src/ConfigService.cpp:189-261 | Writing a slot and reading it back gives the same table and sequence number, used keys distinct, records compacted |
| `ConfigImage.DecodeImage` | components/middleware/services/configuration/src/ConfigService.cpp:189-225 | Reading an image yields the used entries in order |
| `ConfigImage.ParseFlat` | components/middleware/services/configuration/src/ConfigService.cpp:209-223 | Parsing the encoded records yields those records |
| `ConfigImage.ContentFits` | components/middleware/services/configuration/src/ConfigService.cpp:240-250 | The content of any well-formed table fits in front of the CRC, so encoding never runs out of room |
| `ConfigImage.BurstIsCorrupt` | components/middleware/services/configuration/src/ConfigService.cpp:196-200 | An image that differs from a written one only inside four consecutive bytes, CRC included, is reported corrupt |
| `ConfigImage.ErasedIsCorrupt` | components/middleware/services/configuration/src/ConfigService.cpp:205-207 | A fully erased slot is rejected by the magic number, without assuming anything of the CRC |
| `ConfigImage.ImageLayout` | components/middleware/services/configuration/src/ConfigService.cpp:227-254 | The bytes of a slot, as literals and sizes: the letters CFG1, sequence number, count, records, zeroes, and the CRC-32 remainder of all these |
| `ConfigImage.RecordLayout` | components/middleware/services/configuration/src/ConfigService.cpp:240-250 | A record is the sizes of key and value, and both |
| `ConfigImage.FlatBound` | components/middleware/services/configuration/src/ConfigService.cpp:240-250 | The size of the encoded records |
| `ConfigRecords.ViewOfBuffers` | components/middleware/services/configuration/src/ConfigService.cpp:97-104 | A stored entry reads back from its fixed buffers |
| `EntryTable.TableSet` | components/middleware/services/configuration/src/ConfigService.cpp:91-105 | Binding a record changes the table at that key only |
| `EntryTable.TableErase` | components/middleware/services/configuration/src/ConfigService.cpp:148-155 | Clearing a record removes that key only |
| `EntryTable.FullTable` | components/middleware/services/configuration/src/ConfigService.cpp:91-95 | No free record means as many keys as records |
| `EntryTable.CompactTable` | components/middleware/services/configuration/src/ConfigService.cpp:240-250 | Dropping unused records keeps the table |
| `Config.ConfigService.Initialize` | components/middleware/services/configuration/src/ConfigService.cpp:40-67 | The readable slot with the higher sequence number wins, also if the read of the other one fails; two blank slots give the empty table; only two failures of which one is no blank slot change nothing. Well-formed entries make sound records |
| `Config.EmptyStart` | components/middleware/services/configuration/src/ConfigService.cpp:49-58 | Without a readable slot, start-up gives the empty table if and only if each slot is reported absent or corrupt; otherwise it fails |
| `Config.ConfigService.GetBlob` | components/middleware/services/configuration/src/ConfigService.cpp:69-82 | The value bound to the key, or not-found, or no-resources with the size |
| `Config.ConfigService.SetBlob` | components/middleware/services/configuration/src/ConfigService.cpp:84-106 | The table with the key bound to the value, or the exact refusal and no change |
| `Config.ConfigService.Erase` | components/middleware/services/configuration/src/ConfigService.cpp:148-155 | The table without the key, or not-found |
| `Config.ConfigService.Commit` | components/middleware/services/configuration/src/ConfigService.cpp:157-167 | Erases and writes the other slot with the next sequence number; RAM follows only on success |
| `Config.ConfigService.WriteSlot` | components/middleware/services/configuration/src/ConfigService.cpp:227-261 | The bytes written are the image of the table |
| `Config.ConfigService.FillScratch` | components/middleware/services/configuration/src/ConfigService.cpp:229-254 | The scratch buffer holds the image, and every write found room |
| `Config.ConfigService.ReadSlot` | components/middleware/services/configuration/src/ConfigService.cpp:189-225 | The decoded slot, or the storage status, or corrupt |
| `Config.ConfigService.ReadRecord` | components/middleware/services/configuration/src/ConfigService.cpp:211-222 | One record, or none where the format forbids it |
| `Config.ConfigService.ReadRecords` | components/middleware/services/configuration/src/ConfigService.cpp:209-223 | All records or corrupt |
| `Config.ConfigService.Find` | components/middleware/services/configuration/src/ConfigService.cpp:169-177 | The record of the key, or none |
| `Config.ConfigService.FindFree` | components/middleware/services/configuration/src/ConfigService.cpp:179-187 | The first unused record, or none |
| `Config.ConfigService.CountUsed` | components/middleware/services/configuration/src/ConfigService.cpp:232-237 | The number of used records |
| `Config.ConfigService.TextLength` | components/middleware/services/configuration/src/ConfigService.cpp:13-20 | The length up to the terminator, at most the capacity |
| `Config.ConfigService.TextEqual` | components/middleware/services/configuration/src/ConfigService.cpp:22-34 | Equality of the texts within the capacity |
| `ByteStreams.ByteWriter.WriteBytes` | components/middleware/libraries/serialization/include/libraries/ByteWriter.hpp:31-40 | All or nothing: the bytes appended, or only the overflow flag |
| `ByteStreams.ByteWriter.WriteU32Le` | components/middleware/libraries/serialization/include/libraries/ByteWriter.hpp:24-30 | Four bytes, low first |
| `ByteStreams.ByteReader.ReadBytes` | components/middleware/libraries/serialization/include/libraries/ByteReader.hpp:38-44 | The next bytes, or nothing consumed |
| `ByteStreams.ByteReader.ReadU32Le` | components/middleware/libraries/serialization/include/libraries/ByteReader.hpp:27-37 | The number whose low byte comes first |
| `Numbers32.NextNumber` | components/middleware/services/configuration/src/ConfigService.cpp:164 | Incrementing a sequence number short of the last adds one |
| `JsonText.PrintedIsScanned` | components/middleware/libraries/serialization/include/libraries/JsonScanner.hpp:14-104 | For every list of fields with distinct good keys, scanning each key of the printed object gives exactly the value written, at its own type and no other, whatever the strings contain; a key that was not printed is not found |
| `JsonText.SearchFinds` | components/middleware/libraries/serialization/include/libraries/JsonScanner.hpp:70-95 | The search reaches exactly the value printed behind its key |
| `JsonText.SearchMisses` | components/middleware/libraries/serialization/include/libraries/JsonScanner.hpp:70-95 | A key that was not printed is not found |
| `JsonText.SearchPastString` | components/middleware/libraries/serialization/include/libraries/JsonScanner.hpp:74-93 | No quote inside a printed string, escaped or closing, is mistaken for a key |
| `JsonText.NotAtString` | components/middleware/libraries/serialization/include/libraries/JsonScanner.hpp:78-90 | Not even the opening quote of a string that begins like the key |
| `JsonText.SearchPastField` | components/middleware/libraries/serialization/include/libraries/JsonScanner.hpp:74-93 | A whole field with another key is walked past |
| `JsonText.EscapedIsRead` | components/middleware/libraries/serialization/include/libraries/JsonScanner.hpp:54-66 | An escaped string reads back if it is shorter than the caller's buffer, and is refused otherwise |
| `JsonText.DecimalIsRead` | components/middleware/libraries/serialization/include/libraries/JsonScanner.hpp:37-46 | A printed 32-bit number reads back |
| `JsonText.PrintedExample` | components/middleware/libraries/serialization/include/libraries/JsonWriter.hpp:14-58 | One object, written out |
| `JsonKeys.KeyIsSafe` | components/middleware/libraries/serialization/include/libraries/JsonScanner.hpp:70-95 | A key without a quote is safe - every object of it and good keys reads back completely, whatever the values - if and only if no colon follows its leading blanks and it does not go on with an escaped quote |
| `JsonKeys.EscapesQuoteMeans` | components/middleware/libraries/serialization/include/libraries/JsonScanner.hpp:78-90 | The keys of the second kind are exactly the printed forms of texts without quotes, with a backslash behind |
| `JsonKeys.ColonKeyIsConfused` | components/middleware/libraries/serialization/include/libraries/JsonScanner.hpp:78-90 | Every key of the first kind has an object in which a field is misread: its opening quote and the comma in front look like a key |
| `JsonKeys.BackslashKeyIsConfused` | components/middleware/libraries/serialization/include/libraries/JsonScanner.hpp:78-90 | Every key of the second kind has one too: a string that begins like the key |
| `JsonKeys.QuoteKeyIsConfused` | components/middleware/libraries/serialization/include/libraries/JsonScanner.hpp:74-93 | Whatever stands in front of the quote: a good key behind it is misread next to that key, for some value |
| `JsonKeys.SearchExtends` | components/middleware/libraries/serialization/include/libraries/JsonScanner.hpp:74-93 | What the search finds does not depend on what follows it |
| `Json.PrintObject` | components/middleware/libraries/serialization/include/libraries/JsonWriter.hpp:14-58 | Begin, fields and end, stopping at the first failure, succeed if and only if the object and its terminator fit; then every field scans back |
| `Json.JsonWriter.Put` | components/middleware/libraries/serialization/include/libraries/JsonWriter.hpp:87-96 | Appends while there is room, and keeps the buffer otherwise |
| `Json.JsonWriter.Append` | components/middleware/libraries/serialization/include/libraries/JsonWriter.hpp:76-86 | Appends the text clipped to the capacity; success exactly if all of it fits |
| `Json.JsonWriter.BeginObject` | components/middleware/libraries/serialization/include/libraries/JsonWriter.hpp:14-18 | Opens the object, the next field being the first |
| `Json.JsonWriter.EndObject` | components/middleware/libraries/serialization/include/libraries/JsonWriter.hpp:19-22 | Succeeds exactly if the brace and a terminator behind it fit |
| `Json.JsonWriter.FieldPrefix` | components/middleware/libraries/serialization/include/libraries/JsonWriter.hpp:69-75 | Comma unless first, quoted key, colon |
| `Json.JsonWriter.FieldBool` | components/middleware/libraries/serialization/include/libraries/JsonWriter.hpp:23-26 | The field's text, clipped to the capacity |
| `Json.JsonWriter.FieldU32` | components/middleware/libraries/serialization/include/libraries/JsonWriter.hpp:27-44 | The decimal text, from digits computed lowest first |
| `Json.JsonWriter.FieldString` | components/middleware/libraries/serialization/include/libraries/JsonWriter.hpp:45-58 | The escaped text between quotes |
| `Json.Digits` | components/middleware/libraries/serialization/include/libraries/JsonWriter.hpp:31-37 | Ten places are enough for the digits of any 32-bit number |
| `Json.JsonScanner.FindValue` | components/middleware/libraries/serialization/include/libraries/JsonScanner.hpp:70-95 | The offset of what the search function finds |
| `Json.JsonScanner.MatchAt` | components/middleware/libraries/serialization/include/libraries/JsonScanner.hpp:78-92 | Whether the key, blanks and a colon follow a quote |
| `Json.JsonScanner.ReadText` | components/middleware/libraries/serialization/include/libraries/JsonScanner.hpp:49-67 | The scanned string and a terminator in the caller's buffer, or failure; either way the buffer holds what was copied, and is as before behind it |
| `Json.JsonScanner.ReadU32` | components/middleware/libraries/serialization/include/libraries/JsonScanner.hpp:32-47 | The scanned number, or none on a non-digit or overflow |
| `Json.JsonScanner.ReadBool` | components/middleware/libraries/serialization/include/libraries/JsonScanner.hpp:14-30 | The scanned flag |
| `Json.JsonScanner.Matches` | components/middleware/libraries/serialization/include/libraries/JsonScanner.hpp:96-104 | Prefix test within the text |
| `Crc.Crc16Modbus` | components/middleware/libraries/include/libraries/Crc16.hpp:9-23 | The loop computes the folded CRC-16 of section 2.5.1.2 of MODBUS over Serial Line V1.02 |
| `Crc.Crc32Ieee` | components/middleware/libraries/include/libraries/Crc32.hpp:9-22 | The loop computes the folded CRC-32 of section 8 of RFC 1952 |
| `CrcPolynomial.Crc32IsRemainder` | components/middleware/libraries/include/libraries/Crc32.hpp:9-23 | For every byte string, the CRC-32 is the complement of the remainder over GF(2) of the message, its first 32 bits complemented, divided by x^32+x^26+x^23+x^22+x^16+x^12+x^11+x^10+x^8+x^7+x^5+x^4+x^2+x+1; and no other word is |
| `CrcPolynomial.Crc16IsRemainder` | components/middleware/libraries/include/libraries/Crc16.hpp:9-23 | The same for CRC-16 and x^16+x^15+x^2+1, without the final complement |
| `CrcPolynomial.RemainderIsUnique` | components/middleware/libraries/include/libraries/Crc32.hpp:9-23 | A remainder below the degree is unique, so these statements fix the value |
| `CrcPolynomial.FoldDivides` | components/middleware/libraries/include/libraries/Crc32.hpp:12-21 | The loops divide: after any bytes the register is a remainder of what was sent |
| `CrcCheck.CheckValues` | components/middleware/libraries/include/libraries/Crc32.hpp:9-23 | The check values of both CRCs for the characters 123456789 |
| `Crc.FoldInjective` | components/middleware/libraries/include/libraries/Crc16.hpp:9-23 | Different registers stay different over the same bytes |
| `Crc.StepInjective` | components/middleware/libraries/include/libraries/Crc16.hpp:16-20 | One bit step is injective on the register |
| `Crc.Load` | components/middleware/libraries/include/libraries/Crc16.hpp:13-21 | Folding bytes equals xoring them in as a word and shifting: the register is linear over GF(2) |
| `Crc.Crc16Matches` | components/middleware/protocols/frame/include/protocols/FrameCodec.hpp:77-82 | A body followed by a field folds to zero if and only if the field is its CRC-16, low byte first |
| `Crc.Crc32Matches` | components/middleware/services/configuration/src/ConfigService.cpp:196-200 | The same for CRC-32 and its complement, with the constant residue |
| `Crc.BurstChangesRegister` | components/middleware/libraries/include/libraries/Crc16.hpp:9-23 | A difference inside four consecutive bytes, or two for CRC-16, changes the register |
| `Crc.Crc16DetectsBurst` | components/middleware/libraries/include/libraries/Crc16.hpp:9-23 | Two strings of one length that differ only inside two consecutive bytes never both match their CRC-16 |
| `Crc.Crc32DetectsBurst` | components/middleware/libraries/include/libraries/Crc32.hpp:9-22 | Nor do two that differ only inside four, for CRC-32 |
| `FrameCodec.Encode` | components/middleware/protocols/frame/include/protocols/FrameCodec.hpp:28-55 | Writes a wire image of the frame, leaving one byte as it was, or refuses and writes nothing |
| `FrameCodec.Decode` | components/middleware/protocols/frame/include/protocols/FrameCodec.hpp:57-92 | Decides as the decoding function, error by error |
| `FrameCodec.AcceptsExactlyWires` | components/middleware/protocols/frame/include/protocols/FrameCodec.hpp:57-92 | A byte string decodes if and only if it is a wire image of the decoded frame |
| `FrameCodec.WireDecodes` | components/middleware/protocols/frame/include/protocols/FrameCodec.hpp:28-92 | An encoded frame decodes to itself, whatever the unwritten byte holds, if and only if its payload is at most 255 bytes |
| `FrameCodec.WireLayout` | components/middleware/protocols/frame/include/protocols/FrameCodec.hpp:42-54 | The bytes of a frame, one by one: sync word, size, opcode, payload, the unwritten byte, and the CRC-16 remainder of all these, low byte first |
| `FrameCodec.DamageIsNamed` | components/middleware/protocols/frame/include/protocols/FrameCodec.hpp:57-83 | How damage is reported: a wrong sync word, a size that does not match, a CRC that does not |
| `FrameCodec.BurstIsRejected` | components/middleware/protocols/frame/include/protocols/FrameCodec.hpp:64-82 | No string that differs from an encoded frame only inside two consecutive bytes is accepted, even across body and CRC |
| `RingBuffer.FixedRingBuffer.TryPush` | components/middleware/libraries/ring_buffer/include/libraries/FixedRingBuffer.hpp:14-22 | Appends to the sequence unless full |
| `RingBuffer.FixedRingBuffer.TryPop` | components/middleware/libraries/ring_buffer/include/libraries/FixedRingBuffer.hpp:24-32 | Takes the oldest |
| `RingBuffer.FixedRingBuffer.Peek` | components/middleware/libraries/ring_buffer/include/libraries/FixedRingBuffer.hpp:34-40 | Shows the oldest |
| `RingBuffer.FixedRingBuffer.DropOldest` | components/middleware/libraries/ring_buffer/include/libraries/FixedRingBuffer.hpp:42-49 | Forgets the oldest |
| `RingBuffer.FixedRingBuffer.Clear` | components/middleware/libraries/ring_buffer/include/libraries/FixedRingBuffer.hpp:51-56 | Empties the sequence |
| `Messaging.OfflineQueue.Enqueue` | components/middleware/services/offline_queue/include/services/OfflineQueue.hpp:13-39 | The queue becomes what the specification of offers says, and stays the suffix of everything accepted, with accepted = committed + evicted + queued; the message is copied |
| `Messaging.OfflineQueue.CommitFront` | components/middleware/services/offline_queue/include/services/OfflineQueue.hpp:45-48 | The oldest record leaves and is counted as committed |
| `Messaging.OfflineQueue.Peek` | components/middleware/services/offline_queue/include/services/OfflineQueue.hpp:41-44 | The oldest record |
| `Messaging.ConservedAfterOffer` | components/middleware/services/offline_queue/include/services/OfflineQueue.hpp:32-38 | Conservation over an accepted message, with and without an eviction |
| `Messaging.ConservedAfterCommit` | components/middleware/services/offline_queue/include/services/OfflineQueue.hpp:45-48 | Conservation over a commit |
| `Messaging.ReadingEvictsOldest` | components/middleware/services/offline_queue/include/services/OfflineQueue.hpp:34-38 | A droppable reading that meets a full queue loses its oldest record, even a command response; a response never displaces anything |
| `Messaging.OfferIsExact` | components/middleware/services/offline_queue/include/services/OfflineQueue.hpp:13-39 | A message is accepted if and only if it can be stored and there is room or the oldest may be dropped; then it is the newest record and the others keep their order |
| `Messaging.OffersKeep` | components/middleware/services/offline_queue/include/services/OfflineQueue.hpp:13-39 | Over any messages, readings keep the newest that fit and answers the oldest; with room for all both keep everything, in order |
| `Topics.MqttTopics.Build` | components/middleware/protocols/mqtt/src/MqttTopics.cpp:42-61 | Succeeds exactly if the topic and its terminator fit in 96 characters |
| `Topics.MqttTopics.Append` | components/middleware/protocols/mqtt/src/MqttTopics.cpp:6-18 | Appends and terminates if there is room |
| `Topics.TopicFits` | components/middleware/protocols/mqtt/src/MqttTopics.cpp:42-61 | With identities in their own buffers only a channel can make a topic too long |
| `Topics.KindsDiffer` | components/middleware/protocols/mqtt/src/MqttTopics.cpp:19-61 | Topics of different kinds never meet, whatever their channels |
| `Telemetry.TelemetryService.PublishBool` | components/middleware/services/telemetry/include/services/TelemetryService.hpp:14-40 | Every reading whose topic fits is published or offered as droppable, and takes one sequence number |
| `Telemetry.TelemetryService.ReplayOne` | components/middleware/services/telemetry/include/services/TelemetryService.hpp:41-60 | Publishes the oldest record as it was enqueued; it leaves the queue only if the transport took it |
| `Telemetry.TelemetryService.Restore` | components/middleware/services/telemetry/include/services/TelemetryService.hpp:48-55 | The rebuilt envelope has the topic, payload, quality, retain flag and correlation of the record |
| `Telemetry.ReadingScansBack` | components/middleware/services/telemetry/include/services/TelemetryService.hpp:16-21 | A reading's payload scans back to its time, sequence number and value |
| `Telemetry.TelemetryService.ReadingIsTold` | components/middleware/services/telemetry/include/services/TelemetryService.hpp:14-40 | The message of a reading, written out: its topic, quality, and the time, number and value in its payload |
| `Telemetry.DecimalIsShort` | components/middleware/libraries/serialization/include/libraries/JsonWriter.hpp:31-37 | A 32-bit number has at most ten digits |
| `Dispatcher.CommandDispatcher.OnMessage` | components/middleware/services/command_dispatcher/src/CommandDispatcher.cpp:40-67 | A message is answered as corrupt, or with the remembered answer and no call, or is authorized, handled only if authorized, remembered and answered |
| `Dispatcher.RecallIsExact` | components/middleware/services/command_dispatcher/src/CommandDispatcher.cpp:75-84 | A repeat among the last eight commands gets its first answer; any other id is new, and processing it keeps repeats nine apart |
| `Dispatcher.AskedAgainAfterEight` | components/middleware/services/command_dispatcher/src/CommandDispatcher.cpp:40-67 | Over any messages: nobody is asked about an id again before eight others were processed, and a handler is called only right after its request was authorized |
| `Dispatcher.CommandIsAnswered` | components/middleware/services/command_dispatcher/src/CommandDispatcher.cpp:59-65 | For every command ever processed: the authorizer was asked; refused, it is answered with that status and nobody is called; let through, the first handler of that name is called once, directly behind, and its answer is the answer; without one the answer is not-found |
| `Dispatcher.PrintedIsParsed` | components/middleware/services/command_dispatcher/src/CommandDispatcher.cpp:45-53 | A command printed as an object is parsed as what it says |
| `Dispatcher.CodesDiffer` | components/platform/uhal/core/include/uhal/Status.hpp:8-24 | Different states are answered with different codes |
| `Dispatcher.CommandDispatcher.FindCached` | components/middleware/services/command_dispatcher/src/CommandDispatcher.cpp:75-84 | The cache answers as the last eight of the history |
| `Dispatcher.CommandDispatcher.Cache` | components/middleware/services/command_dispatcher/src/CommandDispatcher.cpp:85-93 | The cache stays the last eight, ids distinct, and each processed id was authorized exactly once, in order |
| `Dispatcher.HoldsMore` | components/middleware/services/command_dispatcher/src/CommandDispatcher.cpp:85-93 | Overwriting the next slot keeps the cache the last eight |
| `Dispatcher.AccountedMore` | components/middleware/services/command_dispatcher/src/CommandDispatcher.cpp:59-66 | One more processed command keeps the account of authorizations |
| `Dispatcher.CommandDispatcher.Process` | components/middleware/services/command_dispatcher/src/CommandDispatcher.cpp:59-64 | The answer and calls for a new command: nobody handles what was not authorized |
| `Dispatcher.CommandDispatcher.FindHandler` | components/middleware/services/command_dispatcher/src/CommandDispatcher.cpp:68-74 | The first handler of that name |
| `Dispatcher.CommandDispatcher.AddHandler` | components/middleware/services/command_dispatcher/src/CommandDispatcher.cpp:33-39 | Registers a handler unless sixteen are registered |
| `Dispatcher.CommandDispatcher.Scan` | components/middleware/services/command_dispatcher/src/CommandDispatcher.cpp:44-53 | The request as scanned, ids and names up to a NUL |
| `Dispatcher.CommandDispatcher.Respond` | components/middleware/services/command_dispatcher/src/CommandDispatcher.cpp:94-111 | The answer is published, or offered to the queue as not droppable |
| `Dispatcher.CommandDispatcher.Compose` | components/middleware/services/command_dispatcher/src/CommandDispatcher.cpp:96-108 | Composing an answer cannot fail |
| `Dispatcher.ResponseFits` | components/middleware/services/command_dispatcher/src/CommandDispatcher.cpp:94-111 | For every id of at most 15 characters payload and topic fit, and the payload scans back to id, status and state |
| `Recent.RingIsLatest` | app/product_smart_device/src/connectivity/RhophiClaimProtocol.cpp:205-213 | The filled slots of a ring of eight hold exactly the last eight |
| `Recent.RingGrows` | app/product_smart_device/src/connectivity/RhophiClaimProtocol.cpp:215-220 | Overwriting the next slot keeps it so |
| `Ota.RunIsSafe` | components/middleware/services/ota_manager/src/OtaService.cpp:9-108 | In every run nothing is activated but the image last offered: contiguous from offset 0, of exactly the promised size, hashed as written, matching the manifest, accepted by the verifier, finished, not aborted since, and once per download |
| `Ota.OfferKeeps` | components/middleware/services/ota_manager/src/OtaService.cpp:9-23 | Offering keeps machine and ports linked |
| `Ota.PollKeeps` | components/middleware/services/ota_manager/src/OtaService.cpp:24-77 | Polling keeps it, through download, digest, signature and finish |
| `Ota.TakeKeeps` | components/middleware/services/ota_manager/src/OtaService.cpp:40-54 | So does taking a chunk |
| `Ota.FinishKeeps` | components/middleware/services/ota_manager/src/OtaService.cpp:55-76 | And finishing the image |
| `Ota.ActivateKeeps` | components/middleware/services/ota_manager/src/OtaService.cpp:78-87 | And activating it |
| `Ota.CancelKeeps` | components/middleware/services/ota_manager/src/OtaService.cpp:88-94 | And cancelling |
| `Ota.SizeTestIsExact` | components/middleware/services/ota_manager/src/OtaService.cpp:44 | The 32-bit size test refuses exactly the overruns if and only if the image leaves room for one chunk below 2^32 |
| `Ota.PollProgresses` | components/middleware/services/ota_manager/src/OtaService.cpp:24-54 | Every poll of a download that is not kept waiting decreases 2 (size - received), plus one if nothing is requested |
| `Ota.HonestDownloadCompletes` | components/middleware/services/ota_manager/src/OtaService.cpp:24-77 | From honest ports a download ends ready to activate with exactly the image staged, within that many polls |
| `Ota.UpdateActivates` | components/middleware/services/ota_manager/src/OtaService.cpp:9-87 | After any run that leaves the machine idle: an offer of any image, the polls of honest ports and one activation stage exactly this image and hand it to the boot port, whose answer is the status; a refusal abandons the update |
| `Ota.PollFailsIffRefused` | components/middleware/services/ota_manager/src/OtaService.cpp:24-77 | A poll of a download abandons the update if and only if one of the calls it makes is refused, and the last call then aborts the store |
| `Ota.OfferIsAccepted` | components/middleware/services/ota_manager/src/OtaService.cpp:9-23 | An honest offer to an idle machine starts a download of its image |
| `Ota.OfferFails` | components/middleware/services/ota_manager/src/OtaService.cpp:13-17 | An offer that store or digest refuse ends in failure, the store aborted |
| `Ota.CancelIsIdle` | components/middleware/services/ota_manager/src/OtaService.cpp:88-94 | After any run, cancelling leaves the machine idle, ready for the next offer |
| `Ota.NothingWithoutCause` | components/middleware/services/ota_manager/src/OtaService.cpp:9-82 | Offers while busy or of nothing, polls without a download and activations without a ready image reach no port |
| `Ota.OtaService.OfferImage` | components/middleware/services/ota_manager/src/OtaService.cpp:9-23 | State, calls and status are those of the offer step |
| `Ota.OtaService.Poll` | components/middleware/services/ota_manager/src/OtaService.cpp:24-77 | State and calls are those of the poll step; the measure decreases |
| `Ota.OtaService.Take` | components/middleware/services/ota_manager/src/OtaService.cpp:40-54 | Takes, writes and hashes a chunk, or abandons the update |
| `Ota.OtaService.Finish` | components/middleware/services/ota_manager/src/OtaService.cpp:55-76 | Digest, comparison, signature and finish, in this order |
| `Ota.SameDigest` | components/middleware/services/ota_manager/src/OtaService.cpp:62-67 | The byte-by-byte comparison is equality |
| `Ota.OtaService.ActivateImage` | components/middleware/services/ota_manager/src/OtaService.cpp:78-87 | Activates only what is ready; a refusal abandons the update |
| `Ota.OtaService.Cancel` | components/middleware/services/ota_manager/src/OtaService.cpp:88-94 | Aborts and returns to idle |
| `Ota.OtaService.Abandon` | components/middleware/services/ota_manager/src/OtaService.cpp:103-108 | Aborts and fails |
| `Claim.RespondIsExact` | app/product_smart_device/src/connectivity/RhophiClaimProtocol.cpp:96-140 | A challenge is answered if and only if the window is open in true time, it is not among the last eight answered in it, and the crypto port works; the nonce of the proof is what the last call of the random source left, whether that call succeeded or not |
| `Claim.RunReleasesFresh` | app/product_smart_device/src/connectivity/RhophiClaimProtocol.cpp:117-137 | In every run since power-on, each released nonce is what the last random call before it left, no two releases share a call, and proofs whose nonces came from successful calls are made from different inputs unless the random source repeats |
| `Claim.RunKeeps` | app/product_smart_device/src/connectivity/RhophiClaimProtocol.cpp:23-162 | Every run of calls, in any order, keeps the invariant |
| `Claim.SpoiledNonceIsReused` | app/product_smart_device/src/connectivity/RhophiClaimProtocol.cpp:63-65 | From every state after a successful initialization, and for every value x and challenge: two failing random calls that leave x release the same proof twice |
| `Claim.ClaimIsFound` | app/product_smart_device/src/connectivity/RhophiClaimProtocol.cpp:142-162 | A commissioning, or a reset, that succeeded is found again: after the rest of that life and any later ones without another, the device comes up claimed, or factory-new, without saving |
| `Claim.StoreIsAsked` | app/product_smart_device/src/connectivity/RhophiClaimProtocol.cpp:142-162 | Commissioning and reset answer as the store does; a success is in flash, a failure leaves it as it was |
| `Claim.InitializeIsExact` | app/product_smart_device/src/connectivity/RhophiClaimProtocol.cpp:23-50 | When initialization succeeds, what it then knows, and that a failure keeps no secret |
| `Claim.InitializeIsSaved` | app/product_smart_device/src/connectivity/RhophiClaimProtocol.cpp:36-46 | After a success over the state in flash, flash and memory agree, without a lockout |
| `Claim.ProofInputParts` | app/product_smart_device/src/connectivity/RhophiClaimProtocol.cpp:117-121 | The nonce comes first, then the challenge, then the claim id |
| `Claim.ReleasesDiffer` | app/product_smart_device/src/connectivity/RhophiClaimProtocol.cpp:117-137 | Releases with nonces from successful calls, none of which repeats, have different proof inputs |
| `Claim.ProofInputInjective` | app/product_smart_device/src/connectivity/RhophiClaimProtocol.cpp:117-121 | Different nonces or challenges never share a proof input |
| `Claim.RespondKeeps` | app/product_smart_device/src/connectivity/RhophiClaimProtocol.cpp:96-140 | Answering keeps the invariant in every branch: replay ring, random calls, window, flags |
| `Claim.CheckIsExact` | app/product_smart_device/src/connectivity/RhophiClaimProtocol.cpp:80-88 | With checks and durations of at most 2^31 ms the window is found open exactly before its end |
| `Claim.CheckWithinTurn` | app/product_smart_device/src/connectivity/RhophiClaimProtocol.cpp:82-83 | All times, within one turn of the counter, at which an open window is found open: also from 2^31 ms after its end on |
| `Claim.CheckKeeps` | app/product_smart_device/src/connectivity/RhophiClaimProtocol.cpp:80-88 | A check never opens a window, and keeps the invariant |
| `Claim.OpenKeeps` | app/product_smart_device/src/connectivity/RhophiClaimProtocol.cpp:52-73 | Opening starts a window with the nonce just drawn and nothing answered; a failure leaves the old window |
| `Claim.InitializeKeeps` | app/product_smart_device/src/connectivity/RhophiClaimProtocol.cpp:23-50 | After a successful initialization no lockout is left and the locked flag is never set |
| `Claim.CommissionKeeps` | app/product_smart_device/src/connectivity/RhophiClaimProtocol.cpp:142-153 | Commissioning closes the window and marks the device claimed |
| `Claim.ResetKeeps` | app/product_smart_device/src/connectivity/RhophiClaimProtocol.cpp:155-162 | A reset closes the window and blanks the state |
| `Claim.ClosedKeeps` | app/product_smart_device/src/connectivity/RhophiClaimProtocol.cpp:164-178 | Closing forgets nonce and answered challenges |
| `Claim.RefreshedIsRight` | app/product_smart_device/src/connectivity/RhophiClaimProtocol.cpp:180-190 | Refreshed flags follow window and state: commissionable exactly while it is active, claimed or factory-new as stored |
| `Claim.LockKeeps` | app/product_smart_device/src/connectivity/RhophiClaimProtocol.cpp:192-203 | After initialization the lock test never holds and never changes anything |
| `Claim.RhophiClaimProtocol.Respond` | app/product_smart_device/src/connectivity/RhophiClaimProtocol.cpp:96-140 | Status, proof and state are those of the challenge step, the observer's trail included |
| `Claim.RhophiClaimProtocol.Answer` | app/product_smart_device/src/connectivity/RhophiClaimProtocol.cpp:105-139 | The part behind the checks |
| `Claim.RhophiClaimProtocol.OpenWindow` | app/product_smart_device/src/connectivity/RhophiClaimProtocol.cpp:52-73 | Status and state are those of the opening step |
| `Claim.RhophiClaimProtocol.IsActive` | app/product_smart_device/src/connectivity/RhophiClaimProtocol.cpp:80-88 | Result and state are those of the check step |
| `Claim.RhophiClaimProtocol.IdentityAt` | app/product_smart_device/src/connectivity/RhophiClaimProtocol.cpp:90-94 | The identity after a check |
| `Claim.RhophiClaimProtocol.Initialize` | app/product_smart_device/src/connectivity/RhophiClaimProtocol.cpp:23-50 | Status and state are those of the initialization step |
| `Claim.RhophiClaimProtocol.Cancel` | app/product_smart_device/src/connectivity/RhophiClaimProtocol.cpp:75-78 | Closes |
| `Claim.RhophiClaimProtocol.MarkCommissioned` | app/product_smart_device/src/connectivity/RhophiClaimProtocol.cpp:142-153 | Status and state are those of the commissioning step |
| `Claim.RhophiClaimProtocol.FactoryReset` | app/product_smart_device/src/connectivity/RhophiClaimProtocol.cpp:155-162 | Status and state are those of the reset step |
| `Claim.RhophiClaimProtocol.ChallengeKnown` | app/product_smart_device/src/connectivity/RhophiClaimProtocol.cpp:205-213 | Whether the filled part of the cache holds the challenge |
| `Claim.RhophiClaimProtocol.RememberChallenge` | app/product_smart_device/src/connectivity/RhophiClaimProtocol.cpp:215-220 | Overwrites the oldest |
| `Claim.RhophiClaimProtocol.IsLocked` | app/product_smart_device/src/connectivity/RhophiClaimProtocol.cpp:192-203 | The lock test and its side effects |
| `Uhal.StampsAgree` | app/product_smart_device/src/connectivity/RhophiClaimProtocol.cpp:82 | The signed difference of two stamps orders their true times if and only if these are less than half a turn apart, or exactly half with the first one earlier |
| `Gatt.HolderIsLastWrite` | app/product_smart_device/src/connectivity/RhophiClaimGatt.cpp:259-273 | A proof is readable exactly while nothing but refusals followed the successful challenge it answers |
| `Gatt.RhophiClaimGatt.ReadResponse` | app/product_smart_device/src/connectivity/RhophiClaimGatt.cpp:259-273 | Succeeds exactly for the connection that may read, with exactly its proof, whether or not the window is still open |
| `Gatt.RhophiClaimGatt.WriteChallenge` | app/product_smart_device/src/connectivity/RhophiClaimGatt.cpp:214-257 | Only the connection that has the session, or any if none has, gets through; only then is the readable proof replaced or revoked |
| `Gatt.FailureRevokesIffPut` | app/product_smart_device/src/connectivity/RhophiClaimGatt.cpp:216-238 | A failed challenge of the holder revokes its proof if and only if it reached the protocol |
| `Gatt.OneWriterGrows` | app/product_smart_device/src/connectivity/RhophiClaimGatt.cpp:230-236 | Within a session only one connection gets challenges through |
| `Gatt.RhophiClaimGatt.OpenWindow` | app/product_smart_device/src/connectivity/RhophiClaimGatt.cpp:108-116 | Clears the session, then opens |
| `Gatt.RhophiClaimGatt.Cancel` | app/product_smart_device/src/connectivity/RhophiClaimGatt.cpp:118-128 | Closes the window and clears the session |
| `Gatt.RhophiClaimGatt.ReleaseSession` | app/product_smart_device/src/connectivity/RhophiClaimGatt.cpp:130-136 | Clears the session |
| `Gatt.RhophiClaimGatt.MarkCommissioned` | app/product_smart_device/src/connectivity/RhophiClaimGatt.cpp:138-149 | Commissions and clears the session |
| `Gatt.RhophiClaimGatt.FactoryReset` | app/product_smart_device/src/connectivity/RhophiClaimGatt.cpp:151-159 | Clears the session and resets |
| `Gatt.RhophiClaimGatt.ReadState` | app/product_smart_device/src/connectivity/RhophiClaimGatt.cpp:275-285 | Looks at the window and leaves the session alone |
| `Gatt.RhophiClaimGatt.WriteCancel` | app/product_smart_device/src/connectivity/RhophiClaimGatt.cpp:301-317 | Ends the session for the connection that has it |
| `Gatt.RhophiClaimGatt.ClearSession` | app/product_smart_device/src/connectivity/RhophiClaimGatt.cpp:329-334 | Nobody may read any more |
| `Gatt.RhophiClaimGatt.Initialize` | app/product_smart_device/src/connectivity/RhophiClaimGatt.cpp:57-106 | Only one object is ever registered; without the lock no call gets anywhere |
| `BinaryStore.AtRestFlashIsLastSave` | app/product_smart_device/src/adapters/NvsBinaryStateStore.cpp:40-65 | In every interleaving of saves with flushes, no commit having failed since the last save: at rest that save is in flash if and only if its timer was started, or a callback read its value after it was stored |
| `BinaryStore.SettlesToLastSave` | app/product_smart_device/src/adapters/NvsBinaryStateStore.cpp:56-65 | Left alone the timer task comes to rest, with the last save in flash if and only if now the timer is armed or has fired, its value is in hand, or it is there already |
| `BinaryStore.SaveReachesFlash` | app/product_smart_device/src/adapters/NvsBinaryStateStore.cpp:40-54 | A save whose timer is started reaches flash with exactly its value, whatever the timer task is doing |
| `BinaryStore.StepKeeps` | app/product_smart_device/src/adapters/NvsBinaryStateStore.cpp:40-65 | Flash holds the save it is said to hold, and nothing is scheduled, read or written before a save |
| `BinaryStore.RunTells` | app/product_smart_device/src/adapters/NvsBinaryStateStore.cpp:40-65 | What the steps since the last save tell about timer, callback and flash |
| `BinaryStore.FailedStartLosesEarlierSave` | app/product_smart_device/src/adapters/NvsBinaryStateStore.cpp:47-53 | Whenever a scheduled save waits for its timer, another one whose timer start fails leaves the store at rest with flash as it was |
| `BinaryStore.SuccessfulSaveIsLost` | app/product_smart_device/src/adapters/NvsBinaryStateStore.cpp:47-53 | From every state of rest, so a save that reported success is never written |
| `ClaimStore.RunKeeps` | app/product_smart_device/src/adapters/NvsClaimStateStore.cpp:64-71 | In every interleaving the worker writes a subsequence of the saves in their order, and the last save is waiting, in hand or in flash |
| `ClaimStore.StepKeeps` | app/product_smart_device/src/adapters/NvsClaimStateStore.cpp:104-116 | Every step of saver, worker and clear keeps this |
| `ClaimStore.AtRestFlashIsLastSave` | app/product_smart_device/src/adapters/NvsClaimStateStore.cpp:104-116 | At rest flash holds the last save, unless a clear or a failed write came after it |
| `ClaimStore.ClearWinsIffNothingPending` | app/product_smart_device/src/adapters/NvsClaimStateStore.cpp:73-94 | After a successful erase flash stays erased if and only if no request waits and the worker has none in hand |
| `ClaimStore.ClearCanLose` | app/product_smart_device/src/adapters/NvsClaimStateStore.cpp:107-111 | From any state of rest a request taken but not locked survives a clear |
| `ClaimStore.DrainedWrites` | app/product_smart_device/src/adapters/NvsClaimStateStore.cpp:104-116 | A pending request ends up in flash |
| `ClaimStore.SaveReachesFlash` | app/product_smart_device/src/adapters/NvsClaimStateStore.cpp:64-71 | A save reaches flash, whatever the worker is doing, if no clear comes in between |
| `Network.StartKeepsDistance` | components/middleware/services/network_manager/src/NetworkManager.cpp:33-42 | A link is never started before the delay drawn at its last start is over, however the polls are spaced and the counter wraps |
| `Network.DueLinkIsStartable` | components/middleware/services/network_manager/src/NetworkManager.cpp:35-36 | Polled within half a turn, a link that is not exhausted may start exactly from its due time on |
| `Network.TenStartsTakeLong` | components/middleware/libraries/retry/include/libraries/Backoff.hpp:17-40 | The first and the tenth start of a run without the link being up are at least 1950 s apart |
| `Network.RunTakes` | components/middleware/libraries/retry/include/libraries/Backoff.hpp:17-40 | The k-th start of a run comes after the sum of the delays before it |
| `Network.PollKeeps` | components/middleware/services/network_manager/src/NetworkManager.cpp:17-44 | A poll keeps this for all links, and a run never has more than ten starts |
| `Network.PollIsExact` | components/middleware/services/network_manager/src/NetworkManager.cpp:17-44 | Link by link: the first one that is up is selected; with none up, the startable links are started in order up to the first that takes it, and the node is connecting if and only if one was started |
| `Network.StartsAreFirst` | components/middleware/services/network_manager/src/NetworkManager.cpp:33-42 | Exactly the startable links are started, in order, up to the first one that takes the start; all others stay as they are |
| `Network.DelaysDouble` | components/middleware/libraries/retry/include/libraries/Backoff.hpp:39-40 | The delays start at half a minute and double up to four minutes, then stay at five |
| `Network.StartFromKeeps` | components/middleware/services/network_manager/src/NetworkManager.cpp:33-42 | So does the loop that starts links |
| `Network.NetworkManager.Poll` | components/middleware/services/network_manager/src/NetworkManager.cpp:17-44 | Links, state and notifications are those of the poll step: the first link that is up is selected, otherwise links are started; an observer hears of a change, with its link, unless there is no link |
| `Network.NetworkManager.StartLinks` | components/middleware/services/network_manager/src/NetworkManager.cpp:32-42 | The loop tries links up to the first that takes the start |
| `Network.NetworkManager.AddLink` | components/middleware/services/network_manager/src/NetworkManager.cpp:4-12 | Registers a link unless two are registered |
| `Network.NetworkManager.Publish` | components/middleware/services/network_manager/src/NetworkManager.cpp:53-60 | The observer, if there is one, hears of changes only, and only about a registered link |
| `Network.BackoffPolicy.NextDelay` | components/middleware/libraries/retry/include/libraries/Backoff.hpp:17-23 | The delay of the attempt; attempts stop counting at their limit, ten unless given |
| `Network.BackoffPolicy.Reset` | components/middleware/libraries/retry/include/libraries/Backoff.hpp:25-28 | Starts over |
| `Network.FirstUp` | components/middleware/services/network_manager/src/NetworkManager.cpp:20-30 | The first link that is up, or none |
| `Button.RunRefines` | components/middleware/libraries/button/src/ButtonInput.cpp:8-38 | For every timely trace the machine reports exactly what the specification over the whole trace says |
| `Button.UpdateRefines` | components/middleware/libraries/button/src/ButtonInput.cpp:8-38 | Every timely sample keeps machine and trace linked |
| `Button.ElapsedIsExact` | components/middleware/libraries/button/src/ButtonInput.cpp:17 | The wrapped difference tells whether the run is long enough if gaps are at most 2^32 minus the debounce time |
| `Button.GapBoundIsTight` | components/middleware/libraries/button/src/ButtonInput.cpp:17 | One millisecond more and a press can go unnoticed |
| `Button.ChangeNeedsSpan` | components/middleware/libraries/button/src/ButtonInput.cpp:17-26 | The stable level changes only to a level kept over samples that span the debounce time |
| `Button.SpanIsTaken` | components/middleware/libraries/button/src/ButtonInput.cpp:17-26 | Conversely, a level kept over samples that span the debounce time is taken over |
| `Button.PressesAlternate` | components/middleware/libraries/button/src/ButtonInput.cpp:22-32 | Presses and stable releases alternate, starting with a press |
| `Button.HoldIsExact` | components/middleware/libraries/button/src/ButtonInput.cpp:32-37 | A press is classified by its true length if and only if that is below 2^32 ms, or its remainder is still a factory reset |
| `Button.ReleaseIsReported` | components/middleware/libraries/button/src/ButtonInput.cpp:32-37 | Which true lengths of a press report which event at its release |
| `Button.PressIsReported` | components/middleware/libraries/button/src/ButtonInput.cpp:22-31 | A press is reported when the stable level becomes pressed, and nothing while it stays |
| `Button.ButtonInput.Update` | components/middleware/libraries/button/src/ButtonInput.cpp:8-38 | The report of the specification, and the stable level, for timely traces |
| `Button.ButtonInput.Step` | components/middleware/libraries/button/src/ButtonInput.cpp:10-37 | One update of the fields |
| `Button.ButtonInput.HoldTime` | components/middleware/libraries/button/src/ButtonInput.cpp:48-51 | The time since the press, modulo the counter |

## Left out

- ESP-IDF, NimBLE, FreeRTOS, PSA, OpenThread and ESP-Matter themselves: they are ports, or atomic steps with the assumptions above.
- GPIO levels, watchdog, clock, LED strip, board wiring, indicator colours and logging: plumbing without state of interest.
- The `RHOPHI_CLAIM_DEV_BYPASS` build and the strength of the cryptography.
- Null pointers for buffers and C strings, except where the configuration service, the frame codec and topic channels treat them specially.
- `get_u32`, `set_u32`, `get_bool` and `set_bool` of the configuration service: thin wrappers over the blob operations.
- `read_u16_le`, `write_u16_le` and `remaining` of the byte streams: not used by the modelled code.
- Reading the claim identity characteristic as 36 bytes, `write_identify` and all Bluetooth notifications: they do not touch the session.
- Commissioning window and factory reset actions of the button, and `CommandSource`: they only call other modelled parts, or are never read.
- ProvisioningService over ConfigService: its credentials exceed the value limit, so its success path is unreachable.
- HealthMonitor, IndicationService, TimeSyncService, DiagnosticsService, SecurityPolicy, EventBus, StateMachine, Modbus, EnvironmentMonitor and MqttSessionPolicy: mostly easy members.
- Python tools, shell scripts, CMake and documentation.
- ConfigCrash.RunRestores: assumes that a half-written slot, unless it is the complete new image or untouched, fails its CRC or magic number; the CRC theorem shows this for damage of at most four consecutive bytes, and an erased slot needs no such assumption. Reads that fail by claiming a blank slot are not steps of a run; `ConfigCrash.BlankReadsForget` shows why.
- ConfigRun.ConfigNode.Commit: stops short of the last sequence number; `ConfigCrash.CommitSurvivesRestart` tells what happens there, and `ConfigCrash.NeverWraps` when it is reached.
- ConfigRun.ConfigNode.Restart: no failing read claims a blank slot, as for `ConfigCrash.RunRestores`; and a node whose start-up failed is only started again, although the service does not refuse calls then.
- FrameCodec.Decode: the input is one buffer of the given size, so reading beyond a wrong size is not modelled.
- Messaging.OfflineQueue.Enqueue: a queue record holds values, so the fixed arrays inside a record are not modelled byte by byte.
- Ota.RunIsSafe: the store is assumed to refuse images beyond the range of the size test, and the fetcher to deliver at most one buffer.
- Claim.RespondIsExact: assumes checks at most 2^31 ms apart; `Claim.CheckWithinTurn` tells what happens otherwise, `Claim.RespondKeeps` what holds in any case.
- Gatt.RhophiClaimGatt.WriteChallenge: allocation and delivery of the notification are one answer.
- Relay.QuiescentAgree: `started_` and the flags are taken as sequentially consistent, although `started_` is a plain `bool` in the code.
