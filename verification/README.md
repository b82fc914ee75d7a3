# Verification of the km43 wire stack

A Dafny 4.11 model of the `km43` wire stack and of the configuration section on top of
it, with proofs. `dafny verify dfyconfig.toml` checks all of it.

Five components, each in modules that follow the program's own files:

* **Restricted CBOR** (`cbor_*.dfy`). `CborGrammar` is the format as a recursive grammar
  over bytes, refusing a repeated key by remembering every key. `CborReader` is the
  reader as it runs: an explicit stack, containers closed lazily, and repeats found by
  comparing with the greatest key so far and searching the earlier pairs only when that
  fails. The class refines the naive reader, head by head and item by item. `CborWriter`
  is the writer over its buffer; any run of its calls that finishes reads back.
  `CborTrees` and `CborLanguage` say which runs make a message: exactly the sound trees
  that fit. `CborRestrictions` says of the bytes themselves what the format forbids.
* **Buses and devices** (`section*.dfy`, `chains.dfy`, `sorting.dfy`). The check of a
  section against the site, `accept` with its id allocator over whole runs, and the
  encoder and one-pass decoder, proved against a decoder that reads the structure first
  and judges values after. `SectionBytes` says of the bytes which bodies parse and to
  what, `SectionAdmission` which writes are accepted and what they become.
* **COBS, CRC-16 and framing** (`cobs.dfy`, `crc*.dfy`, `frame*.dfy`).
* **BLE fragmentation** (`ble*.dfy`). Sender and receiver as two parties over a link that
  keeps order and may lose or delay values.
* **Draws and sweeps** (`drbg.dfy`, `sweep*.dfy`). The write, read-back, release
  protocol under crashes, and the packed sweep buffer.

Code that changes state is a class or a method with loops here too, proved against a
specification function; what the program promises is then proved of those functions.
Where a specification function returns a result and a state, the method's contract
equates both with it.

Three properties hold only under a condition, and the condition is exact. Losses never
stitch two BLE messages for up to 256 messages on a connection, the span of the id byte,
and can beyond that (`BleIds.SafeExactly`). No draw repeats exactly when the successor
function never returns to a state (`Drbg.NoDrawTwiceExactly`). A section survives the
wire exactly when it is one a decoder could have accepted
(`SectionAnswers.ReadsBackExactly`).

Two places where code and comment differ, followed as the code has them. A key the
writer refuses only for room stays recorded, so offering the same key again is refused
as not ascending. The comment on `CborWriter::raw` says the writer does not look inside
the item it copies; the code walks it first.

## Model

| member | source | states |
|---|---|---|
| CborHeads.ArgumentWritten | crates/km43/src/cbor.rs:770-785 | an argument written in its width is the argument read there, whatever stands around it |
| CborHeads.ShortestForm | crates/km43/src/cbor.rs:182-194 | no head that says an argument is narrower than the width the writer picks (section 4.2.1 of RFC 8949) |
| CborOrder.RankIsByteOrder | crates/km43/src/cbor.rs:255-262 | ordering keys by rank is ordering their deterministic encodings bytewise, and different ranks are different bytes |
| CborGrammar.Item | crates/km43/src/cbor.rs:692-742 | the recursive grammar: one item ends strictly further on, inside the input, no higher than the room it was given |
| CborGrammar.Owed | crates/km43/src/cbor.rs:692-742 | everything a container owes takes at least a byte an item and stays within the room left |
| CborGrammar.ItemRoom | crates/km43/src/cbor.rs:340-360 | more room than an item is high changes nothing, and less refuses it with DepthExceeded |
| CborGrammar.ItemLocal | crates/km43/src/cbor.rs:972-988 | an item is the same item wherever its bytes stand |
| CborWalk.RestSettled | crates/km43/src/cbor.rs:310-317 | closing finished containers lazily changes nothing that is still to be read |
| CborWalk.RestStep | crates/km43/src/cbor.rs:692-742 | one head taken off the explicit stack is one step of the recursive grammar, failures and nesting depth included |
| CborWalk.ItemStep | crates/km43/src/cbor.rs:692-742 | the first head of an item opens exactly the walk the grammar prescribes |
| CborPairs.StepKeepsRegions | crates/km43/src/cbor.rs:692-742 | every head keeps, for every open map, its place in the input: the bytes since it began are its whole pairs and the one in progress, and carry exactly the keys seen |
| CborReaders.AboveTheGreatest | crates/km43/src/cbor.rs:382-396 | a key above the greatest so far has not been seen and becomes the greatest; any other leaves it so |
| CborReaders.KeyRegion | crates/km43/src/cbor.rs:382-396 | at a key, the pairs from the map's start to it carry exactly the keys seen, the greatest is the recorded one, and a key above it is new |
| CborReaders.StepKeepsGreatest | crates/km43/src/cbor.rs:692-742 | every head keeps the recorded key of each open map the greatest of its keys |
| CborReaders.WalkBegins | crates/km43/src/cbor.rs:586-597 | the first head of a skip fails as the grammar does, or leaves a walk that agrees with it |
| CborReaders.WalkTurn | crates/km43/src/cbor.rs:586-597 | one turn of the skip loop: back at the floor the item is exactly what the grammar read, and otherwise the next head fails with it or keeps the agreement |
| CborReaders.CborReader.Decode | crates/km43/src/cbor.rs:744-768 | a head is decoded as the specification says for every first byte, or refused with the same error |
| CborReaders.CborReader.ArgumentOf | crates/km43/src/cbor.rs:770-785 | the argument loop computes the big-endian value of the announced bytes |
| CborReaders.CborReader.CountOf | crates/km43/src/cbor.rs:794-801 | a count larger than the bytes left could hold is refused, the doubling checked against the word |
| CborReaders.CborReader.SettleNest | crates/km43/src/cbor.rs:310-317 | the settle loop closes exactly the containers that owe nothing, keeping every region and greatest key |
| CborReaders.CborReader.NoteKey | crates/km43/src/cbor.rs:382-396 | a key is handed back for searching exactly when it does not exceed the greatest, which is otherwise moved to it |
| CborReaders.CborReader.Search | crates/km43/src/cbor.rs:610-639 | walking the earlier pairs answers RepeatedKey exactly when one of them carries the key, and can fail with nothing else |
| CborReaders.CborReader.SettleSkipped | crates/km43/src/cbor.rs:600-605 | a skipped repeat is answered for before anything else is read |
| CborReaders.CborReader.NextHead | crates/km43/src/cbor.rs:692-742 | one head of the fast reader is one head of the naive reader that remembers every key: same head, same refusal, same state |
| CborReaders.CborReader.Skip | crates/km43/src/cbor.rs:576-584 | skip succeeds exactly when the next item is well formed, within the nesting bound from here, with no map in it repeating a key, and stops at its end |
| CborReaders.CborReader.Walk | crates/km43/src/cbor.rs:586-597 | the loop on the explicit stack refines the recursive grammar from every reader state |
| CborReaders.CborReader.Raw | crates/km43/src/cbor.rs:648-652 | raw gives the skipped item's own bytes |
| CborReaders.CborReader.Finish | crates/km43/src/cbor.rs:657-667 | a message is refused for a repeated key left unanswered, an open container or bytes left over, in that order |
| CborRestrictions.FirstByte | crates/km43/src/cbor.rs:744-768 | a tag, a float, a reserved, an indefinite or an unknown simple first byte is refused by name, whatever follows it |
| CborRestrictions.HeadExactly | crates/km43/src/cbor.rs:744-785 | what every allowed first byte means, argument byte by byte in any of its widths, and what it is refused for |
| CborRestrictions.IntegerHead | crates/km43/src/cbor.rs:702-714 | integers are exactly the heads whose first byte is below 0x40 |
| CborRestrictions.ItemAllowed | crates/km43/src/cbor.rs:690-768 | an item that is read holds no forbidden first byte at any level, and every key of every map in it begins below 0x40 |
| CborRestrictions.SkipAllowed | crates/km43/src/cbor.rs:576-597 | nor does anything skipped, from wherever the reader stands |
| CborRestrictions.RefusedAs | crates/km43/src/cbor.rs:702-768 | a forbidden first byte is refused by its own name, and a head that is no integer where a key is due with KeyNotInteger |
| CborRestrictions.SkipRefuses | crates/km43/src/cbor.rs:576-597 | a skip that comes to a head not allowed is refused with what is wrong with it, if no repeated key is found first |
| CborRestrictions.SkipRefusedFor | crates/km43/src/cbor.rs:576-597 | a skip is refused for nothing but a head it came to, the nesting, or a repeated key |
| CborRestrictions.ItemChecked | crates/km43/src/cbor.rs:610-639 | refusing repeated keys changes an answer only to that refusal |
| CborRestrictions.RepeatsExactly | crates/km43/src/cbor.rs:17-26 | what is well formed passes the repeat check exactly when every item inside does and a map's keys, by sign and argument, are all different |
| CborReaders.CborReader.ReadArray | crates/km43/src/cbor.rs:453-463 | an array's count, or the naive reader's refusal |
| CborReaders.CborReader.ReadMap | crates/km43/src/cbor.rs:467-477 | a map's pair count, or the naive reader's refusal |
| CborReaders.CborReader.ReadKey | crates/km43/src/cbor.rs:481-489 | a key of either sign that fits sixty-four bits, or the refusal |
| CborReaders.CborReader.ReadUnsigned | crates/km43/src/cbor.rs:493-511 | an unsigned integer within the field's width; a negative one is out of range rather than the wrong type |
| CborReaders.CborReader.ReadI32 | crates/km43/src/cbor.rs:514-524 | a signed integer within thirty-two bits, or the refusal |
| CborReaders.CborReader.ReadBool | crates/km43/src/cbor.rs:527-537 | one of the two simple values, or the refusal |
| CborReaders.CborReader.ReadBytes | crates/km43/src/cbor.rs:542-552 | a byte string of any length the input holds |
| CborReaders.CborReader.ReadText | crates/km43/src/cbor.rs:557-567 | a text string within its bound and valid UTF-8 |
| CborWriters.CborWriter.OpenItem | crates/km43/src/cbor.rs:992-1001 | a value where a key belongs and a second top-level item are refused, on the settled stack |
| CborWriters.CborWriter.PutHead | crates/km43/src/cbor.rs:1006-1025 | head and payload are refused together before a byte is written, or the head goes out in its shortest form |
| CborWriters.CborWriter.Array | crates/km43/src/cbor.rs:843-854 | the call's answer and new state are the specification's; nothing is written past it, and nothing at all when refused |
| CborWriters.CborWriter.Map | crates/km43/src/cbor.rs:858-869 | the same, with the item count checked for overflow before the head |
| CborWriters.CborWriter.Key | crates/km43/src/cbor.rs:877-886 | the same; a key that does not exceed the last of its map is refused |
| CborWriters.CborWriter.U64 | crates/km43/src/cbor.rs:889-893 | the same for an unsigned integer |
| CborWriters.CborWriter.I32 | crates/km43/src/cbor.rs:897-909 | the same for a signed integer, the smallest included |
| CborWriters.CborWriter.Bool | crates/km43/src/cbor.rs:912-916 | the same for a simple value |
| CborWriters.CborWriter.Bytes | crates/km43/src/cbor.rs:920-925 | the same for a byte string |
| CborWriters.CborWriter.BytesToFill | crates/km43/src/cbor.rs:931-938 | the same for zeros to be filled in, and where they sit |
| CborWriters.CborWriter.Text | crates/km43/src/cbor.rs:942-951 | the same for text, refused over its bound |
| CborWriters.CborWriter.Raw | crates/km43/src/cbor.rs:972-988 | the same for an item already encoded: walked, whole, and no deeper than the bound from here |
| CborWriters.CborWriter.Finish | crates/km43/src/cbor.rs:954-960 | finish gives the length written, and refuses while a container is owed items |
| CborWriters.WalkOfItem | crates/km43/src/cbor.rs:972-988 | a fresh reader's skip of an item and its verdict on the rest are the grammar's |
| CborRoundTrip.HeadReadsBack | crates/km43/src/cbor.rs:744-768 | every head written decodes to itself wherever it stands, given room for the items it counts |
| CborRoundTrip.ShortestHead | crates/km43/src/cbor.rs:1006-1025 | whatever bytes decode to a head are longer than the writer's, or are the writer's |
| CborRoundTrip.RefusedFollows | crates/km43/src/cbor.rs:843-1001 | a refused call adds no byte and leaves a reader that followed the writer following it still |
| CborRoundTrip.AcceptedFollows | crates/km43/src/cbor.rs:843-1001 | after an accepted call a reader that has read it stands exactly where the writer does, open container by open container |
| CborRoundTrip.CallReturns | crates/km43/src/cbor.rs:453-653 | the typed read that answers an accepted call returns the value written |
| CborRoundTrip.RunReadsBack | crates/km43/src/cbor.rs:843-960 | the same from any point of any run of calls to a finished message |
| CborRoundTrip.WrittenReadsBack | crates/km43/src/cbor.rs:843-1058 | for every run of calls, refused ones among them, that writes something and finishes: the bytes are one item a reader walks and finishes, and typed reads give back every value accepted, in order |
| CborRoundTrip.OnlyAcceptedCallsWrite | crates/km43/src/cbor.rs:1006-1058 | the message is what the accepted calls emit and nothing else, and never outgrows the buffer |
| CborLanguage.FinishedIsTree | crates/km43/src/cbor.rs:843-1058 | whatever is called, refused calls among them, a message that finishes is exactly one sound tree: counts kept, every map's keys ascending, in the tree's own size |
| CborTrees.TreeWrites | crates/km43/src/cbor.rs:843-1058 | a tree of counted lists and ascending keys, at any place and depth it fits, is accepted whole in exactly its size |
| CborTrees.TreeRoundTrip | crates/km43/src/cbor.rs:843-1058 | such a message is written exactly when the buffer holds it, finishes, and reads back value by value |
| CborTreeItems.TreeItem | crates/km43/src/cbor.rs:586-597 | the grammar reads a tree's bytes as one item wherever they stand, exactly as high as the tree |
| CborTreeItems.TreeEmits | crates/km43/src/cbor.rs:1006-1058 | the calls that write a tree emit its bytes, in its size |
| Chains.CheckChain | crates/km43/src/buses_devices.rs:1054-1088 | the sixteen-step loop with its seen slots answers what the unbounded walk answers; by pigeonhole its last line is never reached |
| Chains.PassedFewer | crates/km43/src/buses_devices.rs:1054-1088 | distinct listed ids, none of them the device's own, are fewer than the entries |
| Chains.ChainExactly | crates/km43/src/buses_devices.rs:1054-1088 | a chain passes exactly when it reaches a root through listed devs, none twice and none its own, with at most the reported depth of devices |
| Chains.ChainsAreForest | crates/km43/src/buses_devices.rs:1002-1005 | every chain passes exactly when the section is a forest no deeper than the reported depth |
| SectionChecks.CheckBuses | crates/km43/src/buses_devices.rs:1009-1024 | the bus loop finds the first fault in the order faults are looked for |
| SectionChecks.CheckOptions | crates/km43/src/buses_devices.rs:548-564 | the option loop names the first option the dialect does not define, then a poll period too short |
| SectionChecks.CheckDevices | crates/km43/src/buses_devices.rs:985-1001 | the device loop finds the first fault over bus, address, dialect, options and repeated dev |
| SectionChecks.Check | crates/km43/src/buses_devices.rs:975-1007 | check answers the first fault of buses, count, devices and chains in that order |
| SectionChecks.CheckExactly | crates/km43/src/buses_devices.rs:975-1007 | a section passes exactly when it is admissible: known buses set once to what their transport has, devices allowed where they stand, no dev or address twice, a forest of bounded depth |
| Sorting.SortIsTheOnly | crates/km43/src/buses_devices.rs:1154-1163 | with distinct keys any ascending arrangement of the entries is the one modelled, whatever sort made it |
| SectionAccept.DevAllocator.Allocate | crates/km43/src/buses_devices.rs:214-218 | ids go out once each, ascending, and after 0xFFFF there are none |
| SectionAccept.BusesAndDevices.PushBus | crates/km43/src/buses_devices.rs:863-871 | a bus entry is added behind the others, or refused with nothing changed once eight are held |
| SectionAccept.BusesAndDevices.PushDevice | crates/km43/src/buses_devices.rs:874-882 | a device entry likewise, up to sixteen |
| SectionAccept.BusesAndDevices.SortSlots | crates/km43/src/buses_devices.rs:1154-1163 | the filled slots end up in order and the empty ones stay behind them |
| SectionAccept.BusesAndDevices.Take | crates/km43/src/buses_devices.rs:1121-1143 | entries are taken in turn: an edit of a device held with product and dialect unchanged, or an addition under the next id, or the first refusal |
| SectionAccept.BusesAndDevices.AcceptWrite | crates/km43/src/buses_devices.rs:1099-1147 | accept answers the specification's section and next id, or its refusal |
| SectionRuns.AdmittedBecame | crates/km43/src/buses_devices.rs:1121-1143 | each accepted entry is an edit of a held device as it was, or an addition under an id at or above every id given before, no two the same |
| SectionRuns.AdmittedForest | crates/km43/src/buses_devices.rs:1121-1143 | giving ids to additions keeps the parent forest |
| SectionRuns.AcceptedPasses | crates/km43/src/buses_devices.rs:1099-1163 | what accept returns passes the same check, strictly ascends, names every device, and stands below the next id |
| SectionRuns.WriteBack | crates/km43/src/buses_devices.rs:1099-1147 | what is held, written back unchanged, is accepted and changes nothing |
| SectionRuns.AcceptedWritesBack | crates/km43/src/buses_devices.rs:1099-1163 | accepting is idempotent |
| SectionAdmission.AcceptExactly | crates/km43/src/buses_devices.rs:1099-1147 | a write is accepted exactly when it is admissible, no id held has been overtaken, every edit stands and the ids left suffice |
| SectionAdmission.AcceptBecomes | crates/km43/src/buses_devices.rs:1119-1147 | what an accepted write becomes: its buses, its edits as they arrived, and each addition under the next id in turn, in order |
| SectionAdmission.AcceptRefuses | crates/km43/src/buses_devices.rs:1105-1147 | which refusal: the section's own, then a stale allocator, then what is wrong with the first entry that cannot be admitted |
| SectionAdmission.AcceptSpends | crates/km43/src/buses_devices.rs:214-218 | an accepted write spends exactly one id for each device it adds, so none can pass 0xFFFF |
| SectionFaults.OutOfIds | crates/km43/src/buses_devices.rs:1131-1133 | a write is told the ids have run out only when it adds more devices than there are ids left |
| SectionFaults.CheckSaysWhy | crates/km43/src/buses_devices.rs:975-1088 | every refusal of a section names something true of it, on the board, in the dialect table, or up a parent chain |
| SectionFaults.PassingBreaksNothing | crates/km43/src/buses_devices.rs:975-1007 | a section that passes breaks none of the rules an entry can break |
| SectionFaults.BoardExactly | crates/km43/src/buses_devices.rs:975-985 | a bus is on the transport of the board's first row with its number |
| SectionFaults.RuleExactly | crates/km43/src/buses_devices.rs:986-994 | a dialect's rule is the first of its rows that carries the transport |
| SectionRuns.IdsGivenOnce | crates/km43/src/buses_devices.rs:1099-1147 | over every run of writes from a fresh controller: a removed id never comes back, an id never moves to another product or dialect, no id is on two devices, and every id held is below the next |
| SectionRuns.NeverBehind | crates/km43/src/buses_devices.rs:1114-1118 | no write under any rules ever finds the allocator of such a run behind |
| SectionWire.SectionCosts | crates/km43/src/buses_devices.rs:30-43 | every section is a message the writer takes, of at most 5 + 16 per bus + 48 per device bytes, 901 in all |
| SectionAnswers.BoundReached | crates/km43/src/buses_devices.rs:30-32 | the widest section takes all 901 bytes |
| SectionParse.FaultExactly | crates/km43/src/buses_devices.rs:918-954 | the body's values are refused exactly when some entry, wherever it stands, holds a value out of schema, or there are more entries than slots |
| SectionParse.StructureBeforeValues | crates/km43/src/buses_devices.rs:918-954 | a write is answered outcome 3 exactly when its whole body parses and some value is out of schema or some entry has no slot, and error 1 exactly when it does not parse |
| SectionParse.BadExactly | crates/km43/src/buses_devices.rs:349-360 | which raw values are out of schema, entry by entry: ids of 0, addresses not of one to eight bytes, a direction of magnitude only, an option nobody allocated, a rate of 0, and other than 7 or 8 data bits or 1 or 2 stop bits |
| SectionValues.NothingLost | crates/km43/src/buses_devices.rs:318-361 | an accepted body loses no value: each entry says, number for number, all that arrived, in its place |
| SectionValues.FaultSays | crates/km43/src/buses_devices.rs:1166-1198 | a refusal is of the first entry with something wrong, and names what that is |
| SectionBytes.ParseBusExactly | crates/km43/src/buses_devices.rs:323-361 | a bus entry parses exactly when its bytes form one, in any order and beside any unknown keys, and to what stands under each key |
| SectionBytes.ParseOptionsExactly | crates/km43/src/buses_devices.rs:501-545 | options likewise, the keys nobody allocated set aside in order |
| SectionBytes.ParseDeviceExactly | crates/km43/src/buses_devices.rs:670-727 | a device entry likewise |
| SectionBytes.ParseBodyExactly | crates/km43/src/buses_devices.rs:918-954 | a body's structure parses exactly when its bytes form one, and its rows are what its lists say |
| SectionBytes.NoRepeatedKey | crates/km43/src/cbor.rs:17-26 | in a body that parses no map, at any level, repeats a key, known to the decoder or skipped by it, and nothing the format forbids stands anywhere |
| SectionRoundTrip.BusRead | crates/km43/src/buses_devices.rs:323-361 | a written bus entry parses back to what was written, and the reader stands behind it |
| SectionRoundTrip.DeviceRead | crates/km43/src/buses_devices.rs:670-727 | a written device entry likewise, options included |
| SectionRoundTrip.BodyRead | crates/km43/src/buses_devices.rs:918-954 | a written body parses back to exactly the rows written |
| SectionRoundTrip.SectionReadsBack | crates/km43/src/buses_devices.rs:896-954 | a section whose buses each set something, and which for an answer names and orders its devices, encodes wherever it fits and decodes to itself |
| SectionAnswers.AscentExactly | crates/km43/src/buses_devices.rs:958-971 | comparing neighbours passes exactly the strictly ascending sections |
| SectionAnswers.AcceptedAnswers | crates/km43/src/buses_devices.rs:1099-1163 | the section an accepted write left is never refused by the encoder for its order, fits 901 bytes, and reads back |
| SectionAnswers.DecodedIsSendable | crates/km43/src/buses_devices.rs:918-954 | whatever decodes sets something on every bus and, as an answer, names and orders every entry |
| SectionAnswers.ReadsBackExactly | crates/km43/src/buses_devices.rs:896-954 | a section survives the wire exactly when its buses each set something and, as an answer, it names and strictly orders its entries |
| SectionEncode.EncodeBus | crates/km43/src/buses_devices.rs:300-321 | the bus encoder makes exactly the calls of the entry's tree, or stops at the writer's refusal |
| SectionEncode.EncodeOptions | crates/km43/src/buses_devices.rs:478-497 | the options encoder likewise |
| SectionEncode.EncodeDevice | crates/km43/src/buses_devices.rs:641-668 | the device encoder likewise |
| SectionEncode.Encode | crates/km43/src/buses_devices.rs:896-911 | encode writes the specification's body and gives its length, or its refusal |
| SectionEncode.BusPairs | crates/km43/src/buses_devices.rs:293-298 | the pair count announced is the number of pairs written |
| SectionEncode.DevicePairs | crates/km43/src/buses_devices.rs:634-639 | the same for a device entry |
| SectionDecode.DecodeBus | crates/km43/src/buses_devices.rs:323-361 | one pass over a bus entry gives its structure's answer, its value, and the first fault noted |
| SectionDecode.DecodeOptions | crates/km43/src/buses_devices.rs:501-545 | one pass over options: an unallocated one is noted and read past, a malformed one refuses |
| SectionDecode.DecodeDevice | crates/km43/src/buses_devices.rs:670-727 | one pass over a device entry likewise |
| SectionDecode.Decode | crates/km43/src/buses_devices.rs:918-954 | the one-pass decoder that notes bad values as it goes answers exactly what reading the whole structure first and judging values after would |
| SectionDecode.Invalid.Note | crates/km43/src/buses_devices.rs:1172-1176 | the first refusal noted is the one kept |
| Cobs.EncodedLength | crates/km43/src/cobs.rs:76-80 | an encoding is one byte, the payload, and one byte for each full block closed, within the reserved bound |
| Cobs.EncodedNoZero | crates/km43/src/cobs.rs:87-100 | an encoding has no zero in it |
| Cobs.RoundTrip | crates/km43/src/cobs.rs:87-111 | every payload encodes without a zero, within the bound, at its exact length, and decodes to itself |
| Cobs.DecodesTo | crates/km43/src/cobs.rs:208-250 | exactly what decodes to a payload: its encoding, and, when that ends in a full block, the encoding with one empty block behind it |
| Cobs.DecodedShrinks | crates/km43/src/cobs.rs:102-111 | nothing with a zero in it decodes, and what decodes is shorter than what it came from |
| Cobs.Encoder.Push | crates/km43/src/cobs.rs:137-149 | a byte pushed with more to come keeps the promise of the whole encoding, and is refused only when it cannot fit |
| Cobs.Encoder.Finish | crates/km43/src/cobs.rs:180-187 | closing the last block leaves exactly the encoding, and nothing past it is touched |
| Cobs.Encode | crates/km43/src/cobs.rs:87-100 | with less than the reserved room the destination is untouched; with it the encoding is written and nothing after |
| Cobs.Decoder.Run | crates/km43/src/cobs.rs:208-223 | the block loop decodes as the specification does, or refuses with the same error |
| Cobs.Decode | crates/km43/src/cobs.rs:106-111 | decode writes the specification's payload, or refuses as it does |
| Crc.ComputeCrc16 | crates/km43/src/crc.rs:28-49 | the shifting loops compute the remainder of dividing the message, bit by bit, by the polynomial |
| CrcValues.Crc16IsFed | crates/km43/src/crc.rs:28-49 | the checksum is what a sixteen-bit number comes to that starts at 0xFFFF and for each bit is doubled and, on feedback, has 0x1021 exclusive-ored in |
| CrcValues.CheckValue | crates/km43/src/crc.rs:51-54 | the published check value: the digits 1 to 9 come to 0x29B1 |
| CrcValues.OfNothing | crates/km43/src/crc.rs:20-20 | the empty message comes to 0xFFFF |
| Crc.ShiftFolded | crates/km43/src/crc.rs:35-46 | folding a byte in and shifting eight times is dividing by its eight bits |
| Crc.RemainderInjective | crates/km43/src/crc.rs:28-49 | dividing by the same bits is a bijection on the register |
| Crc.BurstDetected | crates/km43/src/crc.rs:28-49 | two messages of one length that differ, but only within sixteen consecutive bits, have different checksums |
| Crc.ZeroResidue | crates/km43/src/crc.rs:28-49 | a message with its checksum behind it, high byte first, leaves residue zero |
| Frame.DeliveredExactly | crates/km43/src/frame.rs:329-361 | exactly the runs that deliver a payload: within the buffer, no larger than a payload, and spelling it with its own checksum behind it |
| Frame.FramedShape | crates/km43/src/frame.rs:126-158 | a written frame's body has no delimiter in it, fits the bounds, and is judged to be its payload |
| Frame.ReaderSplitsAndJudges | crates/km43/src/frame.rs:248-271 | the byte-at-a-time reader says what splitting the stream on delimiters and judging each run alone says |
| Frame.FrameAlone | crates/km43/src/frame.rs:248-271 | a frame is delivered exactly at its last byte, and nothing is said before |
| Frame.FrameDelivered | crates/km43/src/frame.rs:248-271 | after any garbage one delimiter is enough: the frame written next is delivered exactly at its last byte |
| Frame.Resynchronises | crates/km43/src/frame.rs:276-312 | a delimiter, a discard or a timeout from any state puts the next frame through whole |
| Frame.FrameWriter.Write | crates/km43/src/frame.rs:126-158 | write lays down the framed payload or refuses before touching the destination |
| Frame.FrameReader.Push | crates/km43/src/frame.rs:248-271 | one byte: the specification's answer and state, overlong runs forgotten but not lost count of |
| Frame.FrameReader.Tick | crates/km43/src/frame.rs:299-312 | the same with the clock: a silence past the limit abandons a run in progress |
| FrameSilence.PromptIsUnheard | crates/km43/src/frame.rs:299-312 | silences below fifty milliseconds change nothing the reader says of the bytes |
| FrameSilence.SilenceAbandons | crates/km43/src/frame.rs:299-312 | a silence that reaches fifty abandons a run in progress, once, however it is divided into ticks |
| WireVectors.FrameVectors | crates/km43/src/frame.rs:392-392 | two whole frames byte for byte, the checksum low byte first |
| WireVectors.RoomIsUsed | crates/km43/src/cobs.rs:76-80 | the room asked for is all used by a payload without zeros whose last block is not full, so no less would do |
| WireVectors.CobsVector | crates/km43/src/cobs.rs:285-288 | published encodings byte for byte |
| WireVectors.EmptySectionVector | crates/km43/src/buses_devices.rs:1520-1520 | the empty section byte for byte |
| Frame.FrameReader.Take | crates/km43/src/frame.rs:329-361 | a completed run is judged as the specification judges it |
| Ble.CallsKeepTxValid | crates/km43/src/ble.rs:225-280 | no call lets the fragment index reach the mask or the offset leave the message |
| Ble.AiredIsTheStream | crates/km43/src/ble.rs:225-280 | over any calls, what was admitted and what is pending are the queued messages' fragments, each once and in order |
| Ble.DeliveredWholeOrNotAtAll | crates/km43/src/ble.rs:124-188 | under any loss and any timing of up to 256 messages, what is delivered is a subsequence of what was queued: each whole, at most once, in order |
| BleIds.SafeExactly | crates/km43/src/ble.rs:154-188 | losses are safe for up to 256 messages on one connection and for no more: with the 257th an id comes round and two messages can be stitched |
| Ble.MessageDelivered | crates/km43/src/ble.rs:136-188 | every message at every limit that can be selected on a negotiated MTU, received in order and in time by a receiver with nothing open that it has to keep: nothing until the last value, then exactly the message |
| BleDelivery.AiredInParts | crates/km43/src/ble.rs:247-280 | what has been admitted is every value of the completed messages and then a proper front of the pending one's |
| BleDelivery.DeliveredInFull | crates/km43/src/ble.rs:124-280 | whatever the calls, an idle receiver that gets all that was admitted, where it fits and in time, delivers exactly the completed messages, each once and in order, ids coming round again or not |
| BleLosses.DeliveredAreTheIntact | crates/km43/src/ble.rs:124-188 | under any loss and any timing of up to 256 messages, what is delivered is exactly the messages all of whose values arrive, fit and are in time, whatever was lost before them |
| Ble.FirstValueExactly | crates/km43/src/ble.rs:136-188 | a first value is taken exactly when nothing is open or what is open is another message's or has expired |
| Ble.BleReceiver.ReceiveValue | crates/km43/src/ble.rs:136-152 | one value: the specification's answer and assembly, cleared on any refusal |
| Ble.BleSender.EnqueueMessage | crates/km43/src/ble.rs:225-244 | a message is taken when none is pending and its length is allowed, and otherwise nothing changes |
| Ble.BleSender.OfferFragment | crates/km43/src/ble.rs:247-266 | the next value, the same bytes again until it is admitted |
| Ble.BleSender.Accepted | crates/km43/src/ble.rs:269-280 | admission moves to the next fragment, or ends the message and moves the id |
| Drbg.DrawMixing | crates/km43/src/drbg.rs:84-97 | a draw is released only once the store holds its successor, whatever the write, the read-back or the power does |
| Drbg.ReleasedOnceAlong | crates/km43/src/drbg.rs:63-97 | in any run of draws, faults, crashes and restarts whose states do not come round, no state releases twice and the stored state has released nothing |
| Drbg.NoDrawTwiceExactly | crates/km43/src/drbg.rs:63-97 | no run ever draws from a state twice exactly when no chain of successors returns |
| Sweeps.EntryFits | crates/km43/src/changes.rs:160-184 | an entry never outgrows the buffer its kind allows |
| Sweeps.TakenIsKept | crates/km43/src/changes.rs:160-184 | over any run of offers a sweep holds exactly those answered true, in order, within its rows and bytes |
| Sweeps.OfferExactly | crates/km43/src/changes.rs:160-184 | an offer is refused exactly when it changes nothing, put off exactly when every row is taken, and taken otherwise |
| SweepsRoundTrip.EntryDecodes | crates/km43/src/changes.rs:57-80 | an entry's bytes decode to the entry |
| SweepsRoundTrip.EntriesAreTaken | crates/km43/src/changes.rs:394-405 | walking what a sweep holds yields every change taken, in order |
| SweepsRoundTrip.SweepReadsBack | crates/km43/src/changes.rs:266-283 | a sweep encodes wherever it fits, and its body reads back to its revision and exactly its changes |
| SweepsRoundTrip.SaidAsTaken | crates/km43/src/changes.rs:158-283 | over any run of offers, the entries walked before encoding and those read from the bytes are both exactly the offers answered true, in order |
| SweepBuilders.Sweep.Offer | crates/km43/src/changes.rs:160-184 | an offer answers and keeps what the specification says; a refused or full one leaves the sweep as it was |
| SweepBuilders.Sweep.Entries | crates/km43/src/changes.rs:260-263 | the iterator's pending entries are the changes taken |
| SweepBuilders.Sweep.WriteRows | crates/km43/src/changes.rs:186-197 | every packed entry is copied in as one item of the array |
| SweepBuilders.Sweep.Encode | crates/km43/src/changes.rs:266-277 | encode writes the specification's body, or refuses an empty sweep |
| SweepsWalks.OpenedWalks | crates/km43/src/changes.rs:394-405 | no entry of a sweep that opened is ever refused by the walk to it, whatever the entries say |
| SweepsWalks.EntriesWalk | crates/km43/src/changes.rs:394-405 | nor is an entry of a sweep still being built |
| SweepBuilders.Changes.Next | crates/km43/src/changes.rs:394-405 | the next pending entry is handed out, the count goes down by one, and an iterator that can walk to every entry keeps doing so |
| SweepBuilders.ReadEntry | crates/km43/src/changes.rs:57-80 | one entry decoded as the specification decodes it |
| SweepBuilders.ReadSweep | crates/km43/src/changes.rs:361-383 | the whole body is walked before an entry is handed out |

## Left out

- `usize` is thirty-two bits, the controller's; a sixty-four-bit build differs only in counts no message can hold.
- Bytes and machine integers are integers within their ranges; the CRC register is its sixteen bits.
- Slices borrowed from an input are values; that they alias the input is not modelled.
- What a reader or a decoder does after it has refused something is not modelled, because every caller stops there. A sweep's iterator would go on, but neither of the ways to get one ever gives it a walk that is refused (`SweepsWalks.OpenedWalks`, `SweepsWalks.EntriesWalk`).
- SectionAccept.BusesAndDevices.SortSlots: places the entries in order in one step, because the program leaves the ordering to its standard library; that any such ordering gives the same result is `Sorting.SortIsTheOnly`.
- CborReaders.CborReader.ReadUnsigned: stands for the four unsigned reads, their width a parameter.
- `Drbg.DrawMixing`: one live generator at a time, as the type that is consumed by each draw makes sure of; the keyed hash is an arbitrary function of the state, and the waits between steps are not modelled.
- The two sweep records are one class with the kind a parameter; `TopologyChanged` has no array and is left out.
- The other message bodies repeat the key-by-key shape of the ones modelled and would add only easy round trips.
- Admission, identity and counter rules are one-step facts.
- Hashing, key derivation and zeroing of memory belong to libraries.
- Display text, logging and the mapping of refusals to codes, beyond the two classes the decoder is proved for.
- That a checksum catches arbitrary corruption, which holds only with high probability.
- Nothing was executed: the proofs are of the model.
