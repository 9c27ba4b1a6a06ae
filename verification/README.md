# Energy chain: a verified model

This project models the stateful core of the energy chain node and proves what the node
relies on. `dafny verify dfyconfig.toml` checks all of it.

* **Wire codec** (`Varint`, `Wire`, `Unmarshal`, `Messages`, `Marshal`, `RoundTrip`, `WireLaws`). The
  generated protobuf code through which every stored value passes: the encoder that sizes a
  message and fills a buffer from the back to the front, and the decoder's loops on wrapping
  64-bit indexes. `Wire` is the grammar of the Protocol Buffers Encoding specification
  (sections "Base 128 Varints", "Length-Delimited Records", "Groups", "Last One Wins"); the
  loops are proved against it. The energy messages and their nested genesis state stand for
  the other generated files, which repeat the same shapes.
* **Merkle root** (`Merkle`, `MerkleLaws`, `MerkleTwins`). What a batch's declared root binds it to. The hash is a
  parameter of which only the output length is known; binding is stated as "the same batch,
  or here is a collision among the byte strings hashed".
* **Modules** (`Energy*`, `Oracle*`, `Audit*`, `Identity*`, `Ids`, `Store`). Each module has a
  pure state machine (`...State`), a keeper class whose methods write field after field as the
  source does and are proved against it (`...Keeper`), and theorems over whole runs
  (`...Runs`, `...Exports`, `EnergyBatches`, `EnergyRates`, `AuditTimes`); `...Laws` says who may do
  what and what it changes, in literal numbers and texts. `Store` gives the
  order of a walk over a collection: the unique ascending enumeration of its keys.
* **Broadcaster** (`Broadcaster`, `BroadcasterLaws`). The bounded queue of promoted transactions, as atomic steps
  of any number of enqueuers, the consumer loop and Close, in every interleaving.

Strings are byte sequences. Integers are unbounded; every conversion and sum that can wrap in
the source is written out modulo 2^32 or 2^64. A message is one atomic step: a refused one
leaves the state as it was. Theorems over runs ask that the 64-bit counters do not run out: the
sequence, as the genesis sets it, plus the identifiers a run asks for stays below 2^64. Lists
and payloads are shorter than 2^32 where the source stores their length in 32 bits, and buffers
shorter than 2^63.

Where the code and its comments differ, the model follows the code:

* `chain/x/energy/keeper/invariants.go:141-144` says that shrinking the metadata cap below
  stored payloads is refused; `chain/x/energy/keeper/msg_server.go:147-159` accepts it.
  `EnergyRuns.UpdateCanBreakCap` gives an input, `EnergyRuns.UpdateKeepsCapIff` the exact
  condition, `EnergyRuns.CapKept` that nothing else breaks the cap.
* `chain/x/energy/keeper/msg_server.go:164-169` says that the index tag separates batches of
  different lengths. It does at equal depth; at different depths a batch whose DataHashes have
  exactly 56 bytes can share the root of a longer one. `MerkleTwins.SharedRootIff` is the exact
  condition for two batches, `MerkleTwins.TwinIff` for a single item to have such a twin.
* An export need not be a valid genesis. `...Exports.ExportValidIff` says for each module when
  it is. For energy, audit and identity it is as long as no update lowers a size cap
  (`...Exports.ExportsStayValid`, `...Exports.UpdateInstance`). For oracles it also fails after
  a removal (`OracleExports.RemovalBreaksExportIff`, `OracleExports.RemovalInstance`) and above
  1000 oracles with no message at all (`OracleExports.CrowdedInstance`);
  `OracleExports.ExportsOverRuns` says when, over runs.
* A new identifier is fresh only while the counter does not wrap, and a genesis may set it to
  the top of its 64 bits: `chain/x/energy/types/genesis.go:67-108` and
  `chain/x/audit/types/genesis.go:52-79` bound neither counter. `NextIsFreshIff` and
  `ExhaustedInstance` of `EnergyRuns` and `AuditRuns` give the exact condition and the input.
* The cache of latest oracle data holds the last write, not the greatest timestamp, and a
  restart turns one into the other: `OracleRuns.RestartCacheIff`, and
  `OracleRuns.CacheLostInstance` for a run that reaches it.
* Queries by time file negative timestamps under zero. For oracles such a record enters only
  through a genesis that was not validated: `chain/x/oracle/types/genesis.go:75-77` and
  `chain/x/oracle/types/msgs.go:40-42` refuse timestamps that are not positive
  (`OracleRuns.HistoryIsFilterIff`, `OracleRuns.HistoryOverRuns`). The audit genesis is
  validated without looking at timestamps (`AuditTimes.TimeQueryIsFilterIff`,
  `AuditTimes.NegativeTimeInstance`).

## Model
| member | source | states |
|---|---|---|
| Varint.SovIsLength | chain/x/energy/types/types.pb.go:730-732 | the bit-length formula gives exactly the number of bytes of the varint, for every value |
| Varint.ReadPut | chain/x/energy/types/types.pb.go:742-755 | every unsigned 64-bit value survives encoding and reading, whatever bytes follow |
| Varint.GetExtend | chain/x/energy/types/types.pb.go:742-755 | reading a varint looks at nothing behind it |
| Varint.GetPrefix | chain/x/energy/types/types.pb.go:742-755 | nor does it need more than the bytes of the number |
| Varint.AccumulateStep | chain/x/energy/types/types.pb.go:751 | or-ing seven shifted bits into a variable of any width keeps it equal to the number read so far modulo that width, also when bits are shifted past the top |
| Varint.ScanIsGet | chain/x/energy/types/types.pb.go:742-755 | accumulating from the low end, as the loop does, gives the base 128 number |
| Varint.ReadVarint | chain/x/energy/types/types.pb.go:742-755 | the varint loop: it succeeds exactly when a number ends within ten bytes, gives that number in the width of the target, and otherwise tells overflow from end of input |
| Varint.Read64 | chain/x/energy/types/types.pb.go:742-755 | the loop into a 64-bit variable is the specified reading |
| Varint.Read32 | chain/x/energy/types/types.pb.go:1113-1127 | the loop into a 32-bit variable keeps the low half of the 64-bit reading |
| Unmarshal.SkipElement | chain/x/energy/types/types.pb.go:1477-1538 | one element of a skipped field under wrapping index arithmetic: no index or slice out of range, and the element the grammar describes whenever it fits |
| Unmarshal.SkipTypes | chain/x/energy/types/types.pb.go:1473-1544 | the skip loop terminates on every input, a success advances by at least one byte, and it accepts exactly the elements and balanced groups of the grammar |
| Unmarshal.NextField | chain/x/energy/types/types.pb.go:740-976 | one pass of the decoder: tag, checks, value or skip; it fails exactly when the grammar has no field there, and reads 32-bit fields by the 32-bit loop |
| Unmarshal.UnmarshalMessage | chain/x/energy/types/types.pb.go:736-983 | the decoder loop terminates on every input and is a fold over the fields of the input, on top of the message given |
| Unmarshal.FoldAppend | chain/x/energy/types/types.pb.go:740-977 | applying fields in two parts is applying them all |
| Unmarshal.DecodeAppend | chain/x/energy/types/types.pb.go:736-983 | if x decodes, decoding x followed by y is decoding y on top of the result of x |
| Unmarshal.DecodeInsert | chain/x/energy/types/types.pb.go:963-976 | whatever parses to no field changes no result at any field boundary |
| Wire.SkipExtend | chain/x/energy/types/types.pb.go:1473-1544 | skipping looks at nothing behind what it skips |
| Wire.SkipUnknown | chain/x/energy/types/types.pb.go:1473-1544 | every well-formed field of any wire type, overlong varints included, is skipped exactly, at any group depth |
| Wire.GroupContents | chain/x/energy/types/types.pb.go:1473-1544 | whatever the depth counter accepts inside an open group is a list of well-formed fields and an end tag |
| Wire.SkipIffUnknown | chain/x/energy/types/types.pb.go:1473-1544 | skipping with a depth counter accepts exactly the well-formed fields, groups nested to any depth included |
| Wire.ParseAppend | chain/x/energy/types/types.pb.go:740-977 | a body that parses can be followed by any other |
| Wire.ParseEncoded | chain/x/energy/types/types.pb.go:740-977 | parsing inverts the forward encoding of a list of fields |
| Wire.NextIffUnknown | chain/x/energy/types/types.pb.go:963-976 | what parses to no field is exactly a well-formed field, however its varints are spelled, whose positive number the message does not know |
| WireLaws.PutBytes | chain/x/energy/types/types.pb.go:609-619 | byte i of a varint holds the seven bits from bit 7i on and a mark whether more follow |
| WireLaws.PutSize | chain/x/energy/types/types.pb.go:730-732 | no varint is longer than its value needs |
| WireLaws.ReadIff | chain/x/energy/types/types.pb.go:742-755 | what a reading accepts: at most ten bytes, of which only the last is below 128, and the number they write modulo 2^64 |
| WireLaws.FieldNumIs | chain/x/energy/types/types.pb.go:756 | the field number is the tag without its lowest three bits, as a signed 32-bit number |
| WireLaws.UnknownIsSkipped | chain/x/energy/types/types.pb.go:963-976 | a field spelled in literal bytes, of any wire type and groups nested to any depth, under a number the message does not know, changes no result anywhere in a body |
| WireLaws.TagRefused | chain/x/energy/types/types.pb.go:757-764 | a tag with field number zero, an end group, no such wire type, or the wrong wire type for a known field is refused anywhere in a body |
| WireLaws.LengthRefused | chain/x/energy/types/types.pb.go:779-800 | so is a text announced longer than what is left |
| WireLaws.EnergyDataField | chain/x/energy/types/types.pb.go:764-962 | which number sets which field of a record, on top of any record; signed numbers in two's complement |
| WireLaws.BatchField | chain/x/energy/types/types.pb.go:984-1199 | the same for BatchSubmission, its count modulo 2^32 |
| WireLaws.ParamsField | chain/x/energy/types/types.pb.go:1200-1358 | the same for Params: 32-bit numbers modulo 2^32, entries appended, every number but zero sets the flag |
| WireLaws.ItemField | chain/x/energy/types/types.pb.go:1359-1472 | the same for BatchItem |
| WireLaws.GenesisField | chain/x/energy/types/genesis.pb.go:235-404 | the same for GenesisState: parameters on top of those there, records and batches from nothing, refused when an embedded message is |
| RoundTrip.EnergyDataRoundTrip | chain/x/energy/types/types.pb.go:401-452 | unmarshalling a marshalled EnergyData gives it back, negative integers and arbitrary bytes included |
| RoundTrip.BatchRoundTrip | chain/x/energy/types/types.pb.go:469-513 | the same for BatchSubmission |
| RoundTrip.ParamsRoundTrip | chain/x/energy/types/types.pb.go:530-570 | the same for Params; empty entries of the repeated string are kept |
| RoundTrip.ItemRoundTrip | chain/x/energy/types/types.pb.go:587-607 | the same for BatchItem |
| RoundTrip.GenesisRoundTrip | chain/x/energy/types/genesis.pb.go:141-190 | the same for the nested message: parameters, every record and every batch in order |
| RoundTrip.EnergyDataConcat | chain/x/energy/types/types.pb.go:736-983 | two encodings in a row decode to their merge: the last scalar present wins |
| RoundTrip.BatchConcat | chain/x/energy/types/types.pb.go:984-1199 | the same for BatchSubmission |
| RoundTrip.ParamsConcat | chain/x/energy/types/types.pb.go:1200-1358 | the same for Params: scalars last wins, repeated entries append, the flag stays set |
| RoundTrip.GenesisConcat | chain/x/energy/types/genesis.pb.go:235-404 | the same for the nested message: embedded parameters merge, records and batches append |
| RoundTrip.UnmarshalEnergyData | chain/x/energy/types/types.pb.go:736-983 | the decoder on EnergyData, on every input and on top of any message |
| RoundTrip.UnmarshalBatch | chain/x/energy/types/types.pb.go:984-1199 | the decoder on BatchSubmission |
| RoundTrip.UnmarshalParams | chain/x/energy/types/types.pb.go:1200-1358 | the decoder on Params |
| RoundTrip.UnmarshalItem | chain/x/energy/types/types.pb.go:1359-1472 | the decoder on BatchItem |
| RoundTrip.UnmarshalGenesis | chain/x/energy/types/genesis.pb.go:235-404 | the decoder on GenesisState, whose switch runs the loops of the embedded messages: parameters on top of those already there, each record and batch from a zero message |
| RoundTrip.StoreAndLoad | chain/x/energy/keeper/keeper.go:72-78 | a record marshalled into a buffer of its size and read back into a zero message is unchanged |
| WireLaws.EnergyDataBytes | chain/x/energy/types/types.pb.go:401-452 | a record byte by byte: literal tags in ascending order, empty texts and zeros left out, negative numbers modulo 2^64 |
| WireLaws.BatchBytes | chain/x/energy/types/types.pb.go:469-513 | the same for BatchSubmission |
| WireLaws.ParamsBytes | chain/x/energy/types/types.pb.go:530-570 | the same for Params |
| WireLaws.ItemBytes | chain/x/energy/types/types.pb.go:587-607 | the same for BatchItem |
| WireLaws.GenesisBytes | chain/x/energy/types/genesis.pb.go:141-190 | the same for GenesisState, whose parameters are always written |
| Marshal.EncodeVarint | chain/x/energy/types/types.pb.go:609-619 | a varint is written to end exactly at the offset, takes exactly its announced size, and leaves the rest of the buffer alone |
| Marshal.EnergyDataToSizedBuffer | chain/x/energy/types/types.pb.go:401-452 | back to front, the fields end up in ascending order just before the end given, in exactly the announced size; nothing else in the buffer changes |
| Marshal.BatchToSizedBuffer | chain/x/energy/types/types.pb.go:469-513 | the same for BatchSubmission |
| Marshal.ParamsToSizedBuffer | chain/x/energy/types/types.pb.go:530-570 | the same for Params |
| Marshal.ItemToSizedBuffer | chain/x/energy/types/types.pb.go:587-607 | the same for BatchItem |
| Marshal.GenesisToSizedBuffer | chain/x/energy/types/genesis.pb.go:141-190 | the same for GenesisState, whose embedded messages are written in place and measured by what they return |
| Marshal.ComputeSizeParams | chain/x/energy/types/types.pb.go:686-711 | the size loop over the repeated field adds up every entry |
| Marshal.ComputeSizeGenesis | chain/x/energy/types/genesis.pb.go:203-227 | the size loops over records and batches add up every entry |
| Marshal.MarshalEnergyData | chain/x/energy/types/types.pb.go:386-394 | the buffer allocated from the size is filled to its first byte with the forward encoding |
| Marshal.MarshalBatch | chain/x/energy/types/types.pb.go:454-462 | the same for BatchSubmission |
| Marshal.MarshalParams | chain/x/energy/types/types.pb.go:515-523 | the same for Params |
| Marshal.MarshalItem | chain/x/energy/types/types.pb.go:572-580 | the same for BatchItem |
| Marshal.MarshalGenesis | chain/x/energy/types/genesis.pb.go:126-134 | the same for GenesisState |
| Merkle.HashPair | chain/x/energy/keeper/msg_server.go:211-221 | the hash of the two nodes in the order of their hex texts |
| Merkle.ComputeMerkleRoot | chain/x/energy/keeper/msg_server.go:195-209 | the recursion over levels, an odd node paired with itself |
| Merkle.VerifyMerkleRoot | chain/x/energy/keeper/msg_server.go:170-193 | accepts exactly the non-empty lists whose root has the hex text declared, up to letter case and one 0x prefix |
| MerkleLaws.BigEndianIs | chain/x/energy/keeper/msg_server.go:175-183 | the index tag writes the index, most significant byte first |
| MerkleLaws.LeafIs | chain/x/energy/keeper/msg_server.go:175-183 | item i is hashed behind i in eight bytes |
| MerkleLaws.PairIs | chain/x/energy/keeper/msg_server.go:211-221 | two nodes are hashed with the lesser hash first, compared as bytes |
| MerkleLaws.RootIs | chain/x/energy/keeper/msg_server.go:195-209 | a root is that of the hashes of neighbours in order, the last with itself when their number is odd |
| MerkleLaws.ShortRoots | chain/x/energy/keeper/msg_server.go:170-221 | the roots of batches of one, two and three items, written out |
| MerkleLaws.AcceptsIff | chain/x/energy/keeper/msg_server.go:186-192 | accepted are exactly the texts that spell the root in hexadecimal digits of any case, with or without 0x or 0X in front |
| MerkleLaws.RootAccepted | chain/x/energy/keeper/msg_server.go:186-192 | every batch with items has an accepted text of 64 lower-case digits, accepted in upper case and behind a prefix too |
| Merkle.HexInjective | chain/x/energy/keeper/msg_server.go:186-189 | different roots have different texts |
| Merkle.EqualDepthBinding | chain/x/energy/keeper/msg_server.go:161-221 | two batches of equal depth with the same root are the same sequence, or two of the byte strings hashed for them collide |
| Merkle.ShallowBinding | chain/x/energy/keeper/msg_server.go:161-221 | at different depths they collide, unless every DataHash of the shallower batch has exactly 56 bytes |
| Merkle.AcceptedBinding | chain/x/energy/keeper/msg_server.go:161-221 | two batches accepted for the same declared root are the same, or collide, or the shallower one has only DataHashes of 56 bytes |
| Merkle.SingleTwin | chain/x/energy/keeper/msg_server.go:164-169 | the exception is exact: without a collision, a batch of one item has the root of a longer batch if and only if its leaf is the last pair hashed for that batch |
| MerkleTwins.SharedRootIff | chain/x/energy/keeper/msg_server.go:161-221 | for batches of any lengths: without a collision two roots are equal if and only if the trees are the same up to swapping sides of forks, a leaf standing for the fork whose two hashes it spells |
| MerkleTwins.RootIsValue | chain/x/energy/keeper/msg_server.go:195-209 | the levels of hashes compute the value of a tree, from the same preimages |
| MerkleTwins.TwinIff | chain/x/energy/keeper/msg_server.go:164-169 | which single items can share the root of a longer batch without a collision: exactly those of 56 bytes whose leaf reads as two different hashes in sorted order |
| MerkleTwins.TwinInstance | chain/x/energy/keeper/msg_server.go:164-169 | such an item exists |
| Merkle.SameLeaves | chain/x/energy/keeper/msg_server.go:175-183 | the index tags turn the set of leaves back into the sequence of items |
| Merkle.SameBottom | chain/x/energy/keeper/msg_server.go:195-221 | trees of equal depth with the same root have the same set of leaves, despite sorted pairs and a duplicated odd node |
| Ids.ParseEnergyID | chain/x/energy/keeper/keeper.go:360-373 | the parsing loop: prefix, then digits read in wrapping 64-bit arithmetic |
| Ids.ParsePrint | chain/x/energy/keeper/keeper.go:118-125 | reading back a generated identifier gives its number, for every 64-bit number |
| Ids.ParseIs | chain/x/energy/keeper/keeper.go:360-373 | exactly which identifiers carry a number, and that it is the one written modulo 2^64 |
| Ids.PrintParseIff | chain/x/energy/keeper/keeper.go:357-359 | printing the number read gives the identifier back if and only if its digits have no leading zero, unless they are "0", and write a number below 2^64 |
| Ids.PrintParseLosesZeros | chain/x/energy/keeper/keeper.go:357-359 | an input on which it does not: a leading zero |
| Ids.PrintIs | chain/x/energy/keeper/keeper.go:118-125 | an identifier is "energy-" and the decimal digits of its number, without a leading zero |
| Ids.PrintDigits | chain/x/energy/keeper/keeper.go:118-125 | for instance "energy-1234567890", byte by byte |
| EnergyKeeper.Keeper.SubmitEnergyData | chain/x/energy/keeper/keeper.go:149-160 | stores the record and both index entries, nothing else |
| EnergyKeeper.Keeper.IsAllowedSubmitter | chain/x/energy/keeper/keeper.go:258-269 | permissionless mode, or membership in the list |
| EnergyKeeper.Keeper.CheckAndIncrSubmitCount | chain/x/energy/keeper/keeper.go:286-306 | fails exactly when a limit is set and reached, otherwise counts |
| EnergyKeeper.Keeper.HandleSubmit | chain/x/energy/keeper/msg_server.go:26-67 | accepts exactly when the state machine does, with its new state |
| EnergyKeeper.Keeper.HandleBatch | chain/x/energy/keeper/msg_server.go:69-142 | the same for a batch: checks, count, root, then its own identifier, its records, the batch |
| EnergyKeeper.Keeper.RecordItems | chain/x/energy/keeper/msg_server.go:104-118 | the loop over items stores each under the next identifier |
| EnergyKeeper.Keeper.HandleUpdateParams | chain/x/energy/keeper/msg_server.go:147-159 | only the authority, only valid parameters |
| EnergyKeeper.Keeper.DeliverMsg | chain/app.go:834-836 | a refused message leaves the whole state as it was |
| EnergyKeeper.Keeper.BumpMetadataCap | chain/upgrades/v1_0_1/upgrade.go:113-127 | raises a cap below 8 KiB to 8 KiB if the result is valid, and otherwise changes nothing |
| EnergyKeeper.Keeper.InitGenesis | chain/x/energy/keeper/keeper.go:312-346 | imports parameters, records with indexes, batches, and the highest number found |
| EnergyKeeper.Keeper.ExportGenesis | chain/x/energy/keeper/keeper.go:348-355 | exports records and batches in key order, and the sequence |
| EnergyKeeper.Keeper.ValidateGenesis | chain/x/energy/types/genesis.go:67-108 | accepts exactly the genesis states with valid parameters, complete records and distinct identifiers |
| EnergyKeeper.Keeper.IDSequenceBroken | chain/x/energy/keeper/invariants.go:48-74 | broken exactly when a stored record has a number above the sequence |
| EnergyKeeper.Keeper.ByCategoryBroken | chain/x/energy/keeper/invariants.go:79-107 | broken exactly when an index entry does not match its record, although the walk stops at ten findings |
| EnergyKeeper.Keeper.BySubmitterBroken | chain/x/energy/keeper/invariants.go:111-139 | the same for the submitter index |
| EnergyKeeper.Keeper.MetadataCapBroken | chain/x/energy/keeper/invariants.go:145-171 | broken exactly when some stored metadata exceeds a cap that is set |
| EnergyKeeper.Keeper.AnyBroken | chain/x/energy/keeper/invariants.go:28-42 | broken exactly when one of the four is |
| EnergyState.HighestBounds | chain/x/energy/keeper/keeper.go:331-343 | the imported number is at least every number found and is one of them or the stored one |
| EnergyRuns.NextIsFresh | chain/x/energy/keeper/keeper.go:118-125 | while the sequence is below 2^64 - 1 the next identifier is held by no record and no batch |
| EnergyRuns.NextIsFreshIff | chain/x/energy/keeper/keeper.go:118-125 | the next identifier is held by nothing if and only if, when the sequence is at 2^64 - 1 and wraps, "energy-0" is not held |
| EnergyRuns.SubmissionIsStored | chain/x/energy/keeper/msg_server.go:42-55 | an accepted submission stores exactly what was submitted under the next identifier, with both index entries, and nothing else |
| EnergyRuns.AllItemsHeld | chain/x/energy/keeper/msg_server.go:104-118 | item j of a batch is stored under the j-th following identifier with the batch's submitter, category, height and time |
| EnergyRuns.EventAppends | chain/x/energy/keeper/msg_server.go:26-159 | an event overwrites no record and no batch and moves the sequence by at most the identifiers it asks for |
| EnergyRuns.RunAppends | chain/x/energy/keeper/msg_server.go:26-159 | the same over whole runs |
| EnergyRuns.ImportNumbered | chain/x/energy/keeper/keeper.go:331-345 | after importing any genesis, non-canonical and overflowing identifiers included, no stored number is above the sequence |
| EnergyRuns.FreshForever | chain/x/energy/keeper/keeper.go:118-125 | after any import and any run, while the imported sequence plus the identifiers asked for stay below 2^64, the next identifier is held by nothing, and everything stored stays unchanged |
| EnergyRuns.ExhaustedInstance | chain/x/energy/types/genesis.go:67-108 | beyond that bound it fails: a valid genesis with the sequence at 2^64 - 1, where the first accepted message overwrites a record |
| EnergyRuns.EventSound | chain/x/energy/keeper/keeper.go:149-160 | every event keeps both indexes exact and the parameters valid |
| EnergyRuns.ImportSound | chain/x/energy/keeper/keeper.go:312-346 | importing a validated genesis gives exact indexes |
| EnergyRuns.CheckersQuiet | chain/x/energy/keeper/invariants.go:48-139 | in every state reached from a validated genesis the indexes are exact in both directions, and neither the sequence nor the index checkers fire |
| EnergyRuns.ExportRestores | chain/x/energy/keeper/keeper.go:348-355 | importing an export into an empty store restores parameters, records, batches, both indexes and the sequence |
| EnergyRuns.RestartIsExact | chain/x/energy/keeper/keeper.go:312-355 | from every state reached from a validated genesis; and the restarted chain then takes the same states |
| EnergyRuns.CapKept | chain/x/energy/keeper/invariants.go:145-171 | every event but an update that lowers the cap keeps stored metadata within it, the upgrade included |
| EnergyRuns.HealthyWithoutLowering | chain/x/energy/keeper/invariants.go:28-42 | from a validated genesis no checker ever fires unless an update lowers the cap |
| EnergyRuns.UpdateKeepsCapIff | chain/x/energy/keeper/msg_server.go:147-159 | an accepted update keeps metadata within the cap if and only if the longest stored metadata fits the new cap |
| EnergyRuns.UpdateCanBreakCap | chain/x/energy/keeper/msg_server.go:147-159 | an update of the cap from 4096 to 128 over one stored record of 200 bytes is accepted and breaks it |
| EnergyExports.ExportValidIff | chain/x/energy/types/genesis.go:67-108 | an export validates if and only if parameters are valid, records are complete and within the cap, and no batch has an empty identifier |
| EnergyExports.ExportsStayValid | chain/x/energy/types/genesis.go:67-108 | from a validated genesis, along every run of messages that pass their basic validation and never lower the cap, the export validates |
| EnergyExports.UpdateKeepsExportIff | chain/x/energy/keeper/msg_server.go:147-159 | an accepted update keeps a valid export valid if and only if the longest metadata in it fits the new cap |
| EnergyExports.UpdateInstance | chain/x/energy/keeper/msg_server.go:147-159 | it happens: a cap lowered over one stored record of 200 bytes |
| EnergyBatches.NewBatchVerifiable | chain/x/energy/keeper/msg_server.go:96-130 | a batch just stored can be checked against the records stored with it |
| EnergyBatches.EventComplete | chain/x/energy/keeper/msg_server.go:96-130 | every event keeps all batches verifiable and every issued number in use |
| EnergyBatches.BatchesStayVerifiable | chain/x/energy/keeper/msg_server.go:96-130 | in every state reached from an empty genesis, batch k with n items has records k+1 to k+n with its submitter, category and timestamp, whose hashes are accepted for its root; the sequence counts records and batches |
| EnergyRates.RunCounts | chain/x/energy/keeper/keeper.go:286-306 | over a run inside one block a submitter's counter goes up by its accepted submissions and never passes the limit |
| EnergyRates.BlockLimit | chain/x/energy/keeper/keeper.go:286-306 | in a block with limit L > 0: counter = accepted submissions <= L, and at most the larger of L and L times MaxBatchSize new records per submitter |
| EnergyRates.NoInterference | chain/x/energy/keeper/keeper.go:286-306 | removing everyone else's submissions from a run changes neither how many of one submitter's are accepted nor its counter |
| EnergyLaws.SubmitIff | chain/x/energy/keeper/msg_server.go:26-67 | exactly when a submission is accepted, in numbers and lists, and the whole state after it; refused, nothing changes |
| EnergyLaws.BatchIff | chain/x/energy/keeper/msg_server.go:69-142 | exactly when a batch is accepted, and what it counts; refused, nothing changes |
| EnergyLaws.UpdateIff | chain/x/energy/keeper/msg_server.go:147-159 | exactly when an update is accepted: signed by the authority and in range |
| EnergyLaws.UpgradeIs | chain/upgrades/v1_0_1/upgrade.go:113-127 | the upgrade raises a cap below 8192 to 8192 and changes nothing else |
| EnergyLaws.ParamsAre | chain/x/energy/types/genesis.go:25-56 | the parameters in force before any are set, and the ranges of valid ones, in numbers |
| EnergyLaws.NewBlockIs | chain/x/energy/keeper/keeper.go:286-306 | a block begins with no submissions counted, and nothing else changes |
| EnergyLaws.ParamsChangedBy | chain/x/energy/keeper/msg_server.go:147-159 | over every run, parameters that changed were changed by the upgrade or by an update that the authority signed and that is in range |
| EnergyLaws.UnlistedStoresNothing | chain/x/energy/keeper/keeper.go:258-269 | over every run, an address that is never allowed gets nothing accepted and nothing stored |
| EnergyLaws.ValidGenesisIff | chain/x/energy/types/genesis.go:67-108 | exactly which genesis states validate, in ranges, empty texts and numbers of different identifiers |
| EnergyLaws.ImportedRecords | chain/x/energy/keeper/keeper.go:312-330 | an import stores under each identifier the last record listed with it, and nothing else |
| EnergyLaws.ImportedBatches | chain/x/energy/keeper/keeper.go:321-330 | the same for batches |
| EnergyLaws.ImportedIndexes | chain/x/energy/keeper/keeper.go:149-160 | and an index entry for each record listed |
| EnergyLaws.ImportedSequence | chain/x/energy/keeper/keeper.go:331-345 | and the least sequence that neither the given one nor a number found exceeds |
| EnergyLaws.ExportInOrder | chain/x/energy/keeper/keeper.go:348-355 | an export lists everything once in the dictionary order of identifiers |
| EnergyLaws.HealthyIff | chain/x/energy/keeper/invariants.go:28-171 | what the four checkers look for, written out |
| OracleKeeper.Keeper.IsAuthorizedOracle | chain/x/oracle/keeper/keeper.go:210-216 | registered, active, and listed for the category or for all |
| OracleKeeper.Keeper.SubmitData | chain/x/oracle/keeper/msg_server.go:22-72 | accepts exactly authorized submissions of allowed size inside the drift window, computed in wrapping arithmetic |
| OracleKeeper.Keeper.AddOracle | chain/x/oracle/keeper/msg_server.go:74-99 | only the authority; the oracle becomes active |
| OracleKeeper.Keeper.RemoveOracle | chain/x/oracle/keeper/msg_server.go:101-120 | only the authority, only a registered oracle; data stays |
| OracleKeeper.Keeper.UpdateParams | chain/x/oracle/keeper/msg_server.go:124-136 | only the authority, only valid parameters |
| OracleKeeper.Keeper.GetFreshLatestData | chain/x/oracle/keeper/keeper.go:130-143 | found or missing, and stale exactly when older than a positive maximal age |
| OracleKeeper.Keeper.GetDataHistory | chain/x/oracle/keeper/keeper.go:152-176 | the walk over the key range, stopped at 1000 |
| OracleKeeper.Keeper.GetAllOracles | chain/x/oracle/keeper/keeper.go:221-233 | the first 1000 oracles by address |
| OracleKeeper.Keeper.InitGenesis | chain/x/oracle/keeper/keeper.go:261-276 | imports parameters, oracles, and data in order |
| OracleKeeper.Keeper.ExportGenesis | chain/x/oracle/keeper/keeper.go:278-291 | exports data in key order and at most 1000 oracles |
| OracleKeeper.Keeper.ValidateGenesis | chain/x/oracle/types/genesis.go:43-98 | accepts exactly valid parameters, distinct named oracles, and valid data |
| OracleKeeper.Keeper.ValidateData | chain/x/oracle/types/genesis.go:66-95 | the nested map of timestamps seen detects exactly the duplicates of a category and timestamp |
| OracleKeeper.Keeper.LatestDataBroken | chain/x/oracle/keeper/invariants.go:41-72 | broken exactly when a cached record has no matching one in the time series |
| OracleRuns.CacheMirrorsSeries | chain/x/oracle/keeper/keeper.go:104-113 | in every reachable state the cache has exactly the categories of the series, each entry is the series' record at its own key, and the checker does not fire |
| OracleRuns.HistoryIsFilterIff | chain/x/oracle/keeper/keeper.go:149-176 | history queries of a category are, for every range, the first 1000 of the plain filter of a full scan by category and inclusive range if and only if no record of the category was stored with a negative timestamp |
| OracleRuns.HistoryIsFilteredScan | chain/x/oracle/keeper/keeper.go:149-176 | and they are then in time order |
| OracleRuns.HistoryOverRuns | chain/x/oracle/keeper/keeper.go:149-176 | so from a validated genesis, over every run of messages with positive timestamps, for every query |
| OracleRuns.RunNonNegative | chain/x/oracle/keeper/msg_server.go:22-72 | messages with positive timestamps keep stored timestamps non-negative |
| OracleRuns.ClampedTimeIsMisfiled | chain/x/oracle/keeper/keeper.go:94-102 | an input that breaks the filter: an unvalidated genesis with a record of time -1 |
| OracleRuns.RestartSeries | chain/x/oracle/keeper/keeper.go:261-291 | a restart restores the series exactly and caches each category's record of greatest timestamp |
| OracleRuns.RestartCacheIff | chain/x/oracle/keeper/keeper.go:261-291 | a cache entry survives a restart if and only if the last write to the category carried its greatest timestamp |
| OracleRuns.OlderWriteIsForgotten | chain/x/oracle/keeper/keeper.go:104-113 | an accepted datapoint older than a stored one of its category takes the cache, and a restart takes the cache from it |
| OracleRuns.CacheLostInstance | chain/x/oracle/keeper/msg_server.go:35-47 | it happens from the default genesis: time 100, then time 50, inside the drift window, then a restart |
| OracleRuns.RestartRegistryIff | chain/x/oracle/keeper/keeper.go:218-233 | the registry survives a restart if and only if it holds at most 1000 entries |
| OracleRuns.AcceptedIsFresh | chain/x/oracle/keeper/msg_server.go:35-47 | whatever the block time, a datapoint accepted by the wrapping drift window is found exactly as submitted and is not stale at that block time |
| OracleLaws.FreshnessIs | chain/x/oracle/keeper/keeper.go:130-143 | a record found is stale exactly when there is a maximal age and it is older, on integers; outside the 64-bit range the age is off by 2^64 |
| OracleLaws.FreshUntil | chain/x/oracle/keeper/keeper.go:130-143 | over every run that leaves its category alone, an accepted datapoint is fresh up to its timestamp plus the maximal age then in force, and stale after |
| OracleLaws.SubmitIff | chain/x/oracle/keeper/msg_server.go:22-72 | exactly when a datapoint is accepted, on integers, and the whole state after it; a window that leaves the 64-bit range is empty |
| OracleLaws.AddIff | chain/x/oracle/keeper/msg_server.go:74-99 | only the authority registers an oracle, which is then active with what was given |
| OracleLaws.RemoveIff | chain/x/oracle/keeper/msg_server.go:101-120 | only the authority removes an oracle, and only a registered one; data stays |
| OracleLaws.ParamsAre | chain/x/oracle/types/genesis.go:5-33 | the parameters in force before any are set, and the ranges of valid ones |
| OracleLaws.UpdateIff | chain/x/oracle/keeper/msg_server.go:124-136 | exactly when parameters are set |
| OracleLaws.SettingsChangedBy | chain/x/oracle/keeper/msg_server.go:74-136 | over every run, parameters and registry change only through messages that the authority signed |
| OracleRuns.UnregisteredIsSilent | chain/x/oracle/keeper/msg_server.go:101-120 | a removed oracle writes nothing until it is registered again |
| OracleExports.ValidImportIsLossless | chain/x/oracle/types/genesis.go:62-95 | importing a valid genesis keeps every datapoint |
| OracleLaws.ValidGenesisIff | chain/x/oracle/types/genesis.go:43-98 | exactly which genesis states validate |
| OracleLaws.ImportedOracles | chain/x/oracle/keeper/keeper.go:261-276 | an import stores under each address the last oracle listed with it |
| OracleLaws.ImportedData | chain/x/oracle/keeper/keeper.go:261-276 | and under each category and time the last datapoint filed there |
| OracleLaws.ImportedLatest | chain/x/oracle/keeper/keeper.go:261-276 | and as the latest of a category the last one listed for it |
| OracleLaws.ExportInOrder | chain/x/oracle/keeper/keeper.go:278-291 | an export lists oracles by address and datapoints by category and then by time |
| OracleLaws.CacheMatchesIff | chain/x/oracle/keeper/invariants.go:41-72 | what the cache checker looks for, written out |
| OracleExports.ExportedOracles | chain/x/oracle/keeper/keeper.go:218-233 | an export lists exactly the oracles with fewer than 1000 addresses before theirs |
| OracleExports.ExportValidIff | chain/x/oracle/types/genesis.go:43-98 | an export validates if and only if parameters are valid, listed oracles have names, and every datapoint is valid and was submitted by a listed oracle or by none; for registries of any size |
| OracleExports.ExportsOverRuns | chain/x/oracle/types/genesis.go:43-98 | from a validated genesis, over every run of messages that pass their basic validation, with timestamps before the year 10000, and never lower the cap, removals included: the export validates if and only if every datapoint was submitted by a listed oracle or by none; so without removals and up to 1000 oracles always |
| OracleExports.RemovedListed | chain/x/oracle/keeper/keeper.go:218-233 | removing a listed oracle moves up exactly the one with 1000 addresses before it; removing another changes nothing on the list |
| OracleExports.RemovalBreaksExportIff | chain/x/oracle/keeper/msg_server.go:101-120 | after a removal an export that validated still does if and only if no stored datapoint was submitted by the oracle removed and, when that one was listed, the oracle with exactly 1000 addresses before it has a name |
| OracleExports.RemovalInstance | chain/x/oracle/keeper/msg_server.go:101-120 | it happens from the default genesis: an oracle is added, submits, and is removed |
| OracleExports.CrowdedInstance | chain/x/oracle/keeper/keeper.go:218-233 | a valid genesis of 1001 oracles whose own export is refused and loses an oracle, with no message in between |
| AuditKeeper.Keeper.IsAllowedAuditor | chain/x/audit/keeper/msg_server.go:26-37 | permissionless mode, or membership in the list |
| AuditKeeper.Keeper.CheckAndIncrAuditCount | chain/x/audit/keeper/keeper.go:94-114 | fails exactly when a limit is set and reached, otherwise counts |
| AuditKeeper.Keeper.HandleRecordAudit | chain/x/audit/keeper/msg_server.go:39-95 | accepts exactly when the state machine does, with its new state |
| AuditKeeper.Keeper.HandleUpdateParams | chain/x/audit/keeper/msg_server.go:99-111 | only the authority, only valid parameters |
| AuditKeeper.Keeper.Collect | chain/x/audit/keeper/keeper.go:219-227 | the walk's callback: look up, append, stop at 1000 |
| AuditKeeper.Keeper.GetAuditLogsByActor | chain/x/audit/keeper/keeper.go:216-232 | the walk over one actor's entries |
| AuditKeeper.Keeper.GetAuditLogsByType | chain/x/audit/keeper/keeper.go:234-250 | the walk over one event type's entries |
| AuditKeeper.Keeper.GetAuditLogsByTimeRange | chain/x/audit/keeper/keeper.go:252-276 | the walk over the time index |
| AuditKeeper.Keeper.InitGenesis | chain/x/audit/keeper/keeper.go:314-337 | imports logs with indexes and the highest id |
| AuditKeeper.Keeper.ExportGenesis | chain/x/audit/keeper/keeper.go:339-350 | exports every log in id order, and the sequence |
| AuditKeeper.Keeper.ValidateGenesis | chain/x/audit/types/genesis.go:52-79 | accepts exactly valid parameters, distinct ids and complete logs |
| AuditRuns.RunAppends | chain/x/audit/keeper/msg_server.go:39-95 | over every run no log changes or disappears, and new ids are above the old sequence |
| AuditRuns.AppendOnly | chain/x/audit/keeper/keeper.go:314-337 | after any import, while the imported counter plus the messages stay below 2^64, every later id is above every imported one, and logs stay unchanged |
| AuditRuns.NextIsFreshIff | chain/x/audit/keeper/keeper.go:128-135 | the next id is held by no log if and only if, when the counter is at 2^64 - 1 and wraps, there is no log 0 |
| AuditRuns.ExhaustedInstance | chain/x/audit/types/genesis.go:52-79 | beyond that bound it fails: a valid genesis with the counter at 2^64 - 1, where the first accepted message overwrites a log |
| AuditRuns.ConsecutiveFromEmpty | chain/x/audit/keeper/keeper.go:128-143 | from an empty genesis the stored ids are exactly 1 up to the sequence |
| AuditRuns.RunIndexed | chain/x/audit/keeper/keeper.go:171-185 | from a validated genesis all three indexes stay exact |
| AuditLaws.RecordIff | chain/x/audit/keeper/msg_server.go:39-95 | exactly when a log is accepted, and the whole state after it; refused, nothing changes |
| AuditLaws.ParamsAre | chain/x/audit/types/genesis.go:10-42 | the parameters in force before any are set, and the ranges of valid ones |
| AuditLaws.NewBlockIs | chain/x/audit/keeper/keeper.go:94-114 | a block begins with nothing counted, and nothing else changes |
| AuditLaws.UpdateIff | chain/x/audit/keeper/msg_server.go:99-111 | exactly when parameters are set |
| AuditLaws.ParamsChangedBy | chain/x/audit/keeper/msg_server.go:99-111 | over every run, parameters that changed were set by an update that the authority signed and that is in range |
| AuditLaws.BlockLimit | chain/x/audit/keeper/keeper.go:94-114 | in a block with limit L > 0: a creator's counter is the number of its logs accepted, at most L, and so many are stored |
| AuditLaws.NoInterference | chain/x/audit/keeper/keeper.go:94-114 | removing everyone else's logs from a run changes neither how many of one creator's are accepted nor its counter |
| AuditLaws.UnlistedStoresNothing | chain/x/audit/keeper/msg_server.go:26-37 | over every run, an address that is never allowed gets nothing accepted and nothing stored |
| AuditLaws.ValidGenesisIff | chain/x/audit/types/genesis.go:52-79 | exactly which genesis states validate |
| AuditLaws.ImportedLogs | chain/x/audit/keeper/keeper.go:314-337 | an import stores under each id the last log listed with it |
| AuditLaws.ImportedIndexes | chain/x/audit/keeper/keeper.go:314-337 | and an index entry for each log listed, and the least counter that neither the given one nor an id exceeds |
| AuditLaws.ExportInOrder | chain/x/audit/keeper/keeper.go:339-350 | scans and exports list every log once by ascending id |
| AuditLaws.LookupsIs | chain/x/audit/keeper/keeper.go:219-227 | a query looks its ids up one after the other and passes over those without a log |
| AuditRuns.TextQueryIsFilteredScan | chain/x/audit/keeper/keeper.go:216-250 | with an exact index, a query by text is the first 1000 by id of the plain filter over all logs |
| AuditRuns.QueriesAreFilteredScans | chain/x/audit/keeper/keeper.go:216-250 | so for actor and event type in every state reached from a validated genesis |
| AuditTimes.TimeQueryIsFilterIff | chain/x/audit/keeper/keeper.go:252-276 | time-range queries are, for every range, the first 1000 of the plain filter over all logs in time order if and only if none of the first 1000 logs in that order has a negative timestamp |
| AuditTimes.TimeQueriesOverRuns | chain/x/audit/keeper/keeper.go:252-276 | so from a validated genesis without negative timestamps, over every run of blocks with non-negative times |
| AuditTimes.NegativeTimeInstance | chain/x/audit/types/genesis.go:52-79 | an input that breaks the filter: a valid genesis with a log of time -1 |
| AuditTimes.TimeScanIsSorted | chain/x/audit/keeper/keeper.go:252-276 | that scan holds every log once, by timestamp and then by id, negative timestamps counting as zero |
| AuditRuns.RestartIsExact | chain/x/audit/keeper/keeper.go:314-350 | a restart restores logs, indexes and sequence exactly |
| AuditExports.ExportValidIff | chain/x/audit/types/genesis.go:52-79 | an export validates if and only if parameters are valid and logs are complete and within the data cap |
| AuditExports.ExportsStayValid | chain/x/audit/types/genesis.go:52-79 | and it does along every run from a validated genesis that never lowers the cap, of messages that pass their basic validation |
| AuditExports.UpdateKeepsExportIff | chain/x/audit/keeper/msg_server.go:99-111 | an accepted update keeps a valid export valid if and only if the data of every stored log fits the new cap |
| AuditExports.UpdateInstance | chain/x/audit/keeper/msg_server.go:99-111 | it happens: a cap lowered over one log with 200 bytes |
| IdentityKeeper.Keeper.RegisterIdentity | chain/x/identity/keeper/msg_server.go:34-73 | only an admin, only a new address, only metadata within the cap |
| IdentityKeeper.Keeper.UpdateIdentity | chain/x/identity/keeper/msg_server.go:75-115 | an admin or the owner changes name and metadata, empty ones kept, nothing else |
| IdentityKeeper.Keeper.RevokeIdentity | chain/x/identity/keeper/msg_server.go:117-148 | only an admin, only once |
| IdentityKeeper.Keeper.UpdateModuleParams | chain/x/identity/keeper/msg_server.go:152-164 | only the authority, only valid parameters |
| IdentityKeeper.Keeper.InitGenesis | chain/x/identity/module.go:85-100 | imports parameters and identities |
| IdentityKeeper.Keeper.ExportGenesis | chain/x/identity/keeper/keeper.go:152-157 | exports every identity in address order |
| IdentityKeeper.Keeper.ValidateGenesis | chain/x/identity/types/genesis.go:43-71 | accepts exactly valid parameters and complete identities with distinct addresses |
| IdentityRuns.EventKeeps | chain/x/identity/keeper/msg_server.go:34-164 | an event keeps the role index exact, and an identity's role and registration time; a status changes only to revoked |
| IdentityRuns.Lifecycle | chain/x/identity/keeper/msg_server.go:34-164 | from a validated genesis, over every run: exact role index, roles and registration times for good, a revoked identity never holds a role again |
| IdentityRuns.RevokedForGood | chain/x/identity/keeper/msg_server.go:117-148 | after an accepted revocation the address holds no role in any later state |
| IdentityLaws.RegisterIff | chain/x/identity/keeper/msg_server.go:34-73 | exactly when an address is registered, and the whole state after it |
| IdentityLaws.UpdateIff | chain/x/identity/keeper/msg_server.go:75-115 | exactly who may update an identity, and what replaces what |
| IdentityLaws.RevokeIff | chain/x/identity/keeper/msg_server.go:117-148 | exactly when an identity is revoked, and what changes |
| IdentityLaws.UpdateParamsIff | chain/x/identity/keeper/msg_server.go:152-164 | exactly when parameters are set |
| IdentityLaws.ParamsChangedBy | chain/x/identity/keeper/msg_server.go:152-164 | over every run, parameters that changed were set by an update that the authority signed and that is in range |
| IdentityLaws.RegisteredHolds | chain/x/identity/keeper/keeper.go:170-176 | a registration gives its role, and no other, over every run that does not revoke it |
| IdentityLaws.HasRoleIff | chain/x/identity/keeper/keeper.go:170-176 | an address holds a role exactly when it is registered with it and its status is the text "active" |
| IdentityLaws.ParamsAre | chain/x/identity/types/genesis.go:9-34 | the parameters in force before any are set, and the ranges of valid ones |
| IdentityLaws.OthersAreSafe | chain/x/identity/keeper/msg_server.go:34-164 | someone who neither governs nor owns an identity cannot change it |
| IdentityLaws.ValidGenesisIff | chain/x/identity/types/genesis.go:43-71 | exactly which genesis states validate |
| IdentityLaws.ImportedIdentities | chain/x/identity/module.go:85-100 | an import stores under each address the last identity listed with it |
| IdentityLaws.ImportedRoles | chain/x/identity/module.go:85-100 | and a role entry for each identity listed |
| IdentityLaws.ExportInOrder | chain/x/identity/keeper/keeper.go:152-157 | an export lists every identity once in the dictionary order of addresses |
| IdentityRuns.DeleteUndoes | chain/x/identity/keeper/keeper.go:119-131 | deleting undoes the first writing of an identity, index entry included |
| IdentityRuns.DeletedIndexed | chain/x/identity/keeper/keeper.go:119-131 | deleting keeps the role index exact |
| IdentityRuns.RestartIsExact | chain/x/identity/keeper/keeper.go:152-157 | a restart restores identities, role index and parameters exactly |
| IdentityExports.ExportValidIff | chain/x/identity/types/genesis.go:43-71 | an export validates if and only if parameters are valid and identities are complete and within the metadata cap |
| IdentityExports.ExportsStayValid | chain/x/identity/types/genesis.go:43-71 | and it does along every run from a validated genesis that never lowers the cap, of messages that pass their basic validation |
| IdentityExports.UpdateKeepsExportIff | chain/x/identity/keeper/msg_server.go:152-164 | an accepted update keeps a valid export valid if and only if the metadata of every stored identity fits the new cap |
| IdentityExports.UpdateInstance | chain/x/identity/keeper/msg_server.go:152-164 | it happens: a cap lowered over one identity with 200 bytes of metadata |
| Store.WalkFirst | chain/x/oracle/keeper/keeper.go:164-175 | a walk with early stop gives the first n values |
| Store.WalkValues | chain/x/oracle/keeper/keeper.go:278-285 | a full walk gives every value in key order |
| Store.WalkRank | chain/x/oracle/keeper/keeper.go:221-233 | a walk meets a key after exactly the keys before it |
| Store.BytesLeIff | chain/x/oracle/keeper/keeper.go:221-233 | the order of texts is that of a dictionary |
| Store.FirstIs | chain/x/oracle/keeper/keeper.go:164-175 | a cut-off list is its beginning, of the length allowed |
| Store.KeptIs | chain/x/oracle/keeper/keeper.go:160-165 | what filtering is: element by element, in order |
| Store.PutAllLast | chain/x/energy/keeper/keeper.go:312-330 | of the values set under a key the last one stays |
| Store.WalkKept | chain/x/oracle/keeper/keeper.go:160-165 | walking a key range is filtering the whole walk |
| Store.PutAllRestores | chain/x/energy/keeper/keeper.go:186-196 | refilling an empty map with a walk over another restores it |
| Store.AddAllRestores | chain/x/energy/keeper/keeper.go:149-160 | and restores every index of its values |
| Broadcaster.QueueIsFifo | chain/mempool_broadcast.go:52-91 | over every interleaving of enqueuers, consumer and Close: accepted = handled ++ in flight ++ queued, at most 10,000 queued, nothing attempted twice, each caller's order kept |
| Broadcaster.CallAcceptsPrefix | chain/mempool_broadcast.go:52-66 | a call that succeeded had all its non-nil input accepted in order; one that failed exactly the part before the element it failed at |
| Broadcaster.FailedWhenFull | chain/mempool_broadcast.go:58-62 | in every interleaving a call that failed did so at a step of its caller at which the queue held exactly 10,000 transactions |
| Broadcaster.ReturnedStays | chain/mempool_broadcast.go:52-66 | what a returned call got accepted never changes |
| Broadcaster.StoppedForGood | chain/mempool_broadcast.go:74-91 | a stopped consumer takes and handles nothing more |
| Broadcaster.NothingAfterClose | chain/mempool_broadcast.go:68-72 | after Close has returned nothing more is handled |
| BroadcasterLaws.AttemptsExplained | chain/mempool_broadcast.go:93-161 | in every interleaving each attempt has its step: sent only with a client, on the first look or a later one; given up only after a look that found none, at a deadline or while closing |
| BroadcasterLaws.TakenWithClientIsSent | chain/mempool_broadcast.go:127-130 | a transaction taken from the queue when there is a client is never given up |
| BroadcasterLaws.FlagsIff | chain/mempool_broadcast.go:44-72 | there is a client exactly once one was set; the broadcaster is closing exactly once Close was called; the consumer stops only then |
| BroadcasterLaws.StepPossible | chain/mempool_broadcast.go:44-161 | exactly which steps are possible: a client can be set, and a transaction enqueued, at any time, closing or not |
| BroadcasterLaws.CanDrain | chain/mempool_broadcast.go:74-91 | from every point of every interleaving at which the consumer runs, it can still handle everything accepted in order, and send the rest if there is a client |
| BroadcasterLaws.CanClose | chain/mempool_broadcast.go:68-72 | it can always be closed, done with what is in flight, the queue left as it is |
| BroadcasterLaws.CallReturns | chain/mempool_broadcast.go:52-66 | a call returns after at most one step per element and one more, whatever other threads do, and succeeds if the queue has room |

## Left out
- SDK wiring, upgrades other than the metadata cap, command line, precompiles, gRPC and CLI handlers: thin wrappers and library calls.
- Parallel scheduling of transactions: messages run one after the other.
- Pagination of the query servers: library code that is not part of this model.
- The other generated codec files: they repeat the shapes of the energy messages.
- Hashes, Bech32 addresses and JSON: parameters (a hash with 32-byte output, an address predicate, a transaction hash) or not modelled.
- Storage errors, key encodings of collections, events, log lines and the wording of errors: collections are ordered maps and sets that do not fail, and handlers return only whether they accept.
- Checkers of the audit and identity modules, and the address and metadata checkers of the oracle module: the same walks as the ones modelled.
- Unmarshal.UnmarshalMessage: a failed decode returns no message, where the source leaves the partly filled one; its callers drop it.
- Broadcaster.QueueIsFifo: building, signing and submitting a transaction is one outcome, sent or given up; timers are steps that may happen at any time; a second Close, which panics in the source, is not a step; no fairness, so no claim that a queued transaction is ever handled.
- Basic validation of messages: only what the `Basic` and `PositiveTime` predicates name; addresses are not parsed.
- MerkleTwins.TwinIff: which batches of several items have a twin for some hash; for a given hash MerkleTwins.SharedRootIff covers them.
- EnergyRates.BlockLimit: a block is a run of messages after the counters are wiped; upgrades and parameter updates may occur in it as long as both limits stay the same.
