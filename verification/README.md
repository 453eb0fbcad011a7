# Verified model of the nodedb-lite secondary indexes

A Dafny model of the parts of nodedb-lite whose correctness is not local: the
secondary-index subsystem, which must always agree with a full scan of the rows
it indexes, and beside it the durable identity, the monotonic clock and the
lowering of SQL filters and expressions.

## How it is built

From the bytes up:

- `ByteOrder`, `Utf8`, `Numbers`, `Casts`, `Key`: byte strings in
  lexicographic order, text, doubles and timestamps as sortable bytes, and the
  entry keys made from them.
- `Layout`, `Fields`: the stored bytes and the paths spelled out, against which
  `Key` and `Document` are pinned.
- `Document`: the values an index holds for a row and the keys they are stored
  under. Coerced equality, number and timestamp parsing, case folding and
  partial predicates belong to other crates; they are fields of `Env`.
  `Lawful(env)` states the one documented rule needed of them: values coerced
  equality holds equal, one of them a scalar, read as the same value in some
  class. `Document.CoercedEqualityIsLawful` shows that the rule itself, taken as
  the definition, meets it.
- `Store`, `Maintain`, `Install`, `History`, `Durable`, `Ddl`, `Unique`,
  `Lookup`, `Range`: each operation as a function of the catalog's state, with
  what it keeps and what it achieves.
- `Catalog`, `UniqueCheck`: the same operations as they run, as methods that
  update fields in loops, each proved to make the change its function describes.
- `Views`, `Traces`, `Runs`, `UniqueRuns`, `Reachable`, `Framing`,
  `RangeOrder`: what a stored catalog shows under pending marks, whole runs with
  crashes, and the results that hold at every point of every run.
- `Pending`, `Moves`, `Conversions`, `Migration`, `Scenarios`: changes stored at
  once while marks wait for the flush, collections that change engine, a store of
  another format opened again, and runs written out step by step.
- `Identity`, `Clock`: the identity kept by separate puts, and the
  compare-and-swap clock, each over whole runs.
- `Exprs`, `ExprMeaning`, `Filters`, `FilterMeaning`: lowering and its meaning.
  The evaluators are other crates; what they do to one row is a parameter.

Two relations carry most of the proofs. `Agrees(env, s, rows)` says that a key is
an entry exactly when the definition of its index implies it for the rows.
`Mirrors(cells, s)` says that stored cells, overlaid with pending marks and
collected writes, show exactly what memory holds.

## What is taken as given

- A storage batch is all or nothing and applies its writes in order
  (`nodedb-lite/src/storage/engine.rs`, lines 191-196).
- One flush at a time is between staging and acknowledgement.
- All indexes of a collection cover one engine's rows. Which one changes only
  between the runs of `Runs`; `Conversions` joins such runs.
- A name declared again keeps its collection. `Store.PutDefMirror` shows that
  this is needed, not only convenient.
- An index stored at once takes no name that storage, or a staged flush, still
  gives to another collection (`NamesFree`). The program refuses only names in
  memory; `Runs.SoundThroughoutIff` shows that the rest is needed too.
- Collection and index names are at most 2^32 - 1 bytes long, as SQL identifiers
  are; `Key.ComponentReadsBack` shows where that matters.
- Sequence numbers, epochs and timestamps do not reach the end of their 64-bit
  range.
- UUIDs do not repeat. Between the reads and the writes of one operation its
  locks keep other operations out, so operations are steps.

## Where the code does less than it promises

- `move_collection` from documents to a durable engine: a definition still
  marked for the flush is written back over the moved one. `Ddl.MoveMirrorsIff`
  gives the exact condition, `Ddl.MoveBeforeFlushDiverges` the case;
  `Ddl.ChangeAllMirrorsIff` is the condition for drops and for moves between any
  engines.
- The same move leaves deletions pending on the entries it cleared. A row written
  or an index built before the next flush may get one of those keys back, stored
  at once, and the flush then deletes it: `Durable.CommitMirrorsIff`,
  `Pending.MoveThenWriteMirrorsIff` and `Pending.MoveThenBuildMirrorsIff` give
  the exact conditions, `Scenarios.ConvertedRowDiverges` the case of documents
  "1" and "31".
- A crash between a move and its flush. Documents moved to a strict or key-value
  engine: their stored entries come back under the moved definition
  (`Scenarios.MovedDocumentsCrash`). Rows moved to documents: the old definition
  is back over its rows without entries, and a unique check passes duplicates
  (`Scenarios.MovedRowsCrash`, `Scenarios.MovedRowsTakenTwice`).
  `Moves.MoveSoundIff` gives the exact condition for both directions.
- The name of a document index dropped and not yet flushed can be given at once
  to a strict or key-value index of another collection. A crash then leaves two
  stored definitions of one name: `Runs.SoundThroughoutIff` gives the exact
  condition over runs, `Scenarios.DroppedNameDiverges` the run.
- An open that finds another format records the new one only at its flush. A
  crash before that makes the next open mark for deletion what the first one
  stored of strict and key-value indexes and store it again, and its flush then
  deletes it: `Migration.MigrationMirrorsIff` and `Migration.SecondOpenMirrorsIff`
  give the exact conditions, `Migration.SecondOpenDiverges` the case.
- A write to a deleted document clears its tombstone before the unique check and
  does not set it again when refused. Its old copy is then live: a unique index
  may hold two equal values, in the case of `History.RefusedRevivalDiverges` and
  exactly under the condition of `History.RevivalUniqueIff`; when the copy is
  back in the indexes is `History.RevivedCopyReturns`.
- `build_index` over an existing durable index whose batch fails: memory keeps
  the new version, storage the old. `Ddl.FailedRebuildMirrorsIff` gives the
  exact condition, `Ddl.FailedRebuildDiverges` a case.
- `install` under a name taken from another collection leaves that collection's
  stored definition: `Store.PutDefMirror`, `Store.MovedNameDiverges`.
- The unique check reads a write in order, so it can refuse one whose outcome is
  unique: `Unique.RepeatedIdMayBeRefused`. It accepts exactly the writes that are
  unique at each point while read: `Unique.AcceptedIffUniqueThroughout`.
- `regenerate` interrupted between its first and last put leaves a new id with
  the old peer id: `Identity.RegenerationSeen`.
- `NOT BETWEEN` lowered to two strict comparisons differs from its SQL meaning
  where a value cannot be ordered against a bound: `ExprMeaning.BetweenKeepsMeaning`
  for one test, `ExprMeaning.KeptThroughoutIff` for any expression,
  `ExprMeaning.NotBetweenDiffers` for a case.
- `catalog.rs` says that entries of strict and key-value indexes are not built
  yet; `rebuild.rs` and `durable.rs` build and maintain them. The model follows
  the code.

## Model

| member | source | states |
|---|---|---|
| `Runs.CrashConsistency` | nodedb-lite/src/index/store.rs:6-14 | At every point of every run of row writes with resync, builds, drops, clears, direct row writes, stage, commit, failed commit, acknowledge and crash with reopen, from a fresh store and with the names of direct builds free: a stored key is an entry exactly when the stored definition of its index implies it for the stored rows; loading gives exactly those entries, in both views; memory agrees with the rows in memory |
| `Runs.SoundThroughoutIff` | nodedb-lite/src/index/rebuild.rs:89-108 | Over any run, storage and the staged flush are sound after every step if and only if no direct build takes a name that storage or the staged flush still gives to another collection |
| `Runs.BuildSoundIff` | nodedb-lite/src/index/rebuild.rs:89-108 | One direct build leaves storage sound if and only if no stored definition of its name is on another collection, and the staged flush likewise |
| `Runs.StepKeepsInv` | nodedb-lite/src/index/store.rs:259-362 | Each kind of step, a crash included, keeps stored entries exact, memory mirrored and in agreement with its rows, and any flush in flight consistent; a direct build does when its name is free |
| `Runs.FlushedMirrors` | nodedb-lite/src/index/store.rs:353-362 | Forgetting only the staged versions of a committed flush loses nothing: a key marked again since keeps its newer mark and the overlay still equals memory |
| `UniqueRuns.UniqueOverRuns` | nodedb-lite/src/index/maintain.rs:221-240 | At every point of every run with free names whose writes pass the check and whose unique builds are not refused, no two documents hold coerced-equal values under a unique index, over the rows in memory and over the stored rows after a crash |
| `UniqueRuns.StepKeepsUnique` | nodedb-lite/src/index/durable.rs:36-107 | Each step, once passed by its own check and by the condition on names, keeps uniqueness in memory, in the staged flush and in storage |
| `Reachable.LookupInEveryState` | nodedb-lite/src/index/lookup.rs:30-42 | In every reachable state, for every scalar probe and every index, looking up and confirming returns exactly the covered rows a full scan with the same comparison finds, each once |
| `Reachable.RangeInEveryState` | nodedb-lite/src/index/lookup.rs:44-133 | In every reachable state a range read returns exactly the rows holding a value within the bounds in a class both bounds share |
| `Scenarios.FlushedRowsSurvive` | nodedb-lite/src/index/store.rs:331-351 | Building an index, writing any rows, flushing and opening the store again is a legal run, and after it the rows, the definition and every entry are there with nothing pending |
| `Scenarios.DropCollectionIsARun` | nodedb-lite/src/index/ddl.rs:142-182 | Dropping a collection with its indexes and rows ends where a legal run ends that drops each index and then removes the rows, so what holds over runs holds of it |
| `Scenarios.DroppedNameDiverges` | nodedb-lite/src/query/document_ops/indexes.rs:145-152 | A document index flushed and dropped, its name stored for another collection before the next flush, and a crash: a legal run that leaves two stored definitions of one name, of which loading keeps one |
| `Scenarios.ConvertedRowDiverges` | nodedb-lite/src/query/ddl/convert/targets.rs:84-101 | Documents 1 and 31 with the same contents, flushed, moved to a durable engine, and the first written as a row under its hex id 31: the row gets back an entry key still marked for deletion, and memory and storage part |
| `Key.EncodeEscaped` | nodedb-lite/src/index/key.rs:289-301 | The byte loop produces the escaped, terminated form of any payload |
| `Key.EncodedLength` | nodedb-lite/src/index/key.rs:237-258 | The scan finds the end of the encoded value, or nothing when the bytes do not start with one |
| `Key.HexDocId` | nodedb-lite/src/index/key.rs:147-155 | The hex loop gives each byte's two digits, and the result is text |
| `Key.SelfDelimiting` | nodedb-lite/src/index/key.rs:236-258 | An encoded value followed by any bytes is read back at its own length |
| `Key.EncodedSplitsUniquely` | nodedb-lite/src/index/key.rs:236-258 | No encoded value is a prefix of another with different remainders: a concatenation splits one way only |
| `Key.EscapedOrder` | nodedb-lite/src/index/key.rs:289-301 | Escaped payloads sort bytewise exactly as the payloads do, and are equal only for equal payloads |
| `Key.ComponentReadsBack` | nodedb-lite/src/index/key.rs:177-191 | A length-prefixed component reads back with its remainder if and only if its length fits the 32-bit prefix |
| `Key.EntryParses` | nodedb-lite/src/index/key.rs:113-135 | Parsing an entry key gives back the collection, index, value and document it was made from |
| `Key.ParsedRebuilds` | nodedb-lite/src/index/key.rs:121-135 | Whatever parses as an entry is the entry key of its parts, so the map from parts to keys is one to one |
| `Key.EntryDocIdReads` | nodedb-lite/src/index/key.rs:137-142 | The document id is read from a key under the index prefix, whatever bytes the value holds |
| `Key.UnderOwnPrefixOnly` | nodedb-lite/src/index/key.rs:99-110 | An entry key starts with an index's prefix exactly when it is an entry of that collection and index |
| `Key.PrefixesApart` | nodedb-lite/src/index/key.rs:99-110 | No key lies under the prefixes of two indexes |
| `Key.DefParses` | nodedb-lite/src/index/key.rs:70-75 | A definition key determines its collection and index |
| `Key.KeyOfDocIdInverts` | nodedb-lite/src/index/key.rs:147-175 | Reading a hex document id gives back the byte key it was made from |
| `Key.DocIdOfKeyInverts` | nodedb-lite/src/index/key.rs:159-175 | Every id that reads as a key is the id made from that key, so upper-case or odd-length ids are not |
| `Layout.KeyLayout` | nodedb-lite/src/index/key.rs:22-118 | The bytes of the format key, of a definition key and of an entry key, with every constant and length written out |
| `Layout.FormatLayout` | nodedb-lite/src/index/store.rs:277-277 | A store is of the current format if and only if its format key holds version 1 |
| `Layout.ValueLayout` | nodedb-lite/src/index/key.rs:35-45 | The class byte of each kind of value and what follows it |
| `Layout.EscapeLayout` | nodedb-lite/src/index/key.rs:289-301 | In a payload a zero is followed by 0xFF and every other byte stands for itself |
| `Layout.HexLayout` | nodedb-lite/src/index/key.rs:147-155 | A key's document id has the two lowercase hex digits of each byte, in order |
| `Numbers.NumberBytesOrder` | nodedb-lite/src/index/key.rs:260-279 | Over all doubles but NaN the stored bytes sort by numeric value and coincide exactly for equal numbers, both zeros included; all NaNs share one form above every number (section 5.11 of IEEE 754-2008) |
| `Numbers.MomentBytesOrder` | nodedb-lite/src/index/key.rs:281-287 | Every signed 64-bit microsecond count sorts by value |
| `Casts.CastKeepsOrder` | nodedb-lite/src/index/key.rs:197-202 | Encoding an integer as a double keeps integer order over the whole signed 64-bit range |
| `Casts.CastExact` | nodedb-lite/src/index/key.rs:197-202 | Up to 2^53 in size an integer's double denotes exactly that integer |
| `Casts.CastIsNearest` | nodedb-lite/src/index/key.rs:197-202 | No double is nearer to the integer than its cast, and of two as near the cast is the one with an even significand (section 4.3.1 of IEEE 754-2008) |
| `ByteOrder.PrefixScanExact` | nodedb-lite/src/index/maintain.rs:54-65 | Ranging from a prefix and taking while it holds visits exactly the keys under it, in order |
| `Utf8.OctetsBelowF5` | nodedb-lite/src/index/lookup.rs:103-104 | No octet of text is 0xF5 or above, so the 0xFF cut-off is never reached by a document id (section 4 of RFC 3629) |
| `Utf8.ValidIffScalars` | nodedb-lite/src/index/key.rs:121-142 | The octets read back as text are exactly the encodings of Unicode scalar values (section 3 of RFC 3629) |
| `Document.ReadField` | nodedb-lite/src/index/document.rs:18-32 | The path walk finds the field the path names through nested objects, or nothing |
| `Fields.PathReads` | nodedb-lite/src/index/document.rs:16-32 | For names without dots, the first not empty, reading the path with a dollar sign and a dot before each name gives v if and only if objects lead from the row to v name by name; the dollar sign alone gives the row |
| `Fields.PathStops` | nodedb-lite/src/index/document.rs:16-32 | A name that is missing, or asked of what is no object, makes the read find nothing |
| `Fields.FieldIsCanonical` | nodedb-lite/src/index/catalog.rs:124-150 | A field written with or without the leading dollar sign and dot is one path, brackets at its end make the array index over it, and the planner's spelling names it again |
| `Fields.ValuesOfRow` | nodedb-lite/src/index/document.rs:34-66 | A row's values are the scalars at its field, array elements under an array index, with lowercased texts in place of texts exactly where the index ignores case, if there is no predicate or it holds |
| `Fields.RejectedHasNothing` | nodedb-lite/src/index/document.rs:48-66 | A row the predicate rejects has no value and no entry |
| `Fields.ScalarIsItself` | nodedb-lite/src/index/document.rs:34-66 | Under an index that minds case a scalar field is its one value |
| `Fields.CaseIsIgnored` | nodedb-lite/src/index/document.rs:34-66 | Under one that does not, texts of one lowercase form give the same one value |
| `Document.FormsAgree` | nodedb-lite/src/index/key.rs:214-234 | Two forms share a key exactly when they read as the same value |
| `Document.SharedKeyIffSharedReading` | nodedb-lite/src/index/key.rs:214-234 | Two values share an index key if and only if they read as the same value in some class, integers and floats alike |
| `Document.CoercedEqualityIsLawful` | nodedb-lite/src/index/key.rs:214-221 | Coerced equality defined as sharing a reading meets the rule the index relies on, whatever the parsers |
| `Document.EntryKeysParse` | nodedb-lite/src/index/document.rs:68-76 | The entry keys of a row are exactly the keys of the index and document with one of the row's encoded values |
| `Document.IndexValuesAreIndexable` | nodedb-lite/src/index/document.rs:44-66 | Neither NULL nor a container is ever indexed, under array and plain indexes |
| `Store.ApplyMovesPosting` | nodedb-lite/src/index/store.rs:144-172 | Applying a row's changes keeps postings and entries two views of one set with no empty posting, moves that row's entries and no other's |
| `Store.ClearPrefixRemoves` | nodedb-lite/src/index/store.rs:174-195 | Clearing a prefix removes from every row exactly the entries under it and keeps the two views |
| `Store.RemoveDefRemoves` | nodedb-lite/src/index/store.rs:205-211 | Removing an index removes its definition and its entries and nothing of any other |
| `Store.ApplyKeepsMirror` | nodedb-lite/src/index/store.rs:80-98 | Whether marked for the flush or collected as writes, a change leaves storage as it would become equal to memory |
| `Store.PutDefMirror` | nodedb-lite/src/index/store.rs:197-203 | Declaring an index keeps that overlay equal to memory if and only if the name keeps its collection |
| `Store.MovedNameDiverges` | nodedb-lite/src/index/maintain.rs:270-274 | Declaring a name again on another collection leaves the first definition behind in storage |
| `Store.RemoveDefKeepsMirror` | nodedb-lite/src/index/store.rs:205-211 | Removing an index keeps the overlay equal to memory |
| `Framing.ReadsAreOwn` | nodedb-lite/src/index/maintain.rs:54-65 | Equality and range reads of an index depend on the entries under its own prefix only |
| `Framing.RemovalLeavesReads` | nodedb-lite/src/index/store.rs:205-211 | Removing one index leaves every equality and range read of every other as it was |
| `Framing.InstallLeavesReads` | nodedb-lite/src/index/maintain.rs:267-286 | So does building or rebuilding one |
| `Maintain.PlanReaches` | nodedb-lite/src/index/maintain.rs:29-51 | The planned changes take the entries held to exactly those wanted |
| `Maintain.ResyncAllMoves` | nodedb-lite/src/index/maintain.rs:170-194 | After a resync each listed document holds exactly the entries of its live row under all definitions and every other document what it held |
| `Install.ResyncAgrees` | nodedb-lite/src/index/maintain.rs:166-194 | Resyncing the changed ids restores agreement of every entry with the rows |
| `Install.InstalledShows` | nodedb-lite/src/index/maintain.rs:267-286 | Under the index's prefix an install leaves exactly the entries of the listed rows; elsewhere nothing changes |
| `Install.InstalledEntries` | nodedb-lite/src/index/maintain.rs:242-286 | The entries left are the union over the rows, as many as reported when the ids are distinct, and none of the replaced version |
| `Install.InstalledAgrees` | nodedb-lite/src/index/rebuild.rs:136-141 | Building from all the collection's rows keeps every entry in agreement with the rows |
| `Install.InstallReplaces` | nodedb-lite/src/index/maintain.rs:267-286 | An install under a name that another collection's index has leaves no entry of that index |
| `Install.RemovedAgrees` | nodedb-lite/src/index/ddl.rs:99-121 | Removing an index keeps the others in agreement with the rows |
| `History.ResyncMoves` | nodedb-lite/src/index/maintain.rs:170-194 | Resync as called: a collection without document indexes is left alone, tombstoned rows count as absent |
| `History.ResyncIsIdleIff` | nodedb-lite/src/index/maintain.rs:170-194 | A resync changes nothing and marks nothing if and only if every listed document already has the entries of its live row |
| `History.TombstoneRemoves` | nodedb-lite/src/index/maintain.rs:196-212 | Tombstoning removes the entries of the listed documents and changes no other document |
| `History.GoneUntilRevived` | nodedb-lite/src/index/maintain.rs:196-219 | Through any sequence of resyncs, tombstones, builds and revivals of others, a tombstoned document holds no entry and is no candidate in a unique check until revived or listed live by a build |
| `History.RevivingWriteKeepsUnique` | nodedb-lite/src/nodedb/trait_impl/document.rs:89-107 | A write that revives the deleted documents it names, whatever their old copies held, leaves a unique index unique over the live rows once accepted, and none of its documents deleted |
| `History.RevivalUniqueIff` | nodedb-lite/src/nodedb/trait_impl/document.rs:89-107 | Once tombstones are cleared for a write, accepted or not, the live rows, unique before, still are if and only if no old copy brought back collides with another live row |
| `History.RefusedRevivalDiverges` | nodedb-lite/src/nodedb/trait_impl/document.rs:89-107 | A document deleted while holding a value another has taken since, written again with it: the check refuses the write, the live rows are no longer unique, and a resync gives both documents their entries in the unique index |
| `History.RevivedCopyReturns` | nodedb-lite/src/nodedb/trait_impl/document.rs:89-107 | A revived document stays without entries at the next resync if and only if its old copy has nothing to index |
| `History.BuildIsExact` | nodedb-lite/src/index/rebuild.rs:111-135 | A bitemporal build leaves under the index exactly the entries of the live history rows |
| `History.BuildTombstones` | nodedb-lite/src/index/rebuild.rs:123-133 | Every CRDT copy without a live history row ends tombstoned and without entries |
| `Unique.AcceptedKeepsUnique` | nodedb-lite/src/index/maintain.rs:92-145 | An accepted write leaves a unique index unique over the live rows, given only that the rows it does not write are |
| `Unique.AcceptedIffUniqueThroughout` | nodedb-lite/src/index/maintain.rs:92-145 | The check accepts a write, repeated ids, removals, arrays, partial predicates and tombstones included, if and only if after each of its rows, over the live rows it leaves alone, no two documents hold equal values |
| `Unique.AcceptedIffUnique` | nodedb-lite/src/index/maintain.rs:92-145 | So for writes with distinct, live ids it accepts if and only if the rows after the write are unique, whatever the written rows held before |
| `Unique.AcceptedIffAllUnique` | nodedb-lite/src/index/maintain.rs:92-145 | A collection's write passes if and only if each unique index of the engine on the collection stays unique while the write is read; no other index has a say |
| `Unique.UnguardedIsAccepted` | nodedb-lite/src/index/maintain.rs:98-102 | Where no index is unique every write passes |
| `Unique.ImagesAcceptedIffAllUnique` | nodedb-lite/src/index/durable.rs:49-68 | A write over several collections passes if and only if each unique index of the engine stays unique while its collection's rows are read |
| `Unique.RepeatedIdMayBeRefused` | nodedb-lite/src/index/maintain.rs:92-145 | With a repeated id it may refuse a write whose outcome is unique: a value given away later in the same write |
| `UniqueCheck.CheckIndex` | nodedb-lite/src/index/maintain.rs:92-145 | The pass over the written rows with its growing list of claims accepts exactly the writes with no clash inside and none outside |
| `UniqueCheck.CheckListed` | nodedb-lite/src/index/maintain.rs:253-266 | The pass over the listed rows finds a clash exactly when there is one |
| `UniqueCheck.HeldOutside` | nodedb-lite/src/index/maintain.rs:68-90 | A candidate found by entry key and confirmed on its row is a document outside the write that holds an equal value |
| `Lookup.EqualIdsExact` | nodedb-lite/src/index/lookup.rs:30-42 | An equality read returns exactly the documents with an entry under a key of the probe, each once |
| `Lookup.LookupRefinesScan` | nodedb-lite/src/index/document.rs:78-88 | Where entries agree with rows, lookup then confirm equals scan for every scalar probe, case-folded, array and string-coercible values included |
| `Lookup.ScanComparesEntries` | nodedb-lite/src/index/document.rs:78-88 | A scan finds a scalar equal to a row's field if and only if the field is there, is no array, and the value the index would hold for it, predicate aside, equals the folded probe |
| `Lookup.LookupFindsHolders` | nodedb-lite/src/index/lookup.rs:30-42 | A lookup, confirmed, finds exactly the rows the predicate lets in whose field is no array and whose indexed value equals the folded probe |
| `Lookup.ConfirmedInOrder` | nodedb-lite/src/index/lookup.rs:30-42 | Confirming keeps the candidates in their order |
| `Range.RangeExact` | nodedb-lite/src/index/lookup.rs:48-133 | A range read returns precisely the documents with an entry in a class both bounds share and an encoding within the inclusive bounds, each once |
| `Range.HighCut` | nodedb-lite/src/index/lookup.rs:103-112 | An entry stays at or below the upper cut-off exactly when its value does |
| `Range.FormOrder` | nodedb-lite/src/index/lookup.rs:44-47 | Within a class, key order is value order: numeric with NaN last, by time, bytewise for text |
| `Range.RangeGivesUp` | nodedb-lite/src/index/lookup.rs:61-91 | With two bounds the read answers exactly when they share a value class, with one exactly when that has a class, and with none never |
| `Range.RangeRefinesScan` | nodedb-lite/src/index/lookup.rs:48-133 | Where entries agree with rows, the ids returned are those of the rows holding a value within the bounds |
| `RangeOrder.DedupOrder` | nodedb-lite/src/index/lookup.rs:23-27 | Dropping repeats keeps the order of first occurrences |
| `RangeOrder.RangeAscends` | nodedb-lite/src/index/lookup.rs:44-47 | Documents come class by class and ascending within a class: every entry of a later document comes after some entry of an earlier one |
| `Durable.PlanMatchesSettling` | nodedb-lite/src/index/durable.rs:70-95 | Planning all images against what earlier ones leave gives exactly the changes and writes of settling them one by one |
| `Durable.CommitIsExact` | nodedb-lite/src/index/durable.rs:226-254 | A committed write leaves each touched document with exactly the entries of its last image in memory and other documents as they were; storage has the same at every key it wrote or that no mark waits on |
| `Durable.CommitMirrorsIff` | nodedb-lite/src/index/durable.rs:242-254 | Storing collected writes leaves memory and storage in step if and only if each mark left on a key they write says what memory now says |
| `Durable.RowsMirrorIff` | nodedb-lite/src/index/durable.rs:189-254 | A committed row write leaves them in step if and only if it neither gives nor takes an entry whose key has a mark pending |
| `Durable.SettleImagesAgrees` | nodedb-lite/src/index/durable.rs:135-158 | Entries agree with the rows after the write |
| `Ddl.DryRunIsExact` | nodedb-lite/src/index/ddl.rs:74-97 | The writes computed on the scratch copy are those the catalog yields later, though its document indexes have moved on |
| `Ddl.ChangeAllMirrorsIff` | nodedb-lite/src/index/ddl.rs:54-97 | Storing those writes and then changing memory leaves the two in step, for any drops or moves between any engines, if and only if none stores at once a key whose pending mark says otherwise |
| `Ddl.MoveMirrorsIff` | nodedb-lite/src/index/ddl.rs:270-304 | Moving document indexes to a durable engine leaves, as far as the move itself goes, memory and storage in step if and only if no moved definition has a mark pending |
| `Ddl.MoveBeforeFlushDiverges` | nodedb-lite/src/index/ddl.rs:270-304 | An index declared and moved before any flush is such a case: its stale mark would undo the move in storage |
| `Pending.MoveMarks` | nodedb-lite/src/index/ddl.rs:282-302 | A move adds, definition keys aside, a pending deletion on exactly the entries the moved indexes held |
| `Pending.MoveThenWriteMirrorsIff` | nodedb-lite/src/query/ddl/convert/targets.rs:84-101 | Rows written after the move and before a flush leave memory and storage in step if and only if none has an entry key the indexes held before or had a mark on |
| `Pending.BuildMirrorsIff` | nodedb-lite/src/index/rebuild.rs:89-108 | A durable build leaves them in step if and only if it changes no key of the index that has a mark |
| `Pending.MoveThenBuildMirrorsIff` | nodedb-lite/src/index/rebuild.rs:89-108 | A moved index built before a flush leaves them in step if and only if no listed row has an entry key that was held or marked before the move |
| `Moves.MovedCells` | nodedb-lite/src/index/ddl.rs:270-304 | What a move of any list of indexes between any engines leaves stored at each key: the new definition at once for an engine that stores directly, the old one otherwise; no entry of an index that stored directly; everything else as it was |
| `Moves.MoveSoundIff` | nodedb-lite/src/index/ddl.rs:270-304 | Between a move of all a collection's indexes, in either direction, and its flush, storage is exact for the rows it holds if and only if: documents moved elsewhere have no entry, no dropped definition and no taken name stored; rows moved to documents have no entry stored; always between engines that store directly |
| `Scenarios.MovedDocumentsCrash` | nodedb-lite/src/query/ddl/convert/targets.rs:84-101 | Documents flushed, moved to an engine that stores directly, and a crash: opening loads the moved definition with the entries of documents that engine does not hold |
| `Scenarios.MovedRowsCrash` | nodedb-lite/src/query/ddl/convert/targets.rs:271-307 | A stored row moved to documents, and a crash: opening loads the old definition over the row without its entry, and the format being current does not build it again |
| `Scenarios.MovedRowsTakenTwice` | nodedb-lite/src/query/ddl/convert/targets.rs:271-307 | After that crash a second row with the value of the first passes the unique check, and the stored rows are not unique |
| `Conversions.FlushedMoveIff` | nodedb-lite/src/query/ddl/convert/targets.rs:84-114 | A collection converted and flushed leaves memory, storage and the rows in order for the new engine if and only if no moved definition is stored at once over a mark that says otherwise |
| `Conversions.CrashedMoveIff` | nodedb-lite/src/query/ddl/convert/targets.rs:84-101 | A collection moved and cut by a crash leaves them in order for the engine storage names if and only if storage was exact at that point |
| `Conversions.ConvertedConsistency` | nodedb-lite/src/query/ddl/convert/targets.rs:53-114 | Over runs in which collections change engine any number of times, each conversion settled when flushed or safe when cut: stored entries are exact, loading gives exactly those, and memory agrees with its rows, at every point |
| `Ddl.ApartKeepsOthers` | nodedb-lite/src/index/ddl.rs:108-118 | A drop or move of one index leaves the definition and entries of every other as they were |
| `Ddl.ForgottenBuildLeavesNoTrace` | nodedb-lite/src/index/rebuild.rs:96-105 | A new durable index whose write failed leaves definitions, entries and marks as they were |
| `Ddl.FailedRebuildMirrorsIff` | nodedb-lite/src/index/rebuild.rs:96-105 | A rebuild of an index already there is not undone when its write fails: memory and storage stay in step if and only if it changes neither definition nor entries |
| `Ddl.FailedRebuildDiverges` | nodedb-lite/src/index/rebuild.rs:96-105 | Rebuilding an index that holds entries over no rows is a case where they part |
| `Ddl.FailedRebuildStays` | nodedb-lite/src/index/rebuild.rs:96-105 | When it changes neither, it is as if nothing had been attempted |
| `Ddl.ClearDocumentsShows` | nodedb-lite/src/index/ddl.rs:132-140 | Clearing a document collection removes exactly its entries and keeps the definitions |
| `Ddl.ClearDocumentsAgrees` | nodedb-lite/src/index/ddl.rs:132-140 | Entries agree with the rows left after the collection is emptied |
| `Views.LoadedExact` | nodedb-lite/src/index/store.rs:257-329 | Loading sound cells gives two views of one set, mirroring storage and agreeing with the stored rows, with nothing pending |
| `Views.LoadedSorts` | nodedb-lite/src/index/store.rs:277-315 | Whatever is stored, loading takes in exactly the entries of the current format that can be read and marks every other key among the entries for removal, and marks the format where another is found with anything stored |
| `Views.LoadDefsKeepsLast` | nodedb-lite/src/index/store.rs:279-287 | Of several stored definitions of one name the last in key order is loaded |
| `Migration.LoadedOther` | nodedb-lite/src/index/store.rs:291-315 | Loading a store of another format, whatever its entries, gives no entry, a deletion pending on each stored one, and memory and storage in step |
| `Migration.MigratedEntries` | nodedb-lite/src/index/rebuild.rs:144-162 | Building the indexes again gives exactly the entries they imply for the listed rows |
| `Migration.MigrationMirrorsIff` | nodedb-lite/src/index/rebuild.rs:144-162 | Loading another format and building any of its indexes again leaves memory and storage in step if and only if no strict or key-value index gets an entry under a key stored before |
| `Migration.LostAtFlush` | nodedb-lite/src/index/store.rs:299-313 | An entry built again under a key stored before is deleted from storage by the next flush while memory keeps it |
| `Migration.SecondOpenMirrorsIff` | nodedb-lite/src/index/store.rs:305-315 | After an open in step and a crash before its flush, the next open, over the same rows or others, is in step if and only if no strict or key-value index gets an entry that was stored before or by the first |
| `Migration.SecondOpenDiverges` | nodedb-lite/src/index/store.rs:305-315 | One strict or key-value index and one row with an entry are enough: the first open is in step, and the flush of the second deletes the entry memory has |
| `Views.FaithfulIffAgrees` | nodedb-lite/src/index/store.rs:6-14 | Cells under pending marks are exact for the rows exactly when memory's entries are |
| `Catalog.Storage.BatchWrite` | nodedb-lite/src/storage/engine.rs:191-196 | A batch applies all its writes in order or nothing |
| `Catalog.IndexCatalog.Mark` | nodedb-lite/src/index/store.rs:80-98 | A change is collected when a sink is set and otherwise marked with the next sequence number |
| `Catalog.IndexCatalog.Apply` | nodedb-lite/src/index/store.rs:144-172 | The loop over a row's changes updates both views and the marks as specified |
| `Catalog.IndexCatalog.ClearPrefix` | nodedb-lite/src/index/store.rs:174-195 | The loop over the doomed entries removes each from both views and marks it |
| `Catalog.IndexCatalog.PutDef` | nodedb-lite/src/index/store.rs:197-203 | The definition is recorded and marked |
| `Catalog.IndexCatalog.RemoveDef` | nodedb-lite/src/index/store.rs:205-211 | The definition, its entries and its key go, and the definition removed is returned |
| `Catalog.IndexCatalog.ScratchCopy` | nodedb-lite/src/index/store.rs:100-124 | The scratch state holds the listed definitions and their entries and shares nothing with the catalog |
| `Catalog.IndexCatalog.Load` | nodedb-lite/src/index/store.rs:257-329 | Loading fills an empty catalog from storage, or marks unreadable entries, stamps an empty store, and asks for a rebuild exactly when another format holds definitions |
| `Catalog.IndexCatalog.StageFlush` | nodedb-lite/src/index/store.rs:331-351 | The staged writes, in whatever order, bring any storage to what it shows under the marks, and each mark's version is noted |
| `Catalog.IndexCatalog.MarkFlushed` | nodedb-lite/src/index/store.rs:353-362 | Exactly the marks still at their staged version are forgotten |
| `Catalog.IndexCatalog.Resync` | nodedb-lite/src/index/maintain.rs:170-194 | The loop over the ids settles each against its live row |
| `Catalog.IndexCatalog.Tombstone` | nodedb-lite/src/index/maintain.rs:201-212 | The ids are recorded as deleted and lose their entries |
| `Catalog.IndexCatalog.Revive` | nodedb-lite/src/index/maintain.rs:214-219 | One tombstone is cleared and nothing else changes |
| `Catalog.IndexCatalog.CheckUnique` | nodedb-lite/src/index/maintain.rs:221-240 | The check passes exactly when every unique index on the collection accepts the write |
| `Catalog.IndexCatalog.InstallIndex` | nodedb-lite/src/index/maintain.rs:242-287 | A unique index whose rows clash is refused with no change; otherwise the entries, the count and the writes to commit are those of the install |
| `Catalog.IndexCatalog.CheckImages` | nodedb-lite/src/index/durable.rs:49-68 | A write over several collections passes exactly when each collection's rows, in order, pass |
| `Catalog.IndexCatalog.CommitRows` | nodedb-lite/src/index/durable.rs:189-255 | A unique violation or a failed write changes neither rows, stored entries nor memory; success stores rows and entries together and memory follows |
| `Catalog.GroupRows` | nodedb-lite/src/index/durable.rs:51-64 | The rows are grouped by collection, each group holding its collection's rows in order and each collection once |
| `Catalog.IndexCatalog.LookupEq` | nodedb-lite/src/index/lookup.rs:30-42 | The loop over the probe's keys returns the specified ids |
| `Catalog.IndexCatalog.LookupRange` | nodedb-lite/src/index/lookup.rs:48-133 | The loop over the shared classes returns the specified ids and never reads a crossed range |
| `Catalog.IndexCatalog.ApplyDdl` | nodedb-lite/src/index/ddl.rs:54-97 | The writes learnt on a scratch copy are stored first; a failed batch changes nothing, an empty one is not written, and success changes memory as specified |
| `Catalog.IndexCatalog.DropIndex` | nodedb-lite/src/index/ddl.rs:99-121 | Dropping an unknown index does nothing; a known one is returned and goes from storage and memory, or from neither |
| `Catalog.IndexCatalog.DropCollection` | nodedb-lite/src/index/ddl.rs:142-182 | The collection's indexes, rows and tombstones go together, or nothing does |
| `Catalog.IndexCatalog.MoveCollection` | nodedb-lite/src/index/ddl.rs:270-304 | Every index on the collection is re-declared without entries and returned, these being all the collection now has, or nothing changes |
| `Catalog.IndexCatalog.Forget` | nodedb-lite/src/index/ddl.rs:123-130 | The index goes from memory and nothing is marked or stored |
| `Catalog.IndexCatalog.ClearDocumentEntries` | nodedb-lite/src/index/ddl.rs:132-140 | The loop over the collection's document indexes clears each |
| `Catalog.IndexCatalog.BuildStored` | nodedb-lite/src/index/rebuild.rs:89-108 | A durable build is refused, stored with memory following, or forgotten when new and its write failed |
| `Catalog.IndexCatalog.BuildFromHistory` | nodedb-lite/src/index/rebuild.rs:111-135 | A bitemporal build installs the live rows and tombstones the other copies, or is refused with no change |
| `Identity.EpochsIncrease` | nodedb-lite/src/identity/lite_identity.rs:54-122 | Whatever the store held, and with any put of any open, rotation or regeneration lost, stored unacknowledged or cut by a crash, epochs carried under one id strictly increase |
| `Identity.PeerIsStable` | nodedb-lite/src/identity/lite_identity.rs:69-84 | The peer id of a successful open is the one every later plain reopen loads, whichever puts of those reopens fail |
| `Identity.RotationSticks` | nodedb-lite/src/identity/lite_identity.rs:124-149 | Once a rotation returns, every later plain reopen loads the new peer id and not the refused one |
| `Identity.RegenerationSeen` | nodedb-lite/src/identity/lite_identity.rs:103-122 | What a reopen sees of an interrupted regeneration: the new id exactly when its put was stored, the new peer id exactly when the last was, so a new id can come with the old peer id |
| `Identity.LiteIdentity.LoadOrCreate` | nodedb-lite/src/identity/lite_identity.rs:44-101 | The open stores only what is missing or unusable, then the next epoch, and yields an identity only when every put it made succeeded |
| `Identity.OpenUses` | nodedb-lite/src/identity/lite_identity.rs:54-101 | An open succeeds if and only if every put it has to make does; it comes up with the stored id and peer id where they can be used and otherwise with the ones made for it, which it has stored |
| `Identity.FirstEpoch` | nodedb-lite/src/identity/lite_identity.rs:86-94 | The epoch is 1 where no readable one is stored and otherwise the next |
| `Identity.StoredPeerIs` | nodedb-lite/src/identity/lite_identity.rs:69-76 | A stored peer id is used if and only if it is the eight bytes of a number above 0 without the top bit |
| `Identity.LiteIdentity.RotatePeerId` | nodedb-lite/src/identity/lite_identity.rs:134-149 | The loop draws until an id differs from the refused one; it is in memory only once stored |
| `Identity.RotationSeen` | nodedb-lite/src/identity/lite_identity.rs:134-149 | A rotation is in memory if and only if it returned and in storage whenever its put was stored, and touches neither id nor epoch |
| `Identity.FirstOtherIs` | nodedb-lite/src/identity/lite_identity.rs:134-149 | The id rotated to is the first drawn that differs from the refused one |
| `Identity.LiteIdentity.Regenerate` | nodedb-lite/src/identity/lite_identity.rs:110-122 | The id and epoch change in memory before their puts; the peer id changes last |
| `Identity.RegenerationEnds` | nodedb-lite/src/identity/lite_identity.rs:110-122 | A regeneration that returns leaves the new id, epoch 1 and the new peer id in memory and storage; cut earlier, memory has the id and the epoch, and storage what was put in that order |
| `Identity.MintPeerId` | nodedb-lite/src/identity/peer_id.rs:24-37 | The hash loop never yields the unset id nor one with the reserved bit |
| `Identity.HashVectors` | nodedb-lite/src/identity/peer_id.rs:24-37 | The hash of two short texts, which fixes its constants |
| `Identity.RecordReadsBack` | nodedb-lite/src/identity/lite_identity.rs:70-94 | A record is eight bytes, the least significant first, and reads back as the number stored |
| `Clock.ClockIsLinearizable` | nodedb-lite/src/runtime.rs:242-253 | For any number of threads, any wall clocks, stale loads and spurious failures, the values handed out are those of the sequential clock in swap order: strictly increasing, and larger for a call begun after another returned |
| `Clock.RunsAheadByCalls` | nodedb-lite/src/runtime.rs:227-241 | A value is the largest of one per call made and each clock reading plus one per call since, so it runs ahead by no more than the calls made |
| `Exprs.LowerList` | nodedb-lite/src/query/expr_convert.rs:145-173 | The list loop yields the left-nested chain of tests, a constant for the empty list, or nothing at an item with no evaluator form |
| `ExprMeaning.LoweringKeepsMeaning` | nodedb-lite/src/query/expr_convert.rs:46-254 | Every expression that lowers, has a value in SQL and compares at each NOT BETWEEN with both bounds or lies outside one, evaluates to that three-valued value, at every nesting and list length |
| `ExprMeaning.LowersIff` | nodedb-lite/src/query/expr_convert.rs:46-254 | An expression lowers if and only if its parts do and it is no literal without a value, no subquery, no wildcard and no cast to an unknown type |
| `ExprMeaning.LowersIffWritable` | nodedb-lite/src/query/expr_convert.rs:46-254 | So an expression has an evaluator form if and only if none of these is anywhere in it |
| `ExprMeaning.KeptThroughoutIff` | nodedb-lite/src/query/expr_convert.rs:46-254 | The lowered form of an expression and of all its parts has the SQL meaning if and only if each NOT BETWEEN in it compares so |
| `ExprMeaning.InKeepsMeaning` | nodedb-lite/src/query/expr_convert.rs:145-173 | IN and NOT IN lowered to chains have the value of subclause 8.4 of ISO/IEC 9075-2, NULLs and empty lists included |
| `ExprMeaning.BetweenKeepsMeaning` | nodedb-lite/src/query/expr_convert.rs:175-202 | BETWEEN lowered has the value of subclause 8.3; NOT BETWEEN has it if and only if the value compares with both bounds or already lies outside one |
| `ExprMeaning.NotBetweenDiffers` | nodedb-lite/src/query/expr_convert.rs:175-202 | With an evaluator that orders integers only, any other value is NOT BETWEEN 1 AND 2 in SQL, and the lowered form says it is not |
| `Filters.SqlFiltersToMetadata` | nodedb-lite/src/query/filter_convert.rs:76-105 | The loops split filters into primitive conditions and expressions, add payload conditions, and fail at the first that lowers to neither |
| `Filters.FiltersToScanFilters` | nodedb-lite/src/query/scan_filter_convert.rs:42-117 | The recursion flattens AND, groups OR and leaves NOT and expressions whole |
| `FilterMeaning.ExprHasTruth` | nodedb-lite/src/query/filter_convert.rs:238-326 | On every row, NULL fields included, the one expression has the filter's three-valued truth value, where its NOT BETWEEN tests compare |
| `FilterMeaning.MetaHasTruth` | nodedb-lite/src/query/filter_convert.rs:134-217 | On rows whose named fields are there, a primitive condition matches exactly when the filter is true |
| `FilterMeaning.ScanHasTruth` | nodedb-lite/src/query/scan_filter_convert.rs:60-117 | On rows whose named fields are there and where the NOT BETWEEN tests compare, the scan list passes exactly when the filter is true |
| `FilterMeaning.LiteHasTruth` | nodedb-lite/src/query/filter_convert.rs:63-105 | On such rows, primitive conditions and expressions together accept exactly the rows every filter is true of and every payload condition holds for |
| `FilterMeaning.FormsAcceptTheSame` | nodedb-lite/src/query/scan_filter_convert.rs:41-48 | The three lowered forms exist for the same filter lists and accept the same rows, unordered values and empty AND and OR included |
| `FilterMeaning.FormsExistIff` | nodedb-lite/src/query/filter_convert.rs:134-326 | A filter becomes one expression if and only if its literals have values and its expressions lower, and a primitive condition if and only if its literals have values and it holds no expression |
| `FilterMeaning.AtomExistsIff` | nodedb-lite/src/query/filter_convert.rs:328-389 | A payload condition exists if and only if its literals have values and a range has a bound |
| `FilterMeaning.LiteExistsIff` | nodedb-lite/src/query/filter_convert.rs:76-105 | A list of filters and payload conditions lowers if and only if every literal has a value, every expression lowers and every payload condition exists |
| `FilterMeaning.EvalExprs` | nodedb-lite/src/query/filter_convert.rs:47-60 | The loop accepts exactly when every expression is truthy, and fails only on an evaluation error |
| `FilterMeaning.AtomMatches` | nodedb-lite/src/query/filter_convert.rs:328-389 | A payload condition matches exactly the rows its equality, list or range holds for |

## Left out

- FFI, JNI and WASM bindings: marshalling and thin wrappers.
- Storage engines, Loro, HNSW, full-text search, `zerompk`: other crates; a stored definition is a cell that holds it, and a value's packed bytes are a parameter.
- Decode errors of stored definitions: a cell under a definition key holds a definition.
- SQL execution around the lowerings, including which columns are qualified by which source: mostly routing to engines not modelled.
- Sorted (leaderboard) indexes, their entries and definitions: the entry layout is in another module, and they only add operations to the same batches.
- Entries of the layout before the catalog, which are removed before the load.
- A rebuild at open that a unique index refuses: the open fails; `Migration` treats the builds that succeed, in whole or in part.
- Rows written to the new engine between a move and its flush as part of a run: `Pending` says exactly when one such write or build stays in step; in `Conversions` they follow the flush.
- A flush staged before a move and committed after it: `Moves` and `Conversions` take storage as it is when the move is made.
- Runs.CrashConsistency: a durable index rebuilt over itself whose batch fails is no step; when in step it changes nothing (`Ddl.FailedRebuildStays`), otherwise memory is ahead of storage.
- Rebuilding bitemporal indexes at open as part of a run: `History` treats one build and any sequence of resyncs after it.
- Lock acquisition and the interleaving of steps inside one operation: operations are atomic steps, except where storage and memory change apart.
- Planner views of an index, the wording of errors and entry counts in reports.
- Names of cast types and literals of decimal type: a cast or literal is either convertible or not.
- Encryption, checksums, configuration, health, events and sequences: easy beside the index core.
- Catalog.IndexCatalog.Load: sorted definitions are not loaded, and a definition that does not decode, which fails the open, does not occur in the model's cells.
- Catalog.IndexCatalog.CommitRows: the row writes themselves are the images; extra writes a caller adds to the batch are not modelled.
- Catalog.IndexCatalog.DropCollection: the caller's row removals are images of removed rows; sorted-index removals are not modelled.
- Identity.MintPeerId: states the result from the UUID given; that UUIDs are fresh is an assumption of the runs.
- FilterMeaning.FormsAcceptTheSame: says nothing of rows where a named field is missing or NULL, on which the evaluators' own rules decide.
