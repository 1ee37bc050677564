# A verified model of the Berkeley DB reference index

The repository defines an interface for a transactional, multidimensional index
(`include/contest_interface.h`) and a reference implementation of it (`example/`) on top of the
one-dimensional ordered store of Berkeley DB. This project models that implementation in Dafny and
proves what the records, the range scans, the transaction gate, the index registry and the locking
protocol guarantee. The random generator and key ring of the benchmark driver and the command-line
parser are modelled as well.

`dafny verify dfyconfig.toml` checks the whole project.

## How the model is built

Only the store is trusted. `Store.dfy` is a small class with the contract of the Berkeley DB calls
that the repository makes: records in comparator order, a duplicate inserted behind the existing
ones, a cursor with SET_RANGE, GET_BOTH, NEXT, NEXT_DUP, put-current and del. After del the cursor
stands in a hole, and NEXT returns the record that moved up. Any call may fail; a failure changes no
record and is counted in the ghost field `failures`, so that every contract above says what holds
when nothing failed and what can have happened when something did. Everything else rests on the
repository's own code.

| module | models |
|---|---|
| `Interface` | attributes, keys with NULLs, records, status codes, modification flags (`include/contest_interface.h`) |
| `Order` | `attcmp`, `keycmp`, `CheckBounds` and their order theory (`example/Util.cc`) |
| `Codec` | the fixed slots of a stored key and the byte comparator (`IndexStructure` in `example/Index.cc`) |
| `Unions` | an attribute read by a type that is not its own |
| `BoxQuery`, `Scan`, `ScanMeaning` | what a scan selects, against the box query that the interface describes, and in terms of the values of keys |
| `Records`, `Modification`, `ModificationLaws`, `Overreach` | what Insert, Update and Delete do to the records |
| `Gate`, `GateHistory`, `Index`, `Manager` | the classes of `example/Index.cc`, as classes with the same fields |
| `Iterators` | the iterator class (`example/Iterator.cc`) |
| `Operations`, `Contest` | the interface functions (`example/BDBImpl.cc`): on one index, and on the whole state |
| `Protocol`, `ProtocolFacts`, `ProtocolInvariant`, `ProtocolSafety`, `ProtocolProgress` | any number of threads running these operations, interleaved at every mutex |
| `ProtocolAlone`, `ProtocolCalls`, `ProtocolChanges`, `ProtocolExclusion` | runs that exist: every operation can return with its whole effect, changes do arise and stop deletions; and which code the mutexes keep apart |
| `ProtocolHandles`, `ProtocolRemoval`, `ProtocolDeletion`, `ProtocolLateHandle` | index handles in these interleavings, and what deleting an index does to them |
| `Rng`, `Keystore` | the xorshift generator and the key ring (`benchmark/basedriver.h`, `benchmark/basedriver.c`) |
| `ArgumentParsers` | registration and segmentation of command-line options (`common/argument_parser.cc`) |

In the protocol, `Protocol.Code` lists the places where a thread can be, each with the function that
comes next; `Entry` and `Outer` give the mutex that it takes there and the one that it already holds;
`Work` is one critical section, or one step between two of them. Transactions are fresh identifiers,
a nested transaction belongs to its thread, and the structure of a deleted index stays as a
tombstone that is read-only for ever. `ProtocolFacts` states an invariant, `ProtocolInvariant` proves it for every step of
every thread, and `ProtocolSafety` draws the consequences for every state of every run.
`ProtocolCalls` shows that these runs contain what the operations are for. Runs are
those in which Berkeley DB raises no exception but one: Db::open does not create a database, so
opening an index whose database is gone fails, and OpenIndex returns kErrorUnknownIndex.

## Where the code and its documentation disagree

The model follows the code. For each point there is an input on which the documented behaviour
fails, and the condition under which it holds, in both directions.

* A range query is documented as a multidimensional range, and the scan checks the lower bound only
  lexicographically. It answers the box query on every store exactly when the bounds form a *prefix
  range* (`BoxQuery.PrefixRange`): an attribute may have a lower bound only while all earlier ones
  are fixed to one value (`BoxQuery.BoxQueryExact`, `Scan.ScanIsBoxQueryExactly`; for bounds that
  are no prefix range, `BoxQuery.PrefixRangeNeeded` gives a key).
* A NULL in a minimum key is documented as a wildcard. For a varchar it is stored as 512 characters
  of code 127, so the empty string is missed (`BoxQuery.VarcharWildcardMisses`). Nothing is missed
  exactly when the box is empty or only integers are NULL (`BoxQuery.MissesNothingExactly`).
* `kMatchDuplicates` is documented to affect all matching records. With `kIgnorePayload` the loop's
  guard compares a key that was decoded before the loop, so the loop runs to the end of the store;
  without it NEXT_DUP follows equal keys whatever their payload is. Every match is reached, and
  others are too (`Overreach`). The exact conditions are `UpdateIgnoringExact`,
  `UpdateMatchingExact`, `DeleteAllExact`, `OnlyHitsIgnoring` and `OnlyHitsMatching` in
  `ModificationLaws`.
* kErrorNotFound is documented for records that do not exist. Update also returns it when a cursor
  call in its loop fails, and the changes made so far are committed to the parent: exactly when
  `kMatchDuplicates` is set and a call failed behind the first put
  (`ModificationLaws.NotFoundThoughMatched`, `Overreach.FailureIsNotFound`).
* Deleting an index should free all its resources, open handles included. A thread that is opening
  the index when MakeReadOnly succeeds can have an open handle of it afterwards
  (`ProtocolLateHandle.LateHandle`), and without such a thread all handles are closed and stay
  closed: `ProtocolDeletion.DeletionClosesExactly`, over all continuations of a run.
* A key is documented as incompatible if its types differ; `Compatible` compares only the number of
  attributes, and a value of another type is read by the type that the index declares
  (`Unions.WrongTypeIsAnotherKey`). The operations are specified for such keys too: the parameter
  `memory` is what lies behind the values in the caller's unions. kErrorIncompatibleKey is returned
  exactly if the number of attributes differs (`Operations`), and what a kInt becomes in a kShort
  slot is `Unions.NarrowedExactly`.

## Model

| member | source | states |
|---|---|---|
| Order.CompareKeys | example/Util.cc:71-83 | the comparison loop computes the lexicographic order: the first attribute that differs decides |
| Order.AttCmpZero | example/Util.cc:12-30 | two attributes compare equal exactly if they are the same number, or the same text up to the terminator |
| Order.AttCmpMeans | example/Util.cc:12-30 | attcmp is the order of the numbers, and for varchars the alphabetical order: up to some position the texts agree, and there the first one ends or has the smaller byte |
| Order.TextIs | example/Util.cc:27 | the text of a varchar is what stands before its first zero |
| Order.Extremes | example/Util.cc:12-30 | the least and greatest value of each type bound every attribute, varchars included |
| Order.KeyCmpFlips | example/Util.cc:71-83 | keycmp is antisymmetric and total: exchanging the keys negates the result |
| Order.KeyCmpTransitive | example/Util.cc:71-83 | keycmp is transitive, and strictly so if one comparison is strict |
| Order.KeyCmpZero | example/Util.cc:71-83 | keys compare equal exactly if they have the same values attribute by attribute |
| Order.KeyCmpMeans | example/Util.cc:71-83 | keycmp is the lexicographic order of the values, defined without attcmp: at some attribute the first key has the smaller value, and before it the values are the same |
| Order.CheckBounds | example/Util.cc:86-101 | true exactly if no given attribute exceeds its given bound; otherwise the index of the first one that does |
| Order.AtMostImpliesNotAfter | example/Util.cc:71-101 | componentwise at most implies lexicographically at most |
| Codec.IntRoundTrip | example/Index.cc:44-62 | a two's-complement little-endian integer of n bytes reads back as itself, negative values included |
| Codec.DecodeEncode | example/Index.cc:33-102 | decoding an encoded key gives the key back |
| Codec.EncodeDecode | example/Index.cc:33-102 | encoding a decoded buffer gives the buffer back, for every buffer of the key size |
| Codec.ShortLayout | example/Index.cc:45-67 | the four bytes of a kShort attribute, as a sum over them: two's complement, the lowest byte first |
| Codec.IntLayout | example/Index.cc:45-67 | the eight bytes of a kInt attribute, as a sum over them: two's complement, the lowest byte first |
| Codec.EncodeAppends | example/Index.cc:33-74 | the bytes of a key are those of its attributes in their order, without gaps |
| Codec.SlotsDisjoint | example/Index.cc:76-102 | bytes of one slot influence no other decoded attribute |
| Codec.ByteOrderTotal | example/Util.cc:35-69 | the comparator given to the b-tree is a total preorder on all byte strings |
| Codec.BytesCmpAgrees | example/Util.cc:35-69 | comparing two encodings gives what keycmp gives for the keys |
| Unions.KeyAsOwn | example/Index.cc:64-67 | a key of the index's types is seen as it is, whatever the memory behind its values holds |
| Unions.StoredKey | example/Index.cc:33-74 | the bytes under which a key is stored or looked up read back as the caller's values, each by the type of its slot, NULLs as the stand-ins; for a key of the index's types without NULLs they are its encoding |
| Unions.NarrowedExactly | example/Index.cc:45-67 | a kInt attribute in a kShort slot is stored modulo two to the 32, and unchanged if and only if it fits |
| Unions.WrongTypeIsAnotherKey | example/Index.cc:451-463 | a key of another type that is not refused and is stored as a different key |
| Index.IndexStructure.constructor | example/Index.cc:536-553 | the size that the first loop adds up is the size of an encoded key |
| Index.IndexStructure.GetBDBKey | example/Index.cc:33-74 | the buffer is the encoding of the key with every NULL replaced by its type's stand-in, and ends at the constructor's size |
| Index.IndexStructure.GetKey | example/Index.cc:76-102 | reads every slot; with DecodeEncode and EncodeDecode the inverse of GetBDBKey on keys without NULLs |
| GateHistory.HistoryMeans | example/Index.cc:587-613 | after any history of start_transaction, end_transaction and MakeReadOnly: read-only exactly if at some MakeReadOnly every started transaction had ended; otherwise registered are exactly those that have not ended, and a read-only structure has none |
| Index.IndexStructure.CloseHandles | example/Index.cc:573-583 | terminates with every former handle closed and none left, though each handle removes itself |
| Index.IndexHandle.Close | example/Index.cc:159-200 | closes and unregisters an open handle once; does nothing to a closed one |
| Index.IndexHandle.Attach | example/Index.cc:119-141 | the opened handle is registered with its structure |
| Index.IndexHandle.Insert | example/Index.cc:202-229 | adds exactly the record at its place in key order, or nothing if refused or failed; registers the caller's transaction |
| Index.IndexHandle.Locate | example/Index.cc:263-277 | the search of Update and Delete stops at the first matching record, or reports that there is none |
| Index.IndexHandle.OverwriteDuplicates | example/Index.cc:291-297 | the exact-payload loop overwrites exactly the rest of the run of equal keys |
| Index.IndexHandle.OverwriteFollowing | example/Index.cc:298-308 | the payload-ignoring loop overwrites everything to the end of the store |
| Index.IndexHandle.RemoveDuplicates | example/Index.cc:397-403 | the exact-payload loop removes exactly the rest of the run of equal keys |
| Index.IndexHandle.RemoveFollowing | example/Index.cc:404-414 | the payload-ignoring loop removes everything to the end of the store |
| Index.IndexHandle.Update | example/Index.cc:231-340 | for all flags: of the first match and what follows it the payloads up to some record are replaced, all of them unless a store call fails, and no key changes; the result in each case, also after a failure; the caller's transaction is registered exactly if something changed |
| Index.IndexHandle.Delete | example/Index.cc:342-450 | for all flags: the first match and what follows it are removed up to some record, all of them unless a store call fails, and the others stay in order; the result in each case, also after a failure; the caller's transaction is registered exactly if something changed |
| Modification.HitIsLowerBound | example/Index.cc:264-272 | SET_RANGE with a key check finds the first matching record, if there is one |
| ModificationLaws.HitsMean | example/Index.cc:263-277 | a record matches exactly if its key has the same values and, unless payloads are ignored, its payload is the same |
| ModificationLaws.StopMeans | example/Index.cc:289-310 | if a record matches, the range ends behind the first match; with kMatchDuplicates at the first other key, or at the end of the store if payloads are ignored |
| ModificationLaws.UpdateTells | example/Index.cc:310-337 | without a failing call kOk or kErrorNotFound tells whether a record matched; kErrorGenericFailure means that nothing was changed |
| ModificationLaws.DeleteTells | example/Index.cc:416-447 | without a failing call kOk or kErrorNotFound tells whether a record matched; with one it is kErrorGenericFailure |
| ModificationLaws.SweepCoversMatches | example/Index.cc:290-309 | with kMatchDuplicates every matching record is modified and nothing before the first match |
| ModificationLaws.UpdateIgnoringExact | example/Index.cc:298-308 | Update with both flags replaces exactly the matching records if and only if every record with a greater key has the new payload already |
| ModificationLaws.UpdateMatchingExact | example/Index.cc:291-297 | Update with kMatchDuplicates alone replaces exactly the matching records if and only if behind the first one every record with that key has the old or the new payload |
| ModificationLaws.DeleteAllExact | example/Index.cc:396-415 | Delete with kMatchDuplicates removes exactly the matching records if and only if it sweeps no other |
| ModificationLaws.OnlyHitsIgnoring | example/Index.cc:406-408 | for Delete with both flags: nothing else is swept if and only if no record has a greater key |
| ModificationLaws.OnlyHitsMatching | example/Index.cc:399-400 | for Delete with kMatchDuplicates alone: nothing else is swept if and only if behind the first match no record with that key has another payload |
| ModificationLaws.NotFoundThoughMatched | example/Index.cc:310-318 | Update returns kErrorNotFound although a record matched if and only if kMatchDuplicates is set and a store call failed behind the first put; a record is changed then |
| ModificationLaws.UpdateOne | example/Index.cc:279-289 | without kMatchDuplicates one matching record (k, p) becomes (k, p') and the multiset of the others is kept |
| ModificationLaws.DeleteOne | example/Index.cc:385-395 | without kMatchDuplicates one matching record goes and the multiset of the others is kept |
| ModificationLaws.InsertThenDelete | example/Index.cc:202-450 | an insertion followed by a deletion of the same record restores the multiset of records, even if an older duplicate is the one that goes |
| Overreach.GreaterKeyIsSwept | example/Index.cc:406-408 | a concrete store where a modification of key 1 also reaches key 2 |
| Overreach.OtherPayloadIsSwept | example/Index.cc:399-400 | a concrete store where a modification of one payload also reaches another one |
| Overreach.SweptIsLost | example/Index.cc:396-415 | on such stores Delete loses, and Update overwrites, a record that does not match |
| Overreach.FailureIsNotFound | example/Index.cc:310-318 | two equal records of which the loop changes one before it fails: kErrorNotFound is the only possible result |
| Records.InsertedOrdered | example/Index.cc:218-226 | a record inserted behind its duplicates keeps the store sorted |
| Records.InsertedBehind | example/Index.cc:218-226 | a new record stands behind every record with its key or a smaller one, and before every greater one |
| Records.InsertedMultiset | example/Index.cc:218-226 | an insertion adds one record to those that are there |
| BoxQuery.BoxQueryExact | include/contest_interface.h:526-530 | the scan's test equals the documented box test on all keys if and only if the bounds are a prefix range |
| BoxQuery.MissesNothingExactly | example/Index.cc:40-61 | the scan misses no key of the box if and only if the box is empty or its minimum has NULLs only for integers |
| BoxQuery.OneAttributeExact | example/Iterator.cc:35-80 | on an index with one attribute the scan is exactly the range |
| BoxQuery.PointQueryExact | example/Iterator.cc:55-123 | with both bounds equal to a key, exactly the keys that compare equal to it are selected |
| BoxQuery.VarcharWildcardMisses | example/Index.cc:57-61 | a NULL varchar minimum misses the empty string |
| Scan.OvershootPersists | example/Iterator.cc:83-103 | behind a record above the maximum in attribute 0 no record passes, so the early stop loses nothing |
| Scan.ScanSelects | example/Iterator.cc:55-123 | starting at the lower bound and filtering gives exactly the records at or above the minimum key whose every attribute is at most its maximum, in order and with multiplicity |
| Scan.ScanIsBoxQueryExactly | include/contest_interface.h:526-530 | the scan answers the box query on every ordered store if and only if the bounds are a prefix range |
| Scan.PointQuerySelects | include/contest_interface.h:532-533 | a point query yields every record with that key, each duplicate once |
| ScanMeaning.InScanMeans | example/Iterator.cc:35-123 | the scan selects exactly the keys whose values are lexicographically not before the minimum's, with the least number or 512 characters 127 for a NULL, and of which no value is above its maximum |
| ScanMeaning.InBoxMeans | include/contest_interface.h:526-530 | the documented box test in terms of values: none is below its minimum, none above its maximum, NULL restricts nothing |
| ScanMeaning.NullVarcharSelects | example/Index.cc:57-61 | a NULL varchar minimum selects exactly the strings that are not before 512 characters 127 |
| ScanMeaning.SelectedCounts | example/Iterator.cc:55-123 | each selected record is delivered as often as it is in the store, and no other record |
| ScanMeaning.SelectedOrdered | include/contest_interface.h:526-533 | what is delivered is in key order |
| ScanMeaning.PointQueryFindsInserted | example/Index.cc:202-229 | after an insertion a point query with the key delivers the new record, in addition to what it delivered before |
| Iterators.IndexIterator.constructor | example/Iterator.cc:16-42 | a new iterator starts at the encoded minimum key |
| Iterators.IndexIterator.Skip | example/Iterator.cc:76-122 | the loop stops at the next record that passes, or with none left that would have passed |
| Iterators.IndexIterator.Next | example/Iterator.cc:55-123 | moves to the next record that passes, or ends when there is none; false exactly after a store failure, and then closed |
| Iterators.IndexIterator.Value | example/Iterator.cc:126-145 | the decoded record under the cursor |
| Operations.InsertRecord | example/BDBImpl.cc:263-285 | every result and its effect: kErrorIncompatibleKey exactly if the handle is open and there is no record or its number of attributes differs; otherwise, unless refused or failed, the record is added under `StoredKey`, and the caller's transaction is registered |
| Operations.UpdateRecord | example/BDBImpl.cc:292-318 | every result and its effect: kErrorIncompatibleKey exactly if the handle is open and there is no record or its number of attributes differs; otherwise the range of records that match `StoredKey` and what was done to it, as in `Index`, and the registered transactions |
| Operations.DeleteRecord | example/BDBImpl.cc:325-346 | every result and its effect: kErrorIncompatibleKey exactly if the handle is open and there is no record or its number of attributes differs; otherwise the range of records that match `StoredKey` and what was done to it, as in `Index`, and the registered transactions |
| Operations.GetRecords | example/BDBImpl.cc:354-380 | for bounds of any types, what the new iterator has to deliver is exactly what the scan's test selects |
| Operations.GetNext | example/BDBImpl.cc:388-418 | delivers the first remaining record and keeps the rest, kErrorNotFound exactly when none remains, or reports a failure |
| Operations.Drain | unittests/tests.cc:245-248 | a caller's loop gets all remaining records, in store order and with multiplicity |
| Manager.IndexManager.Find | example/Index.cc:502-513 | the structure of a registered name, and null exactly for an unregistered one |
| Manager.IndexManager.Remove | example/Index.cc:515-534 | unregisters the structure and closes all its handles if and only if no transaction is registered on it; otherwise changes nothing |
| Manager.IndexManager.CloseTransaction | example/Index.cc:615-622 | takes the transaction off every registered index |
| Contest.Engine.CreateIndex | example/BDBImpl.cc:126-159 | a new name is registered with these types, an open gate and an empty database; kErrorIndexExists exactly for a registered one, and nothing changes then |
| Contest.Engine.OpenIndex | example/BDBImpl.cc:166-191 | kOk exactly for a registered name: the new handle is one of its structure's open handles, on the database that its comparator orders; otherwise kErrorUnknownIndex |
| Contest.Engine.CloseIndex | example/BDBImpl.cc:198-225 | afterwards the handle is closed and unregistered; unknown exactly if it was closed before |
| Contest.Engine.DeleteIndex | example/BDBImpl.cc:232-255 | succeeds if and only if no transaction is registered on the index, then closes exactly the handles of that index and drops its database; no other index loses a registration |
| Contest.Engine.BeginTransaction | example/BDBImpl.cc:48-63 | one more live transaction, which no index has registered |
| Contest.Engine.EndTransaction | example/BDBImpl.cc:71-118 | a commit or abort takes the transaction off every index and resets the handle |
| Contest.Engine.InsertRecord | example/BDBImpl.cc:263-285 | keeps the whole state valid; on an open handle the record is added under the caller's key exactly if no store call fails, and the transaction registered; refused as unknown exactly if the handle is closed |
| Contest.Engine.UpdateRecord | example/BDBImpl.cc:292-318 | keeps the whole state valid; on an open handle the records change as in `Operations`, a change is registered under the caller's live transaction, and nothing of the nested one remains |
| Contest.Engine.DeleteRecord | example/BDBImpl.cc:325-346 | keeps the whole state valid; on an open handle the records change as in `Operations`, a change is registered under the caller's live transaction, and nothing of the nested one remains |
| Contest.Engine.OpenIsReady | example/BDBImpl.cc:263-418 | between calls every open handle works on a sorted database of its index, which is not read-only and has registered only live transactions |
| Contest.Engine.QuiescentDeletes | example/BDBImpl.cc:71-118 | after any calls of the engine, when no transaction is live, no index has one registered, so DeleteIndex passes the gate |
| ProtocolInvariant.StepInv | example/Index.cc:587-622 | every step of every thread keeps the invariant: mutex ownership, sound gates, what each thread relies on, exclusive use of transactions, traced registrations, accounted databases |
| ProtocolInvariant.RunInv | example/Index.cc:587-622 | the invariant holds in every state of every run |
| ProtocolSafety.NoDeadlock | example/Index.cc:231-340 | in no state of any run is there a cycle of threads waiting for each other's mutexes, although Update and Remove take the handle's and the manager's mutex in opposite orders |
| ProtocolSafety.RemoveWaitsShortly | example/Index.cc:515-534 | a handle mutex that Remove waits for is not held by a thread that waits for the manager's |
| ProtocolProgress.Progress | example/BDBImpl.cc:48-418 | in every state of every run in which some call has not returned, a thread that is in a call can make a step |
| ProtocolSafety.ComparatorFindsStructure | example/Util.cc:45-49 | the comparator, called under a registered transaction, finds the structure of the handle under the handle's name, so its assertion holds |
| ProtocolSafety.ChangesAreOwned | example/Index.cc:256-337 | every unresolved change belongs to a transaction registered on that index, which is live and not read-only |
| ProtocolSafety.RemoveSeesNoChanges | example/Index.cc:515-534 | past MakeReadOnly, Remove works on an index without unresolved changes |
| ProtocolSafety.ParentIsAccepted | example/Index.cc:285-287 | the ignored result of registering the parent transaction is always true |
| ProtocolSafety.ReadOnlyForEver | example/Index.cc:605-613 | a structure once read-only stays so |
| ProtocolSafety.RegistryConsistent | example/BDBImpl.cc:126-255 | a database exists exactly if its name is registered, being created or being deleted; the three exclude each other, and no two threads create or delete it at once |
| ProtocolSafety.InsertNeverOverwrites | example/Index.cc:496-500 | IndexManager::Insert never replaces an entry |
| ProtocolSafety.NothingStaysRegistered | example/BDBImpl.cc:71-118 | when all calls have returned and all transactions were closed, no transaction is registered anywhere and no change is unresolved |
| ProtocolChanges.InsertLeavesChange | example/Index.cc:219-221 | from every run in which an InsertRecord under a transaction is past the gate, it can return and leave a change that this transaction owns |
| ProtocolChanges.ModifyLeavesChange | example/Index.cc:279-289 | from every run in which an UpdateRecord or DeleteRecord is past the gate, it can leave a change that its nested transaction owns |
| ProtocolChanges.ModifyHandsOver | example/Index.cc:256-337 | and return with the change handed over to the parent, which is registered, and nothing of the nested transaction left |
| ProtocolChanges.RemoveIsRefused | example/Index.cc:515-534 | whenever a deletion leaves MakeReadOnly while a change on the index is outstanding, it has been refused and the index stays registered |
| ProtocolChanges.RemoveReturns | example/Index.cc:515-534 | and it can always come to that end, the change still outstanding |
| ProtocolChanges.InsertionStopsDeletion | example/Index.cc:515-534 | an insertion and a deletion in progress: both can return, with the index registered and the change outstanding |
| ProtocolChanges.ModificationStopsDeletion | example/Index.cc:515-534 | the same for an update or deletion of records |
| ProtocolExclusion.RegistryIsExclusive | example/Index.cc:496-534 | in every state of every run at most one thread is inside a function of IndexManager, nested calls included |
| ProtocolExclusion.GateIsExclusive | example/Index.cc:587-613 | at most one thread is inside start_transaction, end_transaction or MakeReadOnly of a structure |
| ProtocolExclusion.HandleSetIsExclusive | example/Index.cc:561-571 | at most one thread is inside register_handle or unregister_handle of a structure |
| ProtocolExclusion.HandleIsExclusive | example/Index.cc:159-340 | at most one thread is inside Update or the locked part of Close of a handle |
| ProtocolExclusion.UpdateWantsManager | example/Util.cc:45-49 | an Update can come to wait for the manager's mutex while it holds its handle's |
| ProtocolExclusion.RemoveWantsHandle | example/Index.cc:515-583 | a deletion comes to wait for a handle's mutex while it holds the manager's, so both lock orders occur |
| ProtocolCalls.Creates | example/BDBImpl.cc:126-159 | from every run in which no other thread holds a mutex: CreateIndex can return with the database created and a new structure under the name, and nothing else changed |
| ProtocolCalls.Opens | example/BDBImpl.cc:166-191 | likewise OpenIndex, with a new open handle that the structure of the name has registered |
| ProtocolCalls.Closes | example/BDBImpl.cc:198-225 | likewise CloseIndex, with the handle closed and taken out of its set |
| ProtocolCalls.Inserts | example/BDBImpl.cc:263-285 | likewise InsertRecord, with the transaction registered and a change outstanding |
| ProtocolCalls.Changes | example/BDBImpl.cc:292-346 | likewise UpdateRecord and DeleteRecord: all their steps together register the caller's transaction and leave a change of it, and nothing of the nested one |
| ProtocolCalls.Refused | example/Index.cc:587-594 | UpdateRecord and DeleteRecord on a read-only structure can return with nothing changed |
| ProtocolCalls.Resolves | example/BDBImpl.cc:71-118 | CommitTransaction can return with every change of the transaction resolved and the transaction taken off every registered structure |
| ProtocolCalls.Removes | example/BDBImpl.cc:232-255 | DeleteIndex without registered transactions can return with every open handle closed, the index unregistered and the database gone |
| ProtocolCalls.RemoveRefused | example/Index.cc:515-534 | DeleteIndex with a registered transaction can return with nothing changed |
| ProtocolCalls.WholeLife | example/BDBImpl.cc:48-285 | one run from the beginning: behind an insertion its change is outstanding, behind the commit none is, behind DeleteIndex there is no index, no database and no open handle |
| ProtocolHandles.RunHandles | example/Index.cc:119-200 | in every state of every run a structure keeps its open handles and those that some thread is opening or closing, each carried by one thread; only a deleted one can keep others |
| ProtocolHandles.QuietHandlesAreOpen | example/Index.cc:561-583 | when all calls have returned, handles_ of every registered structure is the set of its open handles |
| ProtocolDeletion.DeletionClosesExactly | example/Index.cc:515-583 | in every continuation of a run from a successful MakeReadOnly, all handles of the index are closed once it is unregistered, if and only if no thread is opening the index at that MakeReadOnly |
| ProtocolDeletion.GoneStaysClosedExactly | example/Index.cc:110-144 | once an index is gone, its handles are closed in every continuation if and only if they are closed now and no thread is opening one |
| ProtocolLateHandle.LateHandle | example/Index.cc:119-141 | a concrete run that ends with an open handle of a deleted index |
| Rng.LeftInverse | benchmark/basedriver.h:81-83 | x ^= x << k can be undone, for every positive shift |
| Rng.RightInverse | benchmark/basedriver.h:82 | x ^= x >> k can be undone, for every positive shift |
| Rng.NextBijective | benchmark/basedriver.h:80-87 | one step is a bijection on triples of words |
| Rng.NeverZero | benchmark/basedriver.h:80-87 | a run is in the all-zero state exactly if it started there |
| Rng.SeedsNeverZero | benchmark/basedriver.h:75-77 | from the driver's seeds no run reaches the all-zero state |
| Rng.NextBits | benchmark/basedriver.h:80-87 | every bit of the new state in terms of the bits of the old one |
| Rng.FirstOutput | benchmark/basedriver.h:80-87 | from the words 1, 0, 0 the next output is 0x31803 |
| Rng.SeedNumbers | benchmark/basedriver.h:75-77 | the second and third word start as the driver's numbers |
| Rng.Generator.Step | benchmark/basedriver.h:80-87 | BDR_RNG_NEXT is one step |
| Rng.Generator.StepPair | benchmark/basedriver.h:90-105 | BDR_RNG_NEXTPAIR is two steps, and keeps the output of the first |
| Keystore.ThreadInfo.CopyAttributes | benchmark/basedriver.c:73-76 | the loop writes the key's attributes into consecutive cells and no other |
| Keystore.ThreadInfo.KeystoreInsert | benchmark/basedriver.c:70-78 | stores the key in the next slot, writes no other cell, and keeps the recent keys in their slots |
| Keystore.ThreadInfo.RecentKeys | benchmark/basedriver.c:70-78 | after n insertions the cells of slot (n-1-j) mod 2097152 hold the attributes of the key inserted j calls ago, for every j below n and 2097152 |
| Keystore.RecentAfterInsert | benchmark/basedriver.c:70-78 | writing one slot keeps every key that the ring still has room for |
| ArgumentParsers.SegmentsAgree | common/argument_parser.cc:121-148 | if one list of tokens begins another, its segmentation begins that of the other |
| ArgumentParsers.OnlySegmentation | common/argument_parser.cc:121-148 | tokens can be segmented in one way only, even when a value spells an option |
| ArgumentParsers.StuckMeansNone | common/argument_parser.cc:131-148 | the parser gives up only on tokens that nothing segments |
| ArgumentParsers.AfterMeans | common/argument_parser.cc:372-376 | an option holds its old values and then those of all its occurrences, under any name, in order |
| ArgumentParsers.ArgumentParser.AddArgument | common/argument_parser.cc:92-106 | every given name refers to the same new option; all other names are as before |
| ArgumentParsers.ArgumentParser.TakeOption | common/argument_parser.cc:132-143 | sets the option and appends as many tokens as it asks for, or all that are left; no other option changes |
| ArgumentParsers.ArgumentParser.ParseTokens | common/argument_parser.cc:130-148 | recognises the segmentation, or stops at an unknown name or a missing value, and leaves what it read in the options |
| ArgumentParsers.ArgumentParser.ParseArgs | common/argument_parser.cc:121-157 | accepts exactly if the arguments behind the program's name are segmentable and do not ask for help; every option then holds what the only segmentation says |

## Left out

- Berkeley DB itself: page locks, isolation between transactions, logging, deadlock detection, rollback and exceptions. The store is a contract, and exception paths, some of which skip unregistering, are not modelled.
- Index.IndexHandle.Update: which call to the store fails is not determined, so after a failure the changed records are given as some first part of the range.
- Index.IndexHandle.Delete: as for Update.
- Index.IndexStructure.CloseHandles: the set iterator that the source advances after the handle erased itself is modelled as a worklist.
- Iterators.IndexIterator.Next: must not be called after the end, because the cursor is gone; this is a precondition.
- Iterators.IndexIterator.Skip: the store does not change during one call, because Berkeley DB isolates it.
- Index.IndexHandle.Insert: an auto-committed insertion, without a transaction, is not stopped by a read-only structure; the model follows this.
- Contest.Engine.DeleteIndex: calls run one after the other here, so every former handle is closed; the interleavings are in `ProtocolDeletion`. A failing dbremove is not modelled.
- Contest.Engine.EndTransaction: commit and abort are one method here, because what they do to the records is Berkeley DB's part: a commit leaves them as they are, and the rollback of an abort is not modelled.
- ProtocolLateHandle.LateHandle: the deleted structure is a tombstone here, and freed memory in the source.
- Contest.Engine.OpenIndex: the handle that the source leaves behind after kErrorUnknownIndex is returned but not tracked.
- ProtocolSafety.NoDeadlock: covers the repository's mutexes, not the page locks of Berkeley DB.
- Protocol: transaction and structure identifiers are never reused, and no two calls use one transaction at the same time; memory reclamation is not modelled.
- Order: strcmp is modelled up to the sign of its result, on unsigned characters and terminated strings; NULL attributes in keycmp, which the source asserts away, are excluded, which Update and Delete with kIgnorePayload demand of their caller.
- Index.IndexStructure.GetBDBKey: the maximum wildcards are modelled, but no caller uses them, because Index::GetBDBKey drops its second argument.
- Operations.InsertRecord: bytes that are read as a string must contain its end, as strcmp demands; beyond that keys of any types are covered. So with the other operations.
- Codec: little-endian integers, as on the platforms that the makefile is for.
- Rng: unsigned long has 64 bits; the first seed is any word, since it comes from rand().
- Keystore: attributes are integers without a width; the thread data besides the ring is not part of the model.
- ArgumentParsers: the map of alternative names, whose key refers to a removed list element, help texts, metavars and value conversions only serve the help output and are left out.
- `op_count_`, which is never incremented, `iterators_`, whose callers are commented out, ConnectionManager, CloseIterator, out-of-memory results, the stub in `BasicImpl.cc`, the benchmark's timing, threads and `getRandomValue`, and the unit-test framework.
