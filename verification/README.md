# Verified model of trixorm

trixorm keeps MySQL rows, a Redis cache, an in-process cache and Redis streams in agreement. This project states
what that agreement is and proves it for a Dafny model of the code that is responsible for it. `dafny verify
dfyconfig.toml` checks everything.

Code that works step by step is modelled step by step: classes with the fields the original updates, methods with its
loops, each proved against a function or predicate that says what the outcome is; properties of whole runs are lemmas
about those functions and about state machines whose steps interleave freely.

- **Streams** (`StreamIds`, `StreamProtocol`, `StreamSafety`, `StreamBacklog`): a state machine of publishers, consumers
  with their backlog, acknowledgements, claims, panics and garbage collectors, every command a step of its own. In every
  run an entry is deleted only after every registered group has handled it. `StreamConsumer` and `StreamCollector` are the
  consumer's and the collector's own loops, whose effects are shown to be runs of those steps; `StreamGc` has the
  collector's arithmetic and its script, `StreamClaim` the paging of claims.
- **Records** (`SerializerBuffer`, `RecordSchema`, `RecordCodec`, `RecordFields`, `RecordTraversal`): one sequence of
  columns describes a tree of fields, and the column list, the scan pointers, the record made from a row, the record made
  from an entity, the decoding and the comparison are each proved to follow it. Decoding an encoding gives the normal form.
- **Differences** (`DirtyValues`, `DirtyDiff`): the comparison of old bytes with new values over a shared cursor.
- **Caches** (`CacheCoherence`, `RowWrites`, `RowLoads`, `CacheEngine`, `LocalCaches`): read-through loads with marked
  absences, batch loads, flushes in and out of transactions, what a flush caches against what MySQL holds then and a load
  makes of it, and what a bounded cache may forget. `WarmUp` and `WarmUpPaths` load references.
- **Cached queries** (`QueryKeys`, `RowKeys`, `CachedSearch`): which lists a change invalidates, whether the comparison of
  an entity with its record tells their keys right, and the pages of a search.
- **Lazy flush** (`LazyFlush`, `LazyDigest`), **indexer** (`Indexer`), **Redis flusher** (`RedisFlusher`) and
  **reference flush** (`ReferenceFlush`).

MySQL is a map from ids to rows, Redis a map plus streams with groups and pending lists, and a cache a map that may forget
entries at any time. Cache keys are taken to be injective. Floats are their 64 bits, compared and rounded as the decimal
numbers they stand for. JSON, the clock and the hash of a cache key are parameters. What the code demands of its
surroundings is in preconditions: `Env.Valid` for rounding and JSON (`EnvExists` and `MilliEnv` give some that have it),
`Zones` and `Storable` for what MySQL can hold, `Fits` for values and `AllDecodable` for whole records.

Where the code does not meet the property one would expect, the project says exactly when it does, and gives an input for
which it does not:

- `current` differs from the old column in four cases (`CurrentExact`); duplicates in a set hide a change (`SetSeesExact`,
  `DuplicateMissed`); an entity with a time before the epoch is dirty right after it was written (`WrittenClean`), one with
  a date that is no midnight right after it was read (`LoadedClean`).
- A flush caches what the entity's record says, which is not always what MySQL makes of the statement (`UpdateCached`,
  `InsertCached`): an unsaved difference inside a float's tolerance (`SkippedFloat`), a float that was not rounded yet, an
  enum's default (`DefaultedEnum`), times before 1970 or of another zone, sets in another order.
- A nullable number from 2^63 on can be saved but not loaded again (`BigNumber`).
- The keys of cached lists are right only for queries whose conjuncts differ, are not the ID and extend no field ordered by
  (`UsableExact`), and only if the comparison tells the columns right (`OldKeyExact`, `NewKeyExact`): not for a set that
  changes its size (`ResizedSet`), for a float that its column rounds (`RoundedPrice`), nor for a required list of
  references that is emptied (`HeldExact`).
- A second flusher that was used before and joins a transaction replaces the queue of deletes that the commit serves
  (`JoinExact`, `SharedQueueNeeded`); updating an entity that was loaded earlier can cache columns that someone else has
  changed since (`StaleUpdate`).
- Cached searches by engines with a local cache are always answered right (`RunAnswers`), unless one without has put a page
  of a thousand ids into Redis, which is then taken for the whole list (`LocalExact`, `RequestCacheFails`,
  `RequestCacheShort`); without a local cache a search fills a missing page wrong unless that is the first or past
  the end (`FillMissing`, `SecondPageFails`), and a start past the end can slice out of range (`PagedAnswer`, `PastTheEnd`).
- New references in a pool of their own can make a flush begin a transaction twice (`Flush`, `TwoPoolsPanic`).
- A flush serves a key's set after its delete, whatever their order (`SetThenDelete`).
- A path of references is not followed to its end below an object that another path reached first (`ShorterPathFirst`).
- A lazy insert without an id inserts again when it is replayed (`InsertReplay`).

## Model

| member | source | states |
|---|---|---|
| StreamSafety.InvStays | event_broker.go:281-348 | every step of the protocol (publish, group creation, reads, acknowledgements, claims, crashes, each read and delete of a collector) keeps the shape of streams and pending lists, that whatever left a pending list was handled, that whatever was deleted is settled for every registered group, and what sessions and collectors rely on |
| StreamSafety.DeletedOnlyWhenHandled | background_consumer.go:524-597 | in every run, whatever the interleaving, an entry that is gone from its stream has been delivered to every registered group, is pending in none of them, and was received by a handler of each that returned or acknowledged it |
| StreamSafety.LeavesPending | event_broker.go:326-346 | an entry leaves a group's pending list only if a handler call that received it returned or acknowledged it itself |
| StreamSafety.Deletes | background_consumer.go:587-597 | the only steps that delete are a handler deleting an acknowledged event of a stream its group has to itself and a collector's script, and both delete only what is settled for every registered group |
| StreamSafety.NewSlot | event_broker.go:287-297 | a read of new entries makes pending exactly the live entries between the group's old and new position, and moves it only forward, to a live entry |
| StreamSafety.DecideOk | background_consumer.go:558-581 | from limits read at different times a collector decides on a range in which everything is settled for every registered group |
| StreamBacklog.BacklogBeforeNew | event_broker.go:233-317 | in every run, once a session has been handed a new entry, everything that was pending for its name when it began has been handed to its handler, unless another session took it away; backlog and new entries of each stream come in id order |
| StreamBacklog.LostBy | event_broker.go:350-372 | an entry is taken from a session's backlog only by another session's acknowledgement, after which it is pending for nobody, or by a claim, after which it is pending for the claimant |
| StreamBacklog.StopKeepsPending | event_broker.go:326-346 | after a handler's panic the entries pending for the name are still pending when a session of that name starts again, and wait in its backlog |
| StreamConsumer.LeadsInv | event_broker.go:281-348 | whatever steps the methods of a consumer or collector take, they keep the invariant of the protocol |
| StreamConsumer.EventsDistinct | event_broker.go:318-325 | one reply never hands an entry over twice |
| StreamConsumer.AdvanceRowsAre | event_broker.go:298-307 | going through the rows of a backlog reply one by one leaves in LastIDs the last id of each stream that returned something |
| StreamConsumer.ReadIsStep | event_broker.go:295-317 | the read and what the consumer notes about its reply are together one step of the protocol |
| StreamConsumer.EventsConsumer.Receive | event_broker.go:281-325 | after one read LastIDs, the pending flag and the events are those of the reply, in the order of the streams, and there are no events exactly when no stream returned anything |
| StreamConsumer.EventsConsumer.RunHandler | event_broker.go:37-40 | the events a handler acknowledges, in any order and also twice, are exactly those no longer pending |
| StreamConsumer.EventsConsumer.ToAck | event_broker.go:327-340 | the ids gathered per stream are exactly those of the events that the handler did not acknowledge |
| StreamConsumer.EventsConsumer.DigestKeys | event_broker.go:281-348 | one round is a run of protocol steps; afterwards every event of the reply has been handled and is not pending, or the handler panicked and only what it had acknowledged is not; it reports the end exactly when a read of new entries returned nothing |
| StreamConsumer.EventsConsumer.Consume | event_broker.go:215-279 | with the loop disabled and nobody else at work it terminates; then nothing is pending for the name, nothing is left to deliver and all of it was handled; when the handler panics all it had not acknowledged is still pending for the name |
| StreamConsumer.Finishes | event_broker.go:308-316 | once a read of new entries returns nothing, nothing is due for the name any more and everything that was has been handled |
| StreamGc.MinID | background_consumer.go:558-567 | over the groups in any order the loop finds their least id, and 0 exactly when some group is at the beginning |
| StreamGc.RangeToDelete | background_consumer.go:558-581 | no range when a group is at the beginning; otherwise up to the least id, or up to its predecessor when anything is pending |
| StreamGc.RangeExact | background_consumer.go:571-581 | the range holds an id exactly when it is below the limit of every registered group |
| StreamGc.RedisStream.Script | background_consumer.go:601-627 | one call of the script deletes the first hundred thousand entries of the range, in batches of a thousand, and says whether that was all of it |
| StreamGc.ScriptEffect | background_consumer.go:601-627 | what a call leaves of the range, and that it touches nothing outside it |
| StreamGc.Drain | background_consumer.go:587-596 | repeating the script terminates while publishers keep appending, removes every entry of the range and nothing else, and takes one call for each hundred thousand entries plus one |
| StreamGc.CollectsAllSettled | background_consumer.go:535-581 | when every group has read something and has nothing pending, the range holds exactly the entries settled for all of them |
| StreamCollector.GarbageCollector.ReadLimits | background_consumer.go:536-557 | the loop over XINFO GROUPS with an XPENDING for each ends with the limit of every registered group and whether any has something pending, as steps of the protocol |
| StreamCollector.CollectableIs | background_consumer.go:558-581 | the range decided on holds exactly the entries below every registered group's limit, and there is none exactly when a group has not got past its first millisecond |
| StreamCollector.GarbageCollector.CollectStream | background_consumer.go:535-597 | the collection of one stream is a run of protocol steps that deletes exactly the collectable entries |
| StreamCollector.GarbageCollector.HandleEvent | background_consumer.go:524-597 | the collection of all streams of a group is a run of protocol steps that deletes exactly the collectable entries of those streams |
| StreamClaim.EventsConsumer.ClaimStream | event_broker.go:351-371 | page by page, for any number of pages, everything pending for one consumer in the stream is handed to the other and no other ownership changes |
| StreamClaim.EventsConsumer.Claim | event_broker.go:350-372 | it terminates, and everything that was pending for `from` in any of its streams is pending for `to`, all else unchanged |
| StreamClaim.PageShrinks | event_broker.go:352-370 | claiming a page leaves fewer entries for the next one, and none when the page was short |
| StreamClaim.IncrementID | event_broker.go:378-382 | the incremented id comes after exactly the ids up to the given one, the counter unbounded |
| SerializerBuffer.ZigzagInverse | serializer.go:62-65 | every int64 survives the zig-zag encoding |
| SerializerBuffer.UnzigzagInverse | serializer.go:108-111 | every uint64 is the zig-zag encoding of the int64 it decodes to |
| SerializerBuffer.TakeUvarint | serializer.go:103-106 | a varint followed by anything is read as its number and leaves exactly what follows |
| SerializerBuffer.TakeLengthed | serializer.go:90-137 | a string or byte list followed by anything is read as itself and leaves exactly what follows |
| SerializerBuffer.UvarintReads | serializer.go:103-106 | the varint of any uint64 ends within ten bytes and fits 64 bits again |
| SerializerBuffer.Serializer.PutUvarint | serializer.go:57-60 | the bytes written to the scratch array are the number's varint, for every uint64 |
| SerializerBuffer.Serializer.DeserializeUInteger | serializer.go:103-106 | the byte loop reads the varint at the start of the buffer and advances past it |
| SerializerBuffer.Serializer.DeserializeBytes | serializer.go:131-137 | a length and that many bytes are taken from the buffer |
| SerializerBuffer.Serializer.ReadByte | serializer.go:139-142 | one byte is taken; at the end of the buffer the byte read last is returned again, without an error |
| RecordSchema.BuildColumnNames | table_schema.go:1401-1450 | column k is the k-th field of the tree, its name prefixed by the structs it is nested in, read with TO_SECONDS exactly when it holds a time |
| RecordSchema.ColumnNames | table_schema.go:1401-1452 | the columns are exactly the fields of the tree; each is named after the structs on the way to its field, in order, but for the anonymous ones, and then after the field itself |
| RecordSchema.PrepareScanForFields | search.go:14-126 | pointer k has the type that the k-th column is scanned into, and no other pointer is touched |
| RecordSchema.PathsDistinct | table_schema.go:1401-1450 | in a well-formed tree no two columns are the same field |
| RecordCodec.Index | table_schema.go:60-71 | the number of an enum member is one more than its last position, and 0 exactly for what is not registered |
| RecordCodec.Calendar | orm.go:19-20 | the two offsets are the seconds to the starts of the years 1 and 1970 in the Gregorian calendar, and the zero time is the former |
| RecordCodec.WireRoundTrip | orm.go:327-743 | for every kind of field and every valid value, what is read back from what is written is the value's normal form: rounded floats, empty lists as nil, dates at midnight |
| RecordCodec.WiresUnique | orm.go:519-743 | bytes that start with the encoding of a record start with that of no other record of the shape, and what follows it is determined |
| RecordFields.SerializeField | orm.go:327-507 | each kind's branch appends exactly the encoding of the field's wire value |
| RecordFields.DeserializeField | orm.go:519-743 | each kind's branch reads exactly one column's bytes and makes the value they stand for |
| RecordFields.SerializeCell | orm.go:162-325 | each kind's branch appends the encoding of a scanned column, NULL included |
| RecordTraversal.SerializeStructs | orm.go:327-507 | a struct and everything nested in it append the values of the columns, in the order of the column list |
| RecordTraversal.Serialize | orm.go:152-155 | the record is the structure's hash followed by the columns in order, and the buffer is empty again |
| RecordTraversal.DeserializeStructFromDB | orm.go:162-325 | the k-th value appended is made from the k-th scanned column, and the index advances by the number of columns |
| RecordTraversal.DeserializeFields | orm.go:519-743 | the k-th value read goes to the field of the k-th column, nested structs included, and exactly the record's bytes are consumed |
| RecordTraversal.Deserialize | orm.go:509-517 | a record of another structure is refused unless the check is off; otherwise every column is read and what follows the record is left |
| RecordTraversal.RecordRoundTrip | orm.go:327-743 | reading what was written, into any entity and with anything after it, gives every column its normal form and leaves every other field alone |
| RecordTraversal.ScannedFits | search.go:14-126 | a row scanned through the prepared pointers fits the traversal that turns it into a record |
| RecordTraversal.RowDecodable | orm.go:162-325 | the record made from a scanned column can be decoded exactly when the column is no set with an unregistered member |
| RecordTraversal.FillFromDBRow | search.go:250-257 | the row becomes the entity's record, which is read back into its fields; the ID is set, and the entity counts as loaded |
| DirtyValues.SameTolerated | bind_builder.go:78-909 | a column that counts as unchanged differs from what the new value would be saved as in nothing but what is tolerated: floats closer than the precision, the order of a set, a time without a value, the spelling of a JSON value |
| DirtyValues.SameExact | bind_builder.go:78-909 | in a record the program wrote a column counts as unchanged exactly when that is so; a date exactly when its day is the same, or has no value yet and the new one is zero |
| DirtyValues.NullExact | bind_builder.go:78-909 | NULL is saved exactly for what is not there or empty, and never for what is required |
| DirtyValues.ComparesValues | bind_builder.go:78-909 | the bytes of a record the program wrote count as unchanged exactly when the value they stand for is the new one: in its normal form, for floats up to a difference of less than one in the last decimal place, for times up to which zero time it is, for sets up to the order, for JSON up to null |
| DirtyValues.WrittenCanonical | orm.go:327-507 | what the program writes is such a record, unless it is a nullable date before the epoch |
| DirtyValues.CurrentExact | bind_builder.go:78-909 | `current` is the old column exactly when it is no zero time, no changed bytes, no set of another size and no cleared list of references |
| DirtyValues.SetSeesExact | bind_builder.go:550-564 | a set that counts as unchanged has the members it had exactly when the new list has no duplicates |
| DirtyValues.DuplicateMissed | bind_builder.go:550-564 | a set for which it has not: from a,b to a,a |
| DirtyValues.WrittenClean | orm.go:152-155 | right after it is written a field counts as unchanged exactly when its time is not before the epoch |
| DirtyValues.LoadedClean | search.go:250-257 | right after it is read a field counts as unchanged exactly when its date is a midnight of the zone |
| DirtyDiff.SetCompare | bind_builder.go:550-564 | the loops find every new member among the old numbers, or say that one is missing |
| DirtyDiff.BindBuilder.Build | bind_builder.go:49-76 | for every field tree the comparison consumes exactly the old record's bytes, names column k at index k, and records in bind and current what each column calls for; it fails exactly when an enum value makes it panic |
| DirtyDiff.BuildDirtyBind | orm.go:136-150 | fake deletion is marked first, the whole record is compared, and the entity is dirty exactly when it is new, to be deleted, or some column differs |
| DirtyDiff.BindAt | bind_builder.go:49-76 | a column is in bind exactly when it changed, with the value that is saved |
| DirtyDiff.InBindExact | bind_builder.go:49-909 | a column of a loaded entity is in bind exactly when it is not the root struct's second field, the ID, and its value is another than its record gives |
| DirtyDiff.FloatInBind | bind_builder.go:178-207 | a float is in bind exactly when it has moved by one or more in the last decimal place of its precision, or between a number and NULL |
| DirtyDiff.ClearExact | bind_builder.go:437-483 | the comparison panics exactly when some enum that is to be saved holds a text that is no member, or is required and to be emptied in a row that is there |
| DirtyDiff.CurrentAt | bind_builder.go:78-909 | current has a column exactly when the comparison records it, with the content it records |
| DirtyDiff.BindEmpty | bind_builder.go:49-76 | bind is empty exactly when every column but the ID counts as unchanged |
| DirtyDiff.OldPlusBindIsNew | bind_builder.go:49-909 | the old record overwritten by bind is the new row, up to the tolerance |
| DirtyDiff.CleanOnceWritten | orm.go:152-155 | right after serialize bind is empty exactly when no time is before the epoch |
| DirtyDiff.CleanOnceRead | search.go:250-257 | right after a row or record is read bind is empty exactly when its dates are midnights |
| CacheCoherence.FlushExact | flusher.go:807-836 | a flush outside a transaction leaves the caches coherent exactly when the record each entity has then is the row that its statement makes |
| CacheCoherence.JoinExact | flusher.go:319-346 | a commit right after a flush in a transaction leaves Redis right exactly when the rows that the transaction had changed before and Redis holds are among that flusher's deletes |
| CacheCoherence.FreshJoins | flusher.go:790-798 | a flusher without a queue takes the transaction's, and so always meets the second condition |
| CacheCoherence.StepKeeps | flusher.go:319-370 | under these two conditions loads, batch loads, inserts, updates, deletes, clears, begin, commit, rollback and forgotten entries all keep both caches equal to the committed rows, absences included |
| CacheCoherence.RunCoherent | load_by_id.go:10-84 | in every run whose flushes meet them every cache entry is the committed row or marks its absence, and every load returns the committed row |
| CacheCoherence.LoadFills | load_by_id.go:10-84 | a load leaves what it returns in every cache that it went past, and changes nothing else |
| CacheCoherence.ManyFills | load_by_ids.go:10-162 | a batch leaves every row it finds in the caches that it went past, writes no absence down, and changes nothing else |
| CacheCoherence.RollbackLeavesNothing | db.go:316-328 | from begin to rollback no committed row changes, and afterwards the caches are coherent and nothing is queued |
| CacheCoherence.Failed | flusher.go:126-172 | a flush that panics leaves the keys it had queued in its flusher's queue, and rows and caches as they were |
| CacheCoherence.PartsInOrder | flusher.go:309-317 | inserts run before updates and these before deletes, and the caches get the records of updates before those of inserts and the removals |
| CacheCoherence.StaleUpdate | flusher.go:807-836 | updating an entity that was loaded earlier leaves its cached record right exactly when every column that is not written is still what it was, provided the update of an entity as it is in the database would |
| CacheCoherence.UnkeptRun | flusher.go:807-836 | any change whose record is not its row, flushed on its own, leaves the local cache wrong |
| CacheCoherence.SharedQueueNeeded | flusher.go:790-798 | a run of two flushers, each used before and every flush changing a row, that join one transaction, after which Redis holds an old row |
| RowWrites.StoredExact | orm.go:327-507 | for every kind of field and every value MySQL can hold, a load of the saved row gives what the entity's record says exactly when: floats are rounded alike by column and precision, times are after 1970 in the machine's zone, or none, sets are in the order of their definition, no enum that is required is empty in a new row, and nothing is fake-deleted that has no id |
| RowWrites.InOrderWhen | bind_builder.go:520-587 | a set is as MySQL lists it exactly when its members' places in the definition ascend |
| RowWrites.UnchangedExact | bind_builder.go:178-260 | a value that counts as unchanged is, in the new record, what was read exactly when: floats round to the old one, times are none or after 1970, sets have the old order, and a JSON value that was there is not nil |
| RowWrites.UpdateKept | flusher.go:602-642 | the record an update leaves is the row it makes exactly when each column meets the one or the other |
| RowWrites.InsertKept | flusher.go:456-529 | the record an insert leaves is its row exactly when each column meets the first, so with no required enum empty; the comparison may see another id than the row gets, as with an id that MySQL assigns |
| RowWrites.UpdateCached | flusher.go:807-836 | saving an entity that is as it is in the database caches its new row exactly then |
| RowWrites.InsertCached | flusher.go:758-788 | the same for a new entity |
| RowWrites.EntityRunCoherent | load_by_id.go:10-84 | in every run that saves and deletes entities only, each of whose columns meets the one or the other, and whose joining flushers cover what their transaction has changed, every cache entry is the committed row or its absence, and every load returns the committed row |
| RowWrites.SkippedFloat | bind_builder.go:178-207 | with a precision of 2 a price that goes from 1.00 to 1.009 beside another change is not saved, but cached as 1.01: a run after which the local cache is wrong |
| RowWrites.DefaultedEnum | bind_builder.go:457-470 | any insert with an empty enum that is required leaves the local cache wrong |
| RowLoads.RowReadsBack | orm.go:162-320 | for every kind, what MySQL returns for a column that was saved is written into the record as the content that a load was said to read back |
| RowLoads.Scannable | search.go:21-110 | scanning what was saved panics only for a number from 2^63 on that is scanned into a signed one, and for a text that does not fit in memory |
| RowLoads.BigNumber | search.go:21-110 | a nullable number from 2^63 on can be saved, and its row then not be loaded |
| RowLoads.LoadSaved | search.go:250-257 | loading a row that was saved from an entity fills every field but the ID with the normal form of what was saved, exactly when it is kept as it was written |
| CacheEngine.Engine.LoadByID | load_by_id.go:10-84 | the row comes from the local cache, Redis or MySQL in this order, and the caches before it are given the row or its absence |
| CacheEngine.Engine.ClearByIDs | clear_by_ids.go:3-21 | the entries of the ids, and no others, are removed from the caches there are |
| CacheEngine.Engine.BeginTransaction | db.go:284-292 | a transaction starts from the committed rows |
| CacheEngine.Engine.CommitTransaction | db.go:294-314 | the rows are committed, then the queued local writes and Redis deletes are served and dropped |
| CacheEngine.Engine.RollbackTransaction | db.go:316-328 | the rows and everything queued are dropped |
| CacheEngine.Engine.FlushTracked | flusher.go:319-370 | the inserts run first, then the updates, then the deletes, while the caches get the records of the updates before those of the inserts and the removals, served or queued; the flusher takes a queue once it has something to delete or is in a transaction |
| CacheEngine.Group | load_by_ids.go:37-57 | every id is asked for once, at its first place, and all places of an id that occurs again are kept |
| CacheEngine.Engine.TryByIDs | load_by_ids.go:10-162 | for any ids with duplicates and missing ones place i gets the row of id i or nil, missing is reported exactly when some id has no row, MySQL is asked once for exactly the ids in neither cache, and the caches get what they lacked |
| CacheEngine.AnswersCommitted | load_by_ids.go:10-162 | with coherent caches those places are the committed rows |
| LocalCaches.AddedExact | local_cache.go:104-114 | writing an entry keeps a shard's keys distinct and its size bounded, and changes no other entry but the least recently used one of a full shard |
| LocalCaches.UsedSame | local_cache.go:77-88 | reading changes only the order of use |
| LocalCaches.LastLeastUsed | local_cache.go:104-114 | the entry that a full shard drops has not been read or written for longer than any other of it |
| LocalCaches.LocalCache.Get | local_cache.go:77-88 | the value of the key's shard, and every key still has its value |
| LocalCaches.LocalCache.MGet | local_cache.go:90-102 | the value of every key, in order |
| LocalCaches.LocalCache.Set | local_cache.go:104-114 | the key has the value; at most one other key is lost, from a full shard, and every other one there was read or written after it |
| LocalCaches.LocalCache.MSet | local_cache.go:116-121 | what is there afterwards is what was written last or what was there before |
| LocalCaches.LocalCache.Remove | local_cache.go:123-135 | exactly these keys are gone |
| QueryKeys.KeyFieldsExact | table_schema.go:401-458 | the values in a key are those of the conjuncts in order exactly when these are distinct and no field of the ORDER BY alone is a prefix of one |
| QueryKeys.GetCacheQueriesKeys | flusher.go:935-963 | the loops build, for each index that the change touches, the key of its old or new values |
| QueryKeys.TouchedExact | flusher.go:935-963 | a change makes out a key for an index exactly when the row comes or goes, or one of the fields its query asks for or orders by is written, the ID apart |
| QueryKeys.FoundExact | search.go:203-230 | a list has exactly the rows that are not fake-deleted and whose columns equal the arguments, none of which is NULL |
| QueryKeys.FoundChanges | search.go:203-230 | a change of one row alters a list of ids exactly when the row joins it, leaves it or moves on it; NULL is on no list |
| QueryKeys.CoveredExact | flusher.go:935-963 | for a usable query, an insert, update, fake delete or delete removes every list it alters exactly when the lists the row leaves, joins or moves on are among the one or two made out from bind and current |
| QueryKeys.ChangedListsRemoved | flusher.go:758-836 | in that case the keys removed over all indexes include every index and arguments whose list of ids has changed |
| QueryKeys.UsableExact | table_schema.go:401-458 | every change that bind and current tell exactly removes every list it alters, exactly when the query is usable: conjuncts that differ, none the ID, and none an extension of a field ordered by |
| QueryKeys.ExactChanges | bind_builder.go:49-76 | any insert, update and delete can be told exactly, an update by the columns that differ |
| QueryKeys.MissedRun | flusher.go:935-963 | any change that does not remove every list it alters leaves one of them out of date, if it was searched for before |
| QueryKeys.RunKeepsLists | flusher.go:935-963 | in every run of searches and changes whose keys are right each cached list is what running its query again would give |
| RowKeys.HeldExact | bind_builder.go:178-260 | MySQL holds what bind has exactly when floats are not rounded by the column, times and dates keep in its zone, sets are in the order of their definition, and no required list of references is empty |
| RowKeys.OldKeyExact | flusher.go:935-963 | the key of the list an entity was on has the right arguments exactly when no column the query asks for is a zero time, changed bytes, a set of another size, a cleared list of references or a required one that was empty |
| RowKeys.NewKeyExact | flusher.go:935-963 | the key of the list it is on has them exactly when each such column is saved and held as it was saved, or unchanged and none of these |
| RowKeys.InsertedCovered | flusher.go:758-788 | saving a new entity removes every list it joins exactly when it joins none or its columns are held as they were saved |
| RowKeys.UpdatedCovered | flusher.go:807-828 | saving a loaded entity removes every list it leaves, joins or moves on exactly when the columns of the list it was on are recorded as MySQL held them and those of the list it is on are told right, as far as these lists are altered, or those of one are told as the other's |
| RowKeys.CrossKeys | flusher.go:935-963 | the key of one of the two lists is that of the other exactly when each column the query asks for is told as the other's |
| RowKeys.DeletedCovered | flusher.go:430-436 | deleting an entity removes every list it was on exactly when it was on none or the old key is right |
| RowKeys.ResizedSet | bind_builder.go:520-569 | an entity with one tag gets a second one: a run after which the list of the first tag alone is out of date |
| RowKeys.RoundedPrice | bind_builder.go:192-207 | a price of 1.019 in a column of two decimals: a run after which the list of 1.02 lacks the entity |
| CachedSearch.GetTotalRows | search.go:232-248 | the shortcut for a page that is not full is the real number of rows |
| CachedSearch.SearchIDsWithCount | search.go:203-230 | the ids of the page and the number of all rows |
| CachedSearch.ScanPages | cached_search.go:93-123 | in whatever order the pages come, the loop finds what they hold, which are missing, the lowest and highest of them, and the number of rows |
| CachedSearch.MissingPage | cached_search.go:133-148 | the slice that cuts a missing page out of the search result is in bounds and is that page |
| CachedSearch.FillMissing | cached_search.go:124-157 | one search fills every missing page right exactly when the lowest one is the first of the list or past its end; otherwise it panics or gives Redis a wrong lowest page |
| CachedSearch.QueryCache.LocalPage | cached_search.go:60-171 | with a local or request cache the list is taken to be the first page as that cache or Redis has it, of a thousand ids or all, and otherwise searched for; afterwards that engine holds what it took, Redis the whole list if neither had anything, and nothing else has changed |
| CachedSearch.QueryCache.RedisPages | cached_search.go:60-171 | without one the pages of the window are read from Redis or searched for, and Redis is completed, under that condition on the lowest missing page; else it panics or Redis is left with a wrong page |
| CachedSearch.QueryCache.SearchIDs | cached_search.go:27-188 | over pages that engines of both kinds have put into Redis, one with a local cache gets what the ids held give, and the number of rows and exactly the ids of the window if what is cached is the whole list, which it then stays; one without gets the number of rows and exactly the ids of the window if the lowest missing page is the first or past the end, unless the start is past the end and its place within its page is not, which panics; what is cached then stays right, otherwise it panics or Redis is left with a wrong page |
| CachedSearch.LocalExact | cached_search.go:173-188 | with a local cache the window is right exactly when it starts past the end, lies within the ids that are held, or these are all |
| CachedSearch.AfterLocalExact | cached_search.go:60-171 | after its search an engine with a local cache holds what it took for the list and will take the same again, Redis has a first page, the whole list if neither had anything, and nothing else has changed |
| CachedSearch.PagesExact | cached_search.go:48-59 | the pages asked for are exactly those that the window overlaps |
| CachedSearch.WholeAnswer | cached_search.go:27-188 | while the local caches and the first page in Redis hold the whole list, a search by an engine with a local cache gives the number of rows and exactly the ids of the window, and leaves them so |
| CachedSearch.RunWhole | cached_search.go:60-171 | in every run of searches by engines with a local cache, from empty caches on and with entries forgotten at any time, they do |
| CachedSearch.RunAnswers | cached_search.go:27-188 | so every search of such a run, hit or miss, within the first 50000 rows gives the number of rows and exactly the ids of its window |
| CachedSearch.HitAfterMiss | cached_search.go:60-91 | rows 1901 to 2000 of 5000 after a search for the first hundred, by the same engine and by another |
| CachedSearch.RequestCacheFails | cached_search.go:60-82 | of 5000 rows another engine has searched the first hundred: with a request cache rows 1901 to 2000 are a slice out of range |
| CachedSearch.RequestCacheShort | cached_search.go:60-82 | and rows 601 to 1200 are the first 400 of them |
| CachedSearch.SecondPageFails | cached_search.go:124-138 | without a local cache rows 1001 to 1100 then panic or leave a wrong page in Redis |
| CachedSearch.PastTheEnd | cached_search.go:173-188 | of five rows the second page of 1001 is a slice out of range |
| CachedSearch.OneCache.SearchOneID | cached_search.go:220-283 | a query for one row gives the first row's id or none, from the local cache or Redis, and from MySQL exactly when both lack it, which fills them |
| WarmUp.LevelCoherent | load_by_ids.go:340-364 | writing back the rows and absences of one level keeps both caches coherent |
| WarmUp.LevelServes | load_by_ids.go:340-364 | after a level every cache has the row, or the mark of its absence, of every key that it was looked for in and lacked, other entries are as they were, and MySQL was asked exactly for the keys whose rows no cache held |
| WarmUp.Engine.FillRefMaps | load_by_ids.go:221-257 | the three maps hold every unloaded referenced object under its key, once for each place, and no other |
| WarmUp.Engine.FromLocal | load_by_ids.go:259-292 | the objects whose rows the local cache holds are filled and their keys leave all three maps |
| WarmUp.Engine.FromDB | load_by_ids.go:313-339 | the query holds each remaining key once and fills the objects whose rows exist |
| WarmUp.Engine.WarmLevel | load_by_ids.go:221-364 | every unloaded referenced object whose row exists is filled and refers to new objects with the keys of its row, each in its place; MySQL is asked for a key only if no cache holds its row, and the caches get what they lacked |
| WarmUpPaths.GroupPaths | load_by_ids.go:182-258 | the paths are split at their first `/`, and each first name collects the objects the rows refer to by it |
| WarmUpPaths.WarmUpReferences | load_by_ids.go:169-376 | the recursion over paths terminates and keeps the caches coherent; whatever is filled holds its row and refers to objects with the row's keys, each in its place; every unloaded object a path names first is filled if its row exists, and following the path from key to key through the rows every object is, unless one hangs under two of the names; nothing but what hangs below the rows is filled, and with paths of one name nothing but what they name |
| WarmUpPaths.ShorterPathFirst | load_by_ids.go:366-375 | following X/Z and then Y/Z/V from an object that hangs under X and Y: what it refers to under Z is filled, nothing below that is, and so the path is followed to its end exactly when there are no rows below |
| LazyFlush.InsertsFirst | background_consumer.go:140-195 | running the inserts first is running the batch in order, when no update or delete precedes an insert of its row |
| LazyFlush.SameRows | background_consumer.go:159-167 | lists of statements that agree row by row have the same effect |
| LazyFlush.BatchIsSequential | background_consumer.go:173-277 | whatever the interleaving of the pools' inserts and of the groups, the database ends as if the batch had run in order |
| LazyFlush.ReplayHarmless | background_consumer.go:217-268 | running any unacknowledged suffix of each row's updates and deletes once more changes nothing |
| LazyFlush.StopHarmless | background_consumer.go:217-268 | a worker that stops anywhere, with any of what it ran acknowledged: running what is delivered again ends as running everything once |
| LazyFlush.StopsHarmless | background_consumer.go:217-268 | the same for any number of stops |
| LazyFlush.InsertReplay | background_consumer.go:189-191 | running an insert once more changes nothing exactly when it names its row's id, in a table whose only unique key is the id |
| LazyDigest.GroupBatch | background_consumer.go:136-172 | the loop gives each pool its inserts in order, and each pool and remainder its other statements and events in order |
| LazyDigest.Consumer.Digest | background_consumer.go:134-277 | inserts pool by pool and then groups, in any order, leave the database as the batch in order would, with every event acknowledged |
| Indexer.AboveExact | table_schema.go:1260-1264 | the rows of a page query are those above the id, in order |
| Indexer.IndexPage | table_schema.go:1265-1287 | one page's documents, the last of their ids and whether the page was full |
| Indexer.PageRest | table_schema.go:1265-1287 | a page is followed by exactly the rows above its last one, a page with rows gets further, and a page that is not full is the last |
| Indexer.Index.HandleEvent | background_consumer.go:473-522 | without crashes it terminates, pushes every row above the checkpoint once in increasing order, removes the checkpoint and never detects a loop; what it does is a run of the steps that may crash, with the checkpoint of every full page saved before the next one is read |
| Indexer.NoRowSkipped | background_consumer.go:498-521 | with crashes at any point and restarts from the saved checkpoint, the index is complete once it is done and the loop detection stays silent |
| Indexer.Resumes | background_consumer.go:498-521 | once the checkpoint of a page is saved, a crash and restart go on after that page as if nothing had happened |
| Indexer.GoesBack | background_consumer.go:498-521 | a crash while a page is read or pushed goes back to the last checkpoint, and what was pushed stays |
| RedisFlusher.Flusher.Delete | redis_flusher.go:24-39 | the queue holds what all calls so far ask for, deletes in order |
| RedisFlusher.Flusher.SetKey | redis_flusher.go:41-57 | the same for keys, the last value of each |
| RedisFlusher.Flusher.PublishEvent | redis_flusher.go:59-82 | the same for events, each stream's in order |
| RedisFlusher.Flusher.HashSet | redis_flusher.go:84-101 | the same for hashes, all values of each in order |
| RedisFlusher.Flusher.Flush | redis_flusher.go:103-209 | every queued command is sent once: deletes, hashes, events and keys for one pool; for several all deletes, hashes and keys before any event; each stream's events in publish order; the queue ends empty |
| RedisFlusher.ExecuteSent | redis_flusher.go:103-209 | executing what was sent to a pool, in whatever order its maps were gone through, sets a key to the last value queued for it, and otherwise deletes it if that was asked for |
| RedisFlusher.SetThenDelete | redis_flusher.go:103-209 | so a flush leaves a key as its calls in order would, exactly when it was not set and then deleted |
| RedisFlusher.StreamsSent | redis_flusher.go:103-209 | a flush leaves every stream with the events, and gives every hash the values, that its calls one by one would, whatever the order of its maps |
| ReferenceFlush.NeedsTransaction | flusher.go:290-307 | the count with its shortcuts exceeds one exactly when the inserts, updates and deletes are more than one statement |
| ReferenceFlush.Flusher.CheckReferences | flusher.go:728-756 | exactly the references without an id join those to flush first |
| ReferenceFlush.Flusher.Prepare | flusher.go:244-285 | every entity waits for its references, or is queued for insertion under its table, or is in the database: then, if it is dirty, it joins its pool's updates, in order, and if it is marked as deleted, its table's deletes; it is in a transaction exactly when told so or one of its entities' pools is |
| ReferenceFlush.RowsExact | flusher.go:602-650 | the rows queued for update are exactly the dirty ones of the pool that are in the database and not deleted, each once |
| ReferenceFlush.RowsOrdered | flusher.go:602-650 | and in the order of the entities |
| ReferenceFlush.Flusher.InsertTable | flusher.go:508-525 | one INSERT gives the rows without an id, in order, the numbers from LastInsertId on in steps of the increment, above all the table has given before |
| ReferenceFlush.Flusher.ExecuteInserts | flusher.go:456-529 | every packed entity is inserted once, table by table in any order; within a table later ones get higher numbers |
| ReferenceFlush.Flusher.StartTransaction | flusher.go:557-570 | it begins the pools of the tracked entities, and panics exactly when one of them is in a transaction |
| ReferenceFlush.Flusher.FlushReady | flusher.go:290-318 | without unsaved references and outside a transaction one is begun exactly when more than one statement will run |
| ReferenceFlush.Flusher.Flush | flusher.go:235-317 | for acyclic references it panics exactly when the references it flushes first are in no pool that is in a transaction and need more than one statement or have unsaved references themselves; otherwise it terminates, inserts every new entity exactly once and after everything it refers to has an id, queues every dirty row for update once, those that missed no reference first, and every deleted one for deletion, and begins each tracked pool's transaction once, exactly when references are missing or there is more than one statement |
| ReferenceFlush.TwoPoolsPanic | flusher.go:572-600 | an entity in one pool that refers to two new ones of two tables in another panics |
| ReferenceFlush.FlushedTwice | flusher.go:572-600 | flushing the references and then the rest is one flush in which nothing is inserted twice or before what it refers to has an id, and each table's numbers increase |

## Left out

- ReferenceFlush.Flusher.Flush: the queued updates and deletes stay queued, exactly those that are to run (their statements are not run), ON DUPLICATE KEY UPDATE, UUID keys, lazy mode and references that form a cycle are not modelled, and only rows that are in the database may be marked for deletion. A reference that has an id counts as saved, as in the code, whether or not its row exists; an INSERT that is refused is not modelled, nor is the rollback after a panic.
- CachedSearch.QueryCache.SearchIDs: what an engine without a local cache answers when it fills a page wrong is not stated, only that it panics or that Redis is left with a wrong page. The index has the default limit of 50000 ids; the pages' entities are loaded by `TryByIDs`, and dropping missing entities from the result and from the total is not modelled.
- WarmUpPaths.WarmUpReferences: an object that is already loaded is not followed, as in the code; below an object that hangs under two of the path names what is filled depends on the order in which the names are taken, which is arbitrary, and only coherence and that whatever is filled holds its row are stated (`ShorterPathFirst` gives the order that fails); the name `*` and invalid names are not modelled.
- CacheCoherence.RunCoherent: one table in one pool, and no cached read between a flush and its commit. A flush of no changes is one whose entities are all clean; one that tracks nothing does nothing and is no step. A flusher that is used again after a panic is not modelled, nor is loading around the cache.
- RowKeys.HeldExact: a set of the empty text alone, which MySQL holds as the empty set, counts as held wrong, although both are the same text in a key.
- RowLoads.LoadSaved: the ID, and columns added by hand, are not compared; the members of a SET have no commas, which MySQL refuses.
- RowWrites.StoredExact: a required JSON value that is nil, whose empty text MySQL refuses, is not modelled as an error; MySQL returns a JSON column as the value that was put in, whatever its text; an entity's times share one zone, the zero time is one of UTC, and its date is not modelled west of Greenwich.
- LazyFlush.ReplayHarmless: a row's inserts are excluded; `InsertReplay` says which of them may be replayed.
- LazyFlush.InsertReplay: unique indexes other than the id's, which refuse the second insert, are not modelled.
- QueryKeys.ChangedListsRemoved: queries are made of `:Field = ?` conjuncts and ORDER BY fields; other conditions are not modelled, nor are collations for which different texts are equal, nor that MySQL finds no JSON column and no list of references equal to a text, which makes such a query's lists empty.
- StreamConsumer.EventsConsumer.Consume: stated for a consumer that nobody disturbs and whose loop is disabled; disturbances are steps of the protocol and covered by `DeletedOnlyWhenHandled` and `BacklogBeforeNew`. The lock, its refresh, the block time and the events a consumer publishes for the collector are not modelled, nor are handlers that delete events, which are steps of the protocol.
- StreamCollector.GarbageCollector.HandleEvent: the collector's own event and the flag that admits one collector per half minute are not modelled; several collectors may work on one stream at a time.
- StreamClaim.IncrementID: the counter is unbounded; the code's machine integer overflows after the counter 2^63 - 1.
- LazyDigest.Consumer.Digest: every event holds one statement of one kind; the dirty, log and cache events that follow a statement, and a panic of an insert, which the code's deferred recovery does not catch, are not modelled.
- RecordTraversal.FillFromDBRow: columns of a struct without columns, floats of 32 bits, integers narrower than 64 bits behind pointers, and time zones whose offset changes are not modelled.
- Handlers that delete an event of a stream with several groups: the model lets a handler delete only where its group is the only one, as the code does it.
- Decimal rounding of floats is assumed to be exact and idempotent; overflow to infinity is not modelled.
- A Redis key that holds both a hash and a string, for which the server refuses one of the commands.
- SQL text, `sqlBind`, escaping, `ALTER` generation, RediSearch queries and index definitions: strings for other programs.
- Lazy flushes' own cache writes: the local cache is updated before MySQL, so coherence does not hold in between.
- The statistics, loggers, lockers, pools, registry, pager, `SetField` and the log consumer.
- Expiry of cached absences in Redis is an entry that is forgotten.
