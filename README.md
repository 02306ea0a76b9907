# srv-leaf snowflake core in Dafny

This project models the core of the srv-leaf id service and proves properties of the model. The core has three parts.

- **The snowflake engine.** `SnowflakeIdGenerator.id(size)` and `build(curTmp, size)` form a state machine over (worker id, sequence, lastTimestamp) that reads the clock:
  - it has a clock-rollback policy: it fails on a rollback of more than 3 ms and waits once on a smaller one;
  - the 12-bit sequence wraps, and a wrap forces a wait for a later millisecond (`AbsGenerator.tillNextMillis`);
  - every id is packed as `(t - start) << 22 | worker << 12 | sequence`.
- **Worker-id resolution.** `Zookeeper.init` reads the children of the persistence node, `ip:port-suffix`, into two maps. It then takes one of three branches: a missing root, a known address (with its stale-timestamp check), or a new address. It writes the local cache file `workerId=<n>` and falls back to reading that file when anything in the registration throws. `syncTimestamp` is the heartbeat body, with its guard on `lastUpdateTime`.
- **The result value.** `Result` has two factories: a success carrying ids, and a clock-rollback diagnostic.

## How the model is built

- The clock is a `Clock` object holding the readings `System.currentTimeMillis()` will return. Every `currentTmp()` consumes the first reading. The wait of `LockSupport.parkNanos` is the step to the next reading.
- The coordination service is a `Store` value: reachability, whether the root exists, the children in listing order, node data by path, and the counter for sequential names. A failed call is `Thrown`.
  - The client calls init and the heartbeat make are functions on it, and their contracts describe the service as this model assumes it behaves. The calls are `Coordination.CheckExists`, `GetChildren`, `GetData`, `Create` (it throws on an existing path and appends the child) and `SetData` (it throws on a missing node).
  - Beyond these, `Coordination.ValidStore` is the invariant the calls keep.
- The file system is a `Disk` value: the cache file's text, whether its directory exists or can be made, and whether it opens for writing.
- Pure functions state what one call computes:
  - `Emit`, `Batch` and `Generate` for the engine;
  - `RegisterSpec`, `InitSpec` and `Sync` for the resolution;
  - `Admit` for the generator's constructor.
- The classes carry the state the Java code mutates. `Snowflake.SnowflakeIdGenerator` has `sequence` and `lastTimestamp`. `Zookeeper.Zookeeper` has `addressNode`, `workerId`, `lastUpdateTime`, the store and the disk. Their methods, including the `for` loop of `build`, the `while` loop of `tillNextMillis` and the loop over the children, are proved equal to those functions. The properties are lemmas about the functions.
- Two places in the source do not do what they evidently intend (see "## Findings"). Both are modelled twice:
  - the engine takes a `WaitPolicy`: `PastStored` is the code as written, `PastWorking` the corrected wait;
  - the resolution takes a `Variant`: `AsWritten`, or `Corrected`, which uses a sequential node and parses the created child's name.

### Where an exception in init leads

- `init` has one `catch (Exception e)` (leaf-core/src/main/java/com/leaf/leafcore/config/Zookeeper.java:127) around the whole registration block (:78-126). Its comment at :130 says the local cache is used once the node could not be initialised. So every exception thrown in the block leads to the cache being read (:131-133), including these (`Zookeeper.InitSpec`, `Zookeeper.KnownAddressBranch`):
  - the stale-timestamp exception (:105-106);
  - a child key whose second field is not an int (:98);
  - a failed create (:155-164, rethrown at :163);
  - the RuntimeException of a failed cache write (:212-213).
- After the stale-timestamp exception, `init` returns true whenever the cache holds an int `workerId` (:106, :127-140).
- When the persistence node is missing (:80-87), `init` creates the node and does not parse its name. `workerId` keeps its initial 0 (:50; the comment at :83 says the worker id defaults to 0), and 0 is what it mounts (:84) (`Zookeeper.RootMissingBranch`).
- A missing cache file makes the file read throw an IOException, and `init` returns false (:132, :135-137). A file without an int `workerId` makes `Integer.parseInt` throw a NumberFormatException. That is not an IOException, so it escapes `init` and the generator's constructor (:133) (`Startup.Rejection.InitRaised`).
- The cache file is opened without append (:207, :218-219), which empties it. So what the fallback reads back after a failed mount depends on where the mount failed (:212-213, :131-133):
  - after a failed open, it is the file as it was, possibly written by an earlier run;
  - after a write that fails part-way, it is the part of `workerId=<n>` that reached the file; within the key, that is no int `workerId` at all (`LocalCache.MountTruncatedKey`);
  - after a close that fails, it is the whole line, and so the new id (`LocalCache.MountCloseFails`).

## Model

Source paths are relative to the repository root.

| member | source | states |
|---|---|---|
| IdLayout.FieldConstants | leaf-core/src/main/java/com/leaf/leafcore/SnowflakeIdGenerator.java:25-50 | the masks `~(-1L << 10)` and `~(-1L << 12)`, computed on 64-bit vectors, are 1023 and 4095; the worker shift is 12 and the timestamp shift is 22, so the fields nest without overlap |
| IdLayout.PackRoundTrip | leaf-core/src/main/java/com/leaf/leafcore/SnowflakeIdGenerator.java:123 | with the worker id in 0..1023 and the sequence in 0..4095, shifting and masking a packed id gives back exactly its delta, worker id and sequence |
| IdLayout.PackOrder | leaf-core/src/main/java/com/leaf/leafcore/SnowflakeIdGenerator.java:123 | the ids of one worker order as their (delta, sequence) pairs do, lexicographically |
| Results.Id | leaf-core/src/main/java/com/leaf/leafcore/Result.java:16-18 | `Result.id(list)` has status SUCCESS, carries the list unchanged and has no message |
| Results.SystemClockGoBack | leaf-core/src/main/java/com/leaf/leafcore/Result.java:21-25 | the rollback result has status EXCEPTION, no id list, and the formatted rollback message |
| Results.ClockBackMessage | leaf-core/src/main/java/com/leaf/leafcore/Result.java:22-23 | the rollback message with the two timestamps; `Results.ClockBackMessageRoundTrip` proves both can be read back |
| Results.ClockBackMessageRoundTrip | leaf-core/src/main/java/com/leaf/leafcore/Result.java:22-23 | the two timestamps are read back out of the message, current first and last second, so different pairs never give the same text |
| AbsGenerator.Clock.CurrentTmp | leaf-core/src/main/java/com/leaf/leafcore/AbsGenerator.java:13-15 | `currentTmp()` returns the next reading and consumes it |
| AbsGenerator.NextAbove | leaf-core/src/main/java/com/leaf/leafcore/AbsGenerator.java:7-9 | the position the busy-wait stops at, when there is one, lies among the readings |
| AbsGenerator.TillNextMillis | leaf-core/src/main/java/com/leaf/leafcore/AbsGenerator.java:5-11 | the loop returns the first reading strictly above lastTimestamp, consumes exactly the readings up to and including it, and changes nothing but the clock |
| AbsGenerator.NextAboveFirst | leaf-core/src/main/java/com/leaf/leafcore/AbsGenerator.java:6-9 | the reading found exceeds the bound and every reading discarded before it is at most the bound; when none is found, every reading is at most the bound |
| AbsGenerator.NextAboveImmediate | leaf-core/src/main/java/com/leaf/leafcore/AbsGenerator.java:5-7 | when the first reading already exceeds the bound, the wait returns it after a single read |
| Snowflake.Emit | leaf-core/src/main/java/com/leaf/leafcore/SnowflakeIdGenerator.java:118-125 | the loop of build makes exactly n stamps and never takes more readings than there are |
| Snowflake.SnowflakeIdGenerator.Id | leaf-core/src/main/java/com/leaf/leafcore/SnowflakeIdGenerator.java:91-112 | `id(size)` returns the result `Generate` gives for the state and the clock, leaves the sequence and lastTimestamp it gives, consumes the readings it takes, and keeps the worker id and the sequence in their fields |
| Snowflake.SnowflakeIdGenerator.Build | leaf-core/src/main/java/com/leaf/leafcore/SnowflakeIdGenerator.java:114-128 | `build` returns the ids of `Batch` and sets lastTimestamp to the final working timestamp, with the sequence it ends on |
| Snowflake.BuildLoop | leaf-core/src/main/java/com/leaf/leafcore/SnowflakeIdGenerator.java:115-125 | the `for` loop lists exactly the ids of the stamps `Emit` makes, in order, and ends on Emit's sequence and working timestamp, with the sequence in 0..4095 |
| Snowflake.BuildStep | leaf-core/src/main/java/com/leaf/leafcore/SnowflakeIdGenerator.java:119-124 | one turn appends the id of the next stamp and keeps the loop's account of what remains of the batch |
| Snowflake.NextSequence | leaf-core/src/main/java/com/leaf/leafcore/SnowflakeIdGenerator.java:119-122 | the sequence steps modulo 4096; on a wrap the working timestamp becomes the first reading past the policy's bound, otherwise it and the clock are unchanged |
| GenerateProperties.GenerateBuilds | leaf-core/src/main/java/com/leaf/leafcore/SnowflakeIdGenerator.java:92-111 | a successful call builds from a reading at or after lastTimestamp, with the stored sequence when that reading equals lastTimestamp and 0 otherwise |
| Snowflake.Generate | leaf-core/src/main/java/com/leaf/leafcore/SnowflakeIdGenerator.java:91-112 | `id(size)`: the rollback policy in front of `build`; `GenerateBuilds`, `LargeRollback`, `SmallRollbackStillBehind`, `SmallRollbackRecovers`, `NewMillisecond`, `GenerateFailure` and `GenerateSuccess` in `GenerateProperties` state each of its exits |
| Snowflake.Batch | leaf-core/src/main/java/com/leaf/leafcore/SnowflakeIdGenerator.java:114-128 | `build(curTmp, size)`: the ids of the stamps `Emit` gives, and the sequence and timestamp of the last one; `GenerateProperties.BatchSuccess` states the count, the worker and the final state |
| GenerateProperties.LargeRollback | leaf-core/src/main/java/com/leaf/leafcore/SnowflakeIdGenerator.java:93-106 | a rollback of more than 3 ms returns EXCEPTION at once with (now, lastTimestamp) in its message, after one reading, with the sequence and lastTimestamp unchanged |
| GenerateProperties.SmallRollbackStillBehind | leaf-core/src/main/java/com/leaf/leafcore/SnowflakeIdGenerator.java:96-102 | a rollback of at most 3 ms reads the clock again; if it is still behind, the call returns EXCEPTION with the second reading, after two readings, with the state unchanged |
| GenerateProperties.SmallRollbackRecovers | leaf-core/src/main/java/com/leaf/leafcore/SnowflakeIdGenerator.java:96-111 | when the second reading has caught up, the batch continues the stored sequence without resetting it, and without a wrap it is stamped with that reading |
| GenerateProperties.NewMillisecond | leaf-core/src/main/java/com/leaf/leafcore/SnowflakeIdGenerator.java:107-110 | a reading past lastTimestamp resets the sequence: the first id carries that reading, this worker and sequence 1 |
| GenerateProperties.NewMillisecondBatch | leaf-core/src/main/java/com/leaf/leafcore/SnowflakeIdGenerator.java:107-127 | in a new millisecond a batch of at most 4095 ids takes one reading and returns exactly the ids with sequences 1, 2, ... at that reading |
| GenerateProperties.EmitNotBeforeStored | leaf-core/src/main/java/com/leaf/leafcore/SnowflakeIdGenerator.java:120-126 | a batch that starts at or after lastTimestamp ends at or after it |
| GenerateProperties.GenerateFailure | leaf-core/src/main/java/com/leaf/leafcore/SnowflakeIdGenerator.java:93-106 | a call fails exactly when the clock is behind by more than 3 ms, or is still behind on the second reading; a failed call returns no ids and changes neither field |
| GenerateProperties.GenerateSuccess | leaf-core/src/main/java/com/leaf/leafcore/SnowflakeIdGenerator.java:111-127 | a successful call returns `size <= 0 ? 1 : size` ids of this worker; the sequence stays in 0..4095, lastTimestamp does not go back, and the new (lastTimestamp, sequence) is the stamp of the last id returned |
| GenerateProperties.BatchSuccess | leaf-core/src/main/java/com/leaf/leafcore/SnowflakeIdGenerator.java:111-127 | a batch that completes from a timestamp at or after lastTimestamp returns `size <= 0 ? 1 : size` ids of this worker, keeps the sequence in 0..4095, does not move lastTimestamp back, and ends at the stamp of its last id |
| GenerateProperties.WorkingIdsAscend | leaf-core/src/main/java/com/leaf/leafcore/SnowflakeIdGenerator.java:118-124 | with the corrected wait the ids of one call strictly increase and all exceed the id of the state the call starts from |
| GenerateProperties.WorkingCallsAscend | leaf-core/src/main/java/com/leaf/leafcore/SnowflakeIdGenerator.java:118-126 | with the corrected wait every id of a call exceeds every id of the call before it |
| GenerateProperties.StoredWaitRepeatsId | leaf-core/src/main/java/com/leaf/leafcore/SnowflakeIdGenerator.java:120-122 | as written, a fresh generator asked for 4097 ids while the clock stays at one reading returns a batch whose first and last ids are equal |
| GenerateProperties.GenerateStoredMatchesWorking | leaf-core/src/main/java/com/leaf/leafcore/SnowflakeIdGenerator.java:92-127 | as written, a call whose batch cannot wrap, or that starts in a new millisecond with at most 4095 ids, or in the stored millisecond with at most 4096, returns exactly what the corrected call returns |
| GenerateProperties.StoredIdsAscend | leaf-core/src/main/java/com/leaf/leafcore/SnowflakeIdGenerator.java:118-124 | as written, the ids of such a call strictly increase and exceed the id of the state the call starts from |
| GenerateProperties.StoredCallsAscend | leaf-core/src/main/java/com/leaf/leafcore/SnowflakeIdGenerator.java:118-126 | as written, when both of two successive calls are such calls, every id of the second exceeds every id of the first |
| BatchProperties.EmitSequences | leaf-core/src/main/java/com/leaf/leafcore/SnowflakeIdGenerator.java:119 | the i-th id of a batch carries sequence number (sequence + i + 1) mod 4096 |
| BatchProperties.EmitTimeKept | leaf-core/src/main/java/com/leaf/leafcore/SnowflakeIdGenerator.java:119-123 | an id whose sequence did not wrap keeps the working timestamp of the id before it |
| BatchProperties.EmitWaitPast | leaf-core/src/main/java/com/leaf/leafcore/SnowflakeIdGenerator.java:120-122 | an id whose sequence wrapped to 0 carries a reading strictly greater than the policy's bound: the stored lastTimestamp as written |
| BatchProperties.EmitFinal | leaf-core/src/main/java/com/leaf/leafcore/SnowflakeIdGenerator.java:126 | the batch leaves the sequence and working timestamp of its last id, or those it started from when it is empty |
| BatchProperties.EmitTimesRead | leaf-core/src/main/java/com/leaf/leafcore/SnowflakeIdGenerator.java:121 | every working timestamp of a batch is the one it starts from or a clock reading |
| BatchProperties.StoredWaitsDefined | leaf-core/src/main/java/com/leaf/leafcore/SnowflakeIdGenerator.java:120-122 | as written, when every reading is past the stored lastTimestamp, one reading per remaining id is enough for the batch to complete |
| BatchProperties.EmitNoWrap | leaf-core/src/main/java/com/leaf/leafcore/SnowflakeIdGenerator.java:118-124 | a batch that stays below 4096 takes no reading and stamps sequence + 1, sequence + 2, ... at the timestamp it starts from |
| BatchProperties.NoWrapPolicyFree | leaf-core/src/main/java/com/leaf/leafcore/SnowflakeIdGenerator.java:118-124 | a batch that stays below 4096 is the same under either wait |
| BatchProperties.StoredWrapMatches | leaf-core/src/main/java/com/leaf/leafcore/SnowflakeIdGenerator.java:120-122 | a batch at most 4096 long that wraps from the stored millisecond at once waits as the corrected code does |
| BatchProperties.StoredMatchesWorking | leaf-core/src/main/java/com/leaf/leafcore/SnowflakeIdGenerator.java:118-124 | a batch that cannot wrap, or that works in the stored millisecond and is at most 4096 long, is the same under either wait |
| BatchProperties.WorkingStampsAscend | leaf-core/src/main/java/com/leaf/leafcore/SnowflakeIdGenerator.java:118-124 | with the corrected wait each stamp comes strictly after the one before it, and the first strictly after the starting state |
| BatchProperties.IdsAscend | leaf-core/src/main/java/com/leaf/leafcore/SnowflakeIdGenerator.java:123 | one worker's ids order as their stamps do |
| Startup.Admit | leaf-core/src/main/java/com/leaf/leafcore/SnowflakeIdGenerator.java:63-84 | the constructor's checks in order; an admitted worker id is in 0..1023, and a start time ahead of the clock is rejected after one reading, before init runs |
| Startup.AdmitConditions | leaf-core/src/main/java/com/leaf/leafcore/SnowflakeIdGenerator.java:65-84 | a generator is made exactly when startTimestamp <= now, the ip is not empty, init returns true and its worker id is in 0..1023; the generator gets that worker id |
| Startup.Create | leaf-core/src/main/java/com/leaf/leafcore/SnowflakeIdGenerator.java:63-88 | the constructor yields a fresh generator with sequence 0, lastTimestamp -1 and the resolved worker id, or nothing and the reason; the Zookeeper object ends as `Admit` says |
| Coordination.ChildPathInjective | leaf-core/src/main/java/com/leaf/leafcore/config/Zookeeper.java:103 | different children of one parent have different full paths |
| Coordination.Pad10Value | leaf-core/src/main/java/com/leaf/leafcore/config/Zookeeper.java:157-160 | the ten-digit sequential suffix parses back, with `Integer.parseInt`, to the counter it came from, and contains no `-` |
| Coordination.SequentialNamesDiffer | leaf-core/src/main/java/com/leaf/leafcore/config/Zookeeper.java:157-160 | after a sequential create the same request names a different child |
| Coordination.CreateKeepsValid | leaf-core/src/main/java/com/leaf/leafcore/config/Zookeeper.java:157-160 | a create keeps the store valid: the new child is listed once, has its node, and the counter stays at least the number of children |
| Coordination.SetDataKeepsValid | leaf-core/src/main/java/com/leaf/leafcore/config/Zookeeper.java:187 | a write of a node keeps the store valid |
| Text.ParseInt | leaf-core/src/main/java/com/leaf/leafcore/config/Zookeeper.java:98 | `Integer.parseInt` accepts only decimals within the 32-bit range, and agrees with the unbounded reading of the numeral |
| Text.FormatDecimalRoundTrip | leaf-core/src/main/java/com/leaf/leafcore/config/Zookeeper.java:60 | reading back what `%d` writes gives the number again |
| Text.ParseIntFormatDecimal | leaf-core/src/main/java/com/leaf/leafcore/config/Zookeeper.java:133 | `Integer.parseInt` inverts `%d` on every Java int |
| Text.FormatDecimalChars | leaf-core/src/main/java/com/leaf/leafcore/config/Zookeeper.java:208 | a `%d` spelling holds only digits and a minus sign |
| Text.FormatDecimalInjective | leaf-core/src/main/java/com/leaf/leafcore/config/Zookeeper.java:60 | different numbers have different `%d` spellings |
| Text.SplitTwo | leaf-core/src/main/java/com/leaf/leafcore/config/Zookeeper.java:95 | `"a-b".split("-")` is `[a, b]` when neither part holds a `-` and b is not empty |
| Text.SplitTrailing | leaf-core/src/main/java/com/leaf/leafcore/config/Zookeeper.java:117 | `"a-".split("-")` drops the empty trailing piece: `[a]`, or nothing when a is empty |
| Text.SplitLeadingTwo | leaf-core/src/main/java/com/leaf/leafcore/config/Zookeeper.java:117 | `"a-b-rest".split("-")` begins with a and b |
| Text.Split | leaf-core/src/main/java/com/leaf/leafcore/config/Zookeeper.java:95 | `String.split` on one character, as at :95 and :117, with trailing empty pieces dropped; `Text.SplitTwo`, `Text.SplitTrailing` and `Text.SplitLeadingTwo` state it on the shapes the core splits |
| LocalCache.Mount | leaf-core/src/main/java/com/leaf/leafcore/config/Zookeeper.java:195-219 | without the file or a directory that exists or can be made, nothing is written and nothing is thrown; otherwise the open empties the file, a failed open throws and leaves it as it was, a failed write or close throws and leaves a prefix of `workerId=<n>`, and a mount that goes through leaves exactly that line |
| LocalCache.GetProperty | leaf-core/src/main/java/com/leaf/leafcore/config/Zookeeper.java:133 | `getProperty` is null exactly when no entry has the key |
| LocalCache.Lines | leaf-core/src/main/java/com/leaf/leafcore/config/Zookeeper.java:132 | the lines `Properties.load` reads end at `\n`, `\r` or `\r\n`, so no line holds either character |
| LocalCache.ReadCache | leaf-core/src/main/java/com/leaf/leafcore/config/Zookeeper.java:131-138 | a missing file is the IOException case; a cached worker id is a Java int |
| LocalCache.LoadCacheLine | leaf-core/src/main/java/com/leaf/leafcore/config/Zookeeper.java:208 | the line the mount writes loads as exactly one entry, `workerId` with the decimal n |
| LocalCache.MountThenRead | leaf-core/src/main/java/com/leaf/leafcore/config/Zookeeper.java:131-133 | on a writable disk, reading the cache after a mount of n gives n, whatever the file held before, and the disk stays writable |
| LocalCache.MountOverwrites | leaf-core/src/main/java/com/leaf/leafcore/config/Zookeeper.java:218-219 | a second mount leaves what a single mount of the second id leaves: the write does not append |
| LocalCache.KeyPrefixLoad | leaf-core/src/main/java/com/leaf/leafcore/config/Zookeeper.java:131-133 | a file holding part of the key `workerId` has no `workerId` entry, or one with an empty value |
| LocalCache.MountTruncatedKey | leaf-core/src/main/java/com/leaf/leafcore/config/Zookeeper.java:207-213 | a write that throws within the key leaves a cache from which `Integer.parseInt` finds no int, so the fallback raises instead of reading an earlier id |
| LocalCache.MountCloseFails | leaf-core/src/main/java/com/leaf/leafcore/config/Zookeeper.java:207-213 | a close that throws after the whole line was written still leaves the new id for the fallback |
| LocalCache.CacheLine | leaf-core/src/main/java/com/leaf/leafcore/config/Zookeeper.java:208 | the line `String.format("workerId=%d", workId)`; `LocalCache.LoadCacheLine` proves it loads as the one entry (workerId, n) |
| LocalCache.Load | leaf-core/src/main/java/com/leaf/leafcore/config/Zookeeper.java:131-132 | `Properties.load` as entries in file order; its meaning is carried by `LocalCache.Lines`, `LocalCache.GetProperty`, `LocalCache.LoadCacheLine` and `LocalCache.KeyPrefixLoad` |
| Zookeeper.ListenAddressInjective | leaf-core/src/main/java/com/leaf/leafcore/config/Zookeeper.java:60 | for ips without `:`, equal listen addresses mean equal ip and port |
| Zookeeper.CachePathPerPort | leaf-core/src/main/java/com/leaf/leafcore/config/Zookeeper.java:64-65 | one service under one cache directory has one cache file per port |
| Zookeeper.ListenAddress | leaf-core/src/main/java/com/leaf/leafcore/config/Zookeeper.java:60 | `ip:port`; `Zookeeper.ListenAddressInjective` proves it identifies the host |
| Zookeeper.PrePath | leaf-core/src/main/java/com/leaf/leafcore/config/Zookeeper.java:62 | the service's node under the root `/leaf/snowflake/`; used by `Zookeeper.PersistencePath` |
| Zookeeper.PersistencePath | leaf-core/src/main/java/com/leaf/leafcore/config/Zookeeper.java:63 | the parent of every registration; `Zookeeper.InitKeepsStoreValid` states the invariant its children keep |
| Zookeeper.CachePath | leaf-core/src/main/java/com/leaf/leafcore/config/Zookeeper.java:64-65 | the cache file of one service and port, as formatted at :196; `Zookeeper.CachePathPerPort` proves different ports get different files |
| Zookeeper.AddKey | leaf-core/src/main/java/com/leaf/leafcore/config/Zookeeper.java:95-99 | one turn of the loop throws exactly on a key with no first field, or whose second field is not an int |
| Zookeeper.Index | leaf-core/src/main/java/com/leaf/leafcore/config/Zookeeper.java:90-100 | every address in nodeMap also has an entry in realNode |
| Zookeeper.IndexDefined | leaf-core/src/main/java/com/leaf/leafcore/config/Zookeeper.java:94-100 | the loop completes exactly when no key is bad |
| Zookeeper.IndexFailureStays | leaf-core/src/main/java/com/leaf/leafcore/config/Zookeeper.java:94-98 | once a key throws, the loop over any longer list throws too |
| Zookeeper.AddKeyLookup | leaf-core/src/main/java/com/leaf/leafcore/config/Zookeeper.java:95-99 | one turn files the key under its first field in realNode, and its second field in nodeMap when the key has one; other addresses keep their entries |
| Zookeeper.IndexHasRealNode | leaf-core/src/main/java/com/leaf/leafcore/config/Zookeeper.java:96 | realNode holds exactly the addresses some key names in its first field |
| Zookeeper.IndexLastRealNode | leaf-core/src/main/java/com/leaf/leafcore/config/Zookeeper.java:94-96 | realNode maps an address to the last key that names it |
| Zookeeper.IndexHasNodeMap | leaf-core/src/main/java/com/leaf/leafcore/config/Zookeeper.java:97-99 | nodeMap holds exactly the addresses some key names with a second field |
| Zookeeper.IndexLastNodeMap | leaf-core/src/main/java/com/leaf/leafcore/config/Zookeeper.java:94-99 | nodeMap maps an address to the number of the last key that names it with a second field |
| Zookeeper.NodeNameOfChild | leaf-core/src/main/java/com/leaf/leafcore/config/Zookeeper.java:117-118 | the corrected parsing finds the created child's name again in its full path |
| Zookeeper.StoredTimestamp | leaf-core/src/main/java/com/leaf/leafcore/config/Zookeeper.java:143-152 | a node's timestamp can be read exactly when the service answers, the node exists and its data is a readable endpoint |
| Zookeeper.EndpointData | leaf-core/src/main/java/com/leaf/leafcore/config/Zookeeper.java:167-170 | the endpoint record with the clock reading `buildData` takes; `Zookeeper.SyncWrites` proves a heartbeat stores exactly that reading |
| Zookeeper.CreateNode | leaf-core/src/main/java/com/leaf/leafcore/config/Zookeeper.java:155-164 | the create under the persistence path with the prefix `<address>-` and the variant's mode; `Registration.AsWrittenNodeUnnumbered` and `Registration.CorrectedRegistersNew` state what it creates |
| Zookeeper.WorkerIdOf | leaf-core/src/main/java/com/leaf/leafcore/config/Zookeeper.java:117-118 | the second `-` field of the created path as written, or of the child's name when corrected; `Registration.AsWrittenDashedServiceId` and `Registration.SequentialWorkerId` state what it reads |
| Zookeeper.RegisterSpec | leaf-core/src/main/java/com/leaf/leafcore/config/Zookeeper.java:78-126 | the try block reads the clock at most once; it completes exactly when it takes a branch, and then has an address node that the heartbeat watches |
| Zookeeper.NewNode | leaf-core/src/main/java/com/leaf/leafcore/config/Zookeeper.java:79-124 | the two create branches read the clock once; when they complete, the created node is the address node and the heartbeat's node |
| Zookeeper.Reuse | leaf-core/src/main/java/com/leaf/leafcore/config/Zookeeper.java:101-113 | the known-address branch sets the address node and the stored worker id and leaves the store alone; it completes exactly when the stored timestamp is before now and the mount does not throw |
| Zookeeper.RootMissingBranch | leaf-core/src/main/java/com/leaf/leafcore/config/Zookeeper.java:79-87 | without the persistence node, init creates `<address>-` under it and keeps the worker id it had, which is also what it mounts |
| Zookeeper.KnownAddressBranch | leaf-core/src/main/java/com/leaf/leafcore/config/Zookeeper.java:101-110 | a known address takes its worker id from nodeMap and its node, under the persistence path, from realNode; reuse goes through only when the node's timestamp is before now |
| Zookeeper.InitSpec | leaf-core/src/main/java/com/leaf/leafcore/config/Zookeeper.java:76-141 | after a throw, init returns false exactly when the cache file is missing, raises exactly when the file holds no int `workerId`, and otherwise returns true with the cached id; without a throw it returns true |
| Zookeeper.UnreachableUsesCache | leaf-core/src/main/java/com/leaf/leafcore/config/Zookeeper.java:127-134 | with the service unreachable, init reads no clock, returns true and adopts the id an earlier mount wrote |
| Zookeeper.Sync | leaf-core/src/main/java/com/leaf/leafcore/config/Zookeeper.java:184-193 | a reading before lastUpdateTime changes nothing; past the guard, a node that can be written gets the endpoint stamped with the second reading and lastUpdateTime becomes the third, and a failed write changes neither |
| Zookeeper.SyncMonotone | leaf-core/src/main/java/com/leaf/leafcore/config/Zookeeper.java:184-193 | with a clock that does not step back, a heartbeat never lowers lastUpdateTime, and the timestamp it writes is not later than the new lastUpdateTime |
| Zookeeper.SyncFailureKeeps | leaf-core/src/main/java/com/leaf/leafcore/config/Zookeeper.java:186-191 | a failed write leaves the store and lastUpdateTime as they were |
| Zookeeper.SyncWrites | leaf-core/src/main/java/com/leaf/leafcore/config/Zookeeper.java:184-188 | a heartbeat past the guard on a node it can write stores the reading `buildData` took, sets lastUpdateTime to the next reading, keeps every other node and the children, and a restart whose clock is past that reading passes the stale check |
| Zookeeper.SyncKeepsStoreValid | leaf-core/src/main/java/com/leaf/leafcore/config/Zookeeper.java:184-193 | a heartbeat keeps the store valid |
| Zookeeper.NewNodeKeepsStoreValid | leaf-core/src/main/java/com/leaf/leafcore/config/Zookeeper.java:79-124 | the create branches of init keep the store valid |
| Zookeeper.InitKeepsStoreValid | leaf-core/src/main/java/com/leaf/leafcore/config/Zookeeper.java:76-141 | init, whichever way it goes, leaves a valid store valid |
| Zookeeper.Zookeeper.constructor | leaf-core/src/main/java/com/leaf/leafcore/config/Zookeeper.java:56-66 | a new object has no address node, worker id 0, no heartbeat and lastUpdateTime 0 |
| Zookeeper.Zookeeper.Init | leaf-core/src/main/java/com/leaf/leafcore/config/Zookeeper.java:76-141 | `init()` returns and leaves what `InitSpec` says, consumes the readings it takes and does not touch lastUpdateTime |
| Zookeeper.Zookeeper.Register | leaf-core/src/main/java/com/leaf/leafcore/config/Zookeeper.java:78-126 | the try block leaves the fields `RegisterSpec` gives, and throws when it does |
| Zookeeper.Zookeeper.RegisterNewNode | leaf-core/src/main/java/com/leaf/leafcore/config/Zookeeper.java:114-124 | the create branches, the root one as well as the new-address one, leave the fields `NewNode` gives |
| Zookeeper.Zookeeper.RegisterReuse | leaf-core/src/main/java/com/leaf/leafcore/config/Zookeeper.java:103-110 | the known-address branch leaves the fields `Reuse` gives and does not touch the store |
| Zookeeper.Zookeeper.ParseChildren | leaf-core/src/main/java/com/leaf/leafcore/config/Zookeeper.java:90-100 | the loop fills the two maps exactly as `Index` says, or throws when it does |
| Zookeeper.Zookeeper.CreateNodeCall | leaf-core/src/main/java/com/leaf/leafcore/config/Zookeeper.java:155-170 | `createNode()` reads the clock once for the data, and returns the created path and the new store, or throws and leaves the store |
| Zookeeper.Zookeeper.CheckInitTimestamp | leaf-core/src/main/java/com/leaf/leafcore/config/Zookeeper.java:143-148 | the check throws, without reading the clock, when the node cannot be read; otherwise it is whether the stored timestamp is strictly before now |
| Zookeeper.Zookeeper.ScheduledPersistenceNode | leaf-core/src/main/java/com/leaf/leafcore/config/Zookeeper.java:172-182 | scheduling records the node the heartbeat keeps up to date |
| Zookeeper.Zookeeper.MountLocalWorkerId | leaf-core/src/main/java/com/leaf/leafcore/config/Zookeeper.java:195-216 | the mount leaves the disk `Mount` gives, and throws when it does |
| Zookeeper.Zookeeper.SyncTimestamp | leaf-core/src/main/java/com/leaf/leafcore/config/Zookeeper.java:184-193 | the heartbeat body leaves the store and lastUpdateTime that `Sync` gives |
| Registration.SequentialKey | leaf-core/src/main/java/com/leaf/leafcore/config/Zookeeper.java:95-98 | a sequential child of a plain host splits into its address and its counter, and its second field parses to the counter |
| Registration.SequentialWorkerId | leaf-core/src/main/java/com/leaf/leafcore/config/Zookeeper.java:117-118 | the corrected parsing reads the counter back from the created path |
| Registration.NewAddressBranch | leaf-core/src/main/java/com/leaf/leafcore/config/Zookeeper.java:114-115 | with the parent present and the address unknown, init goes to createNode |
| Registration.NewNodeSucceeds | leaf-core/src/main/java/com/leaf/leafcore/config/Zookeeper.java:115-120 | a create that goes through, a path that yields a worker id and a writable cache complete the new-address branch, with exactly the state that registration implies |
| Registration.CorrectedRegistersNew | leaf-core/src/main/java/com/leaf/leafcore/config/Zookeeper.java:114-120 | corrected, a new address gets the next counter as its node and its worker id, the cache holds that id, and the heartbeat watches the new node |
| Registration.CorrectedRestartReuses | leaf-core/src/main/java/com/leaf/leafcore/config/Zookeeper.java:101-110 | corrected, a restart with the clock past the registration time takes the known-address branch and gets the same node and worker id back |
| Registration.AppendedKey | leaf-core/src/main/java/com/leaf/leafcore/config/Zookeeper.java:94-100 | a new child that names another address leaves this address as known or unknown as it was |
| Registration.CorrectedDistinctWorkers | leaf-core/src/main/java/com/leaf/leafcore/config/Zookeeper.java:114-118 | corrected, two hosts of one service that register one after the other get different worker ids, the counter and the counter plus one |
| Registration.AsWrittenNewAddressFails | leaf-core/src/main/java/com/leaf/leafcore/config/Zookeeper.java:157-160 | as written, in a service whose name holds no `-`, registering a new address always throws into the fallback, and with no cache file init returns false |
| Registration.AsWrittenNodeUnnumbered | leaf-core/src/main/java/com/leaf/leafcore/config/Zookeeper.java:159-160 | as written, the node created is `<address>-`, which names the address with no number, so a restart does not recognise it |
| Registration.AsWrittenDashedServiceId | leaf-core/src/main/java/com/leaf/leafcore/config/Zookeeper.java:117-118 | as written, in the service `a-7-b`, every new address reads worker id 7 from its path |
| Registration.AsWrittenSharedWorkerId | leaf-core/src/main/java/com/leaf/leafcore/config/Zookeeper.java:117-118 | as written, two hosts of the service `a-7-b` that register one after the other both get worker id 7 |

## Left out

- Client construction and session: `curatorFramework` with its retry policy and timeouts, and `curator.start()`, are left out. The service is a `Store` value, and every failure it can report is `Thrown`.
- The heartbeat's executor, its thread and its timing are left out. `ScheduledPersistenceNode` records only which node the heartbeat is for; `SyncTimestamp` is one run of its body.
- The `synchronized` on `id` is left out: calls are sequential.
- `LockSupport.parkNanos` is left out: the wait is the step to the next reading.
- Jackson serialisation is left out: a node holds an `Endpoint` record, or `Unreadable` for bytes the reader rejects.
- File I/O is left out: the cache is a `Disk` value. Reading the cache fails with an IOException only when the file is missing (`LocalCache.ReadCache`); an existing file that cannot be opened for reading, or a directory at the cache path, is not modelled. `Properties.load` is reduced to one `key=value` or `key:value` entry per line, with lines ending at `\n`, `\r` or `\r\n`, blank and comment lines skipped, and the last duplicate winning. Escapes, surrounding whitespace and line continuations are not modelled.
- `File.separator` is fixed to `/`.
- Text.ParseInt: accepts only the ASCII digits 0-9 after an optional sign. `Integer.parseInt` also accepts the other Unicode decimal digits; the model has no Unicode digit tables.
- Text.FormatDecimal: writes ASCII digits. `String.format` uses the digits of the default locale, which are ASCII in the locales the model assumes.
- The `%` characters a service name could bring into the cache path's format string are not modelled.
- `IPUtils.getIp` is not part of this model: the ip is a field of `Zookeeper.Config`, and the empty-ip check is modelled on it.
- Logging, the Spring configuration classes and the HTTP controller are left out.
- IdLayout.Pack: does not model the 64-bit overflow of the 41-bit timestamp field. Integers are unbounded, and the code has no check for it.
- AbsGenerator.TillNextMillis: requires that some remaining reading exceeds the bound, because the modelled clock is finite. Termination of the Java busy-wait is not proved.
- Snowflake.SnowflakeIdGenerator.Id: requires that the modelled clock holds enough readings for the call, which is `Generate(...).Some?`.
- Snowflake.SnowflakeIdGenerator.Build: requires that the modelled clock holds enough readings for the batch.
- Zookeeper.Zookeeper.Init: requires at least one remaining reading, the one `buildData` or `checkInitTimestamp` may take.
- Zookeeper.Zookeeper.SyncTimestamp: requires three remaining readings: the guard, `buildData` and the update of lastUpdateTime.
- Zookeeper.SyncMonotone: states monotonicity only for readings that do not step back. `lastUpdateTime` is set from a separate clock read, so a clock that steps back between reads can lower it.
- Startup.Create: requires two remaining readings. It takes a Zookeeper object already made for the host's ip, because `new Zookeeper(...)` reads nothing and fails in nothing the model keeps.

## Findings

| source | as written | input that shows it | evidently intended | confidence | as-written member | corrected member |
|---|---|---|---|---|---|---|
| leaf-core/src/main/java/com/leaf/leafcore/SnowflakeIdGenerator.java:120-122 | on a sequence wrap, build waits for a reading past the stored `lastTimestamp`, not past the working timestamp of the batch | a fresh generator (sequence 0, lastTimestamp -1) asked for 4097 ids while the clock stays at t >= 0: the wrap returns t again, so id 4097 repeats id 1 | wait for a reading past the working timestamp, so that ids strictly increase | not executed | GenerateProperties.StoredWaitRepeatsId | GenerateProperties.WorkingIdsAscend |
| leaf-core/src/main/java/com/leaf/leafcore/config/Zookeeper.java:157-160 | createNode uses `CreateMode.PERSISTENT`, so the child is named `<ip:port>-` with no number | a service whose name has no `-`, a reachable store with the persistence node, and an unknown address: `split("-")` of the path has one field, `nodeKey[1]` throws, and init falls back to the cache, or returns false without one | `PERSISTENT_SEQUENTIAL`, so that the store-assigned counter is the worker id and a restart finds it again | not executed | Registration.AsWrittenNewAddressFails | Registration.CorrectedRestartReuses |
| leaf-core/src/main/java/com/leaf/leafcore/config/Zookeeper.java:117-118 | the worker id is parsed from the second `-` field of the full path, not of the created child's name | the service `a-7-b`: every new address gets `/leaf/snowflake/a-7-b/persistence/<ip:port>-`, and two hosts both parse worker id 7 | parse the created child's name | not executed | Registration.AsWrittenSharedWorkerId | Registration.CorrectedDistinctWorkers |
