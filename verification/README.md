# A verified model of the Redis server in C

The project models the command core of a Redis server written in C: the hash table that is the
keyspace, sorted sets and the geo index on them, streams with blocked readers, lists with BLPOP,
optimistic transactions, the wire format, the append-only file, replication with WAIT, and the
RDB loader. Each part has a specification on values, and the parts that the program updates in
place have, beside it, classes and loops that are proved to compute that specification.

| Part | Specification and theorems | In-place form |
|---|---|---|
| C strings, command names | `CString.dfy`, `Commands.dfy` | |
| Sorted sets | `SortedSets.dfy` | `SortedSetChain.dfy` |
| Geo index | `Morton.dfy`, `Geo.dfy` | |
| Hash table | `Tables.dfy` | `HashTable.dfy` |
| RDB loader | `Rdb.dfy`, `RdbFiles.dfy` | `RdbLoader.dfy` |
| Lists and BLPOP | `Lists.dfy` | `ListArray.dfy` |
| Streams | `Streams.dfy` | `StreamChain.dfy` |
| Wire format | `Resp.dfy`, `Cuts.dfy` | `RespReader.dfy` |
| Data commands on the keyspace | `Keyspace.dfy`, `Effects.dfy`, `Orders.dfy`, `DataCommands.dfy` | |
| Transactions | `Transactions.dfy`, `Interleavings.dfy`, `AfterExec.dfy` | `TransactionServer.dfy` |
| Append-only file | `Replays.dfy`, `Aof.dfy`, `Restarts.dfy` | |
| Replication and WAIT | `Replication.dfy`, `WaitGuarantees.dfy`, `WaitReplies.dfy`, `Waiting.dfy`, `CaughtUp.dfy`, `CommitOrder.dfy`, `ReplicationGaps.dfy` | `EventLoop.dfy` |
| Inputs on which the code falls short | `Failures.dfy` | |

`dafny verify dfyconfig.toml` checks everything. The wire format is that of the Redis
serialization protocol specification, sections "Arrays" and "Bulk strings".

Conventions. A C string is a sequence of characters without NUL, one character per byte. Scores
and coordinates are reals; a geo score is rounded to a double. Bit operations are on 64-bit
vectors. The clock, the reading of a score (`atof`) and whether an RPUSH meets a blocked client
are inputs, so every theorem holds for all of them. A read or write outside a buffer, a value
read as another type, a key that hashes outside the table and a watched key that is freed twice
are results of their own (`Fault`, `Outside`, `Crash`, `Undefined`, `Crashed`, `None`), never
preconditions. Every lemma has automatic induction switched off: each inductive step is in its
body.

A command *repeats* (`Effects.Repeats`) when carrying out its record elsewhere leaves what the
command left. That fails for a ZADD, ZREM, GEOADD, BLPOP or GEOSEARCH that has an effect
(`Effects.Effective`), for an RPUSH that served a blocked client, and for a SET with an expiry or
an XADD with a generated ID when the clock reads differently there; `Effects.RepeatsIff` proves
the condition exact.

## Where the code falls short

These are theorems, each with the condition under which the code does what it is for;
`Failures.dfy` holds concrete inputs.

- A geo hash fits the 53 bits of a double only below longitude 180. At 180 an odd latitude cell
  comes back as the one below it (`Geo.GeoposWithinHalfCell`, `Failures.GeoposMovesDown`).
- `XADD key ms-*` is not checked against the last ID, and below the last millisecond it breaks
  the order of the stream (`Streams.XAddKeepsValidIff`); after that XREAD does not return the
  entries above the last one (`Streams.ReadIsCompleteIff`, `Streams.StepBackHides`), and even
  XREAD BLOCK with `$` blocks below an entry (`Streams.TailMissesAfterStepBack`).
- XREAD BLOCK with an explicit ID blocks without looking at the stream, so the client waits
  below entries that are there (`Streams.StepMissesIff`, `Streams.NoLostWakeup`).
- A client blocked by BLPOP can wait on a list that has an element: LPUSH wakes nobody, RPUSH
  one client however many elements it brings, and none that was blocked in the same millisecond
  (`Lists.NoLostWakeup`, `Lists.RPushWakesIff`, `Failures.RPushPassesOver`,
  `Failures.RPushLeavesOneBlocked`). A BLPOP timeout sends an element and leaves it in the list
  (`Lists.Conservation`).
- LRANGE with a bound beyond the length of the list starts at the first element, whatever start
  was asked for (`Lists.RangeIsBetweenIff`, `Lists.LostStartReturnsMore`,
  `Failures.RangeStartsOver`).
- SET with `EX -1` or `PX -1` never expires (`DataCommands.GetAfterTimedSet`), and INCR counts on
  from a value that has expired and drops the expiry (`DataCommands.IncrCounts`).
- Bytes from 128 up count as negative in the hash, and a key whose last step comes out negative,
  and not as a multiple of 1024, indexes before the table (`Tables.IndexesIff`; the one byte 255
  does, `a` followed by 255 does not). A new list, stream or sorted set replaces whatever heads
  its bucket (`Tables.PutHeadRefinesMapIffBucketEmpty`, `DataCommands.OtherKeyStaysIff`).
- The RDB loader reads 8 and 16 bit integers without sign and cuts a string at a NUL byte
  (`Rdb.ReadEncodedInteger`, `RdbFiles.LoadIsMeantIff`), and writes a record's expiry to the head
  of the bucket (`Rdb.ExpiryLandsOnItsKey`).
- One recv takes at most 4095 bytes, and nothing keeps the rest of a request for the next one: a
  stream that is cut inside a request, other than before or inside its last CRLF, is not read as
  it was sent (`Cuts.CutIff`).
- BLPOP and GEOSEARCH change the keyspace without notifying watchers, and an EXEC then commits
  over the change (`Transactions.MissedExactlyWhenSilent`, `Failures.ExecMissesBlpop`).
- An EXEC that commits does not end the client's watches, and its own commands notify its own
  client: the next transaction of the client aborts when the committed one wrote a key that was
  watched for it (`AfterExec.NextExecCommitsIff`, `Failures.NextExecAborts`).
- UNWATCH, DISCARD and an EXEC that aborts free a watched key once for every slot of the client
  in the key's bucket, so `WATCH k k`, or two keys of one bucket, is a double free
  (`Interleavings.ForgetsSafelyIff`).
- The append-only file does not rebuild every keyspace. ZADD, ZREM and GEOADD are logged under
  the name UNKNOWN, BLPOP and GEOSEARCH not at all; an RPUSH that served a blocked client is
  replayed in full; an expiry counts, and a generated stream ID is made, from the clock of the
  replay (`Aof.ReplayRebuildsIff`, `Aof.ZAddIsNotRebuilt`, `Aof.BlpopIsNotRebuilt`).
- Replay appends what it replays to the file again, so after n starts the file holds 2^n copies
  of the log (`Restarts.StartExecutes`, `Restarts.LogAfterStarts`), and the replay that follows
  makes a key that c INCRs counted read c times 2^n (`Restarts.CounterGrows`).
- The same commands make a replica differ from its master: ZADD, ZREM, GEOADD, BLPOP and
  GEOSEARCH are never sent, and the others are carried out differently there
  (`CaughtUp.CommandKeepsEqualIff`, `WaitGuarantees.MasterFoldsIff`,
  `Failures.ZAddIsNotReplicated`).
- A write queued by MULTI is sent to replicas at once, also when the transaction is discarded or
  aborts later (`CaughtUp.AbandonedKeepsEqualIff`, `CaughtUp.AbandonedOneKeepsEqualIff`,
  `Failures.DiscardedSetIsReplicated`).
- For the same reason a command of another client that comes between a queued write and its EXEC
  takes effect before it on the master and after it on the replica (`CommitOrder.ApartKeepsEqualIff`,
  `CommitOrder.SameKeyKeepsEqualIff`, `Failures.CommitReorders`).
- Every GETACK moves a replica's offset 37 bytes ahead of the master's, so a later WAIT can
  count a replica that is behind (`WaitGuarantees.WaitNeedsDrift`,
  `ReplicationGaps.LaterWaitMiscounts`, `Failures.WaitMiscountsSet`).
- A WAIT that begins while another client waits takes over the one descriptor for the reply
  (`Waiting.StrandsIff`, `Waiting.NobodyStrandedIff`). The first client gets no count; it stays
  blocked until its own timeout, and at least until the other WAIT has ended, and for good if it
  had none (`Waiting.OvertakenReleasedIff`, `Waiting.OvertakenForGood`).

The repository's README lists DEL, DECR, EXPIRE, TTL and RPOP as implemented. In the dispatch of
`src/handler.c` DEL, DECR and RPOP only notify watchers and log, and EXPIRE and TTL do nothing;
the model follows the dispatch. `handle_rpop` itself exists and is modelled in the list part.

## Model

| member | source | states |
|---|---|---|
| `SortedSets.HistoryIndependence` | `src/set_handler.c:4-58` | after any run of ZADD and ZREM no member occurs twice and scores never fall along the chain; at equal scores the earlier member is a proper prefix of the later or smaller at the first byte where they differ; two histories leave the same chain exactly when they leave the same member-to-score map |
| `SortedSets.CanonicalIsUnique` | `src/set_handler.c:27-58` | two canonical chains with the same items are equal |
| `SortedSets.RunRefinesMap` | `src/set_handler.c:60-126` | a run of ZADD and ZREM on chains refines the same run on a map |
| `SortedSets.RankCountsBelow` | `src/set_handler.c:128-154` | the index of a member is the number of members with a smaller score, or with an equal score and a name that comes first as bytes, and ZRANGE at that rank returns that member |
| `CStrings.LessIffPrecedes` | `src/set_handler.c:36-45` | strcmp puts a before b exactly when a is a proper prefix of b or smaller at the first byte where they differ |
| `SortedSets.InsertedAfterLower` | `src/set_handler.c:27-58` | the position of a new item: all before it are lower in score, then in bytes, and the next one is not |
| `SortedSets.ZAddBinds` | `src/set_handler.c:60-126` | a member that ZADD names has the score that stands before its last mention |
| `SortedSets.ZAddKeeps` | `src/set_handler.c:60-126` | the items of the other members stay |
| `SortedSets.SliceHoldsIndicesBetween` | `src/set_handler.c:156-202` | the clamped ZRANGE slice is exactly the items whose index lies between the two bounds, where -k is the k-th from the end |
| `SortedSetChain.ZSet.Remove` | `src/set_handler.c:4-25` | unlinking in place removes exactly the member, keeps the chain linked and counted, and reports whether it was there |
| `SortedSetChain.ZSet.Add` | `src/set_handler.c:27-58` | linking in place puts the item behind those with a smaller score, or an equal score and a name that comes first as bytes, and in front of the rest |
| `SortedSetChain.ZSet.ZAdd` | `src/set_handler.c:60-126` | the pairs are replaced one by one on a canonical chain, and the reply counts the new members |
| `SortedSetChain.ZSet.ZRem` | `src/set_handler.c:244-265` | the members are removed one by one, and the reply counts the removed ones |
| `SortedSetChain.ZSet.ZRank` | `src/set_handler.c:128-154` | the walk answers the number of members with a smaller score, or an equal score and a name that comes first as bytes; null for an unknown member |
| `SortedSetChain.ZSet.ZRange` | `src/set_handler.c:156-202` | for any signed bounds the walk returns the slice and never follows a null link |
| `Morton.InterleaveWordsRefines` | `src/set_handler.c:364-383` | the mask-and-shift interleaving of 32-bit words is the bit-by-bit interleaving of their values |
| `Morton.CompactRefines` | `src/set_handler.c:385-393` | compact64 extracts the number made of the even bits |
| `Morton.EvenBitsOfInterleave` | `src/set_handler.c:374-403` | both coordinates come back from the interleaved number |
| `Morton.InterleaveOfEvenBits` | `src/set_handler.c:374-403` | every number is the interleaving of its own two halves |
| `Morton.InterleaveIsMonotone` | `src/set_handler.c:374-383` | strictly monotone in each coordinate with the other fixed |
| `Morton.SameCell` | `src/set_handler.c:374-383` | two numbers agree after dropping 2k bits exactly when both coordinates agree after dropping k |
| `Morton.WhereBitsLand` | `src/set_handler.c:364-383` | bit k of the coordinates lands at bits 2k and 2k + 1 |
| `Geo.EncodeInvertsDecode` | `src/set_handler.c:374-403` | encoding the decoded centre of any 52-bit cell gives the cell back |
| `Geo.HashBound` | `src/set_handler.c:374-383` | the hash is below 2^53 exactly when the longitude cell is below 2^26, that is, the longitude below 180 |
| `Geo.GeoposAnswersCell` | `src/set_handler.c:442-532` | GEOPOS after GEOADD answers the centre of the coordinate's cell, but at longitude 180 an odd latitude cell comes back one lower |
| `Geo.GeoposWithinHalfCell` | `src/set_handler.c:442-532` | the answer is within 360/2^27 and 170.10225756/2^27 of the input exactly under the stated condition |
| `Tables.TableRefinement` | `src/utils.c:94-177` | after any run of store_set entries lie in their buckets, no chain repeats a key, store_getEntry is a plain map and store_get that map filtered by expiry |
| `Tables.PutRefinesMap` | `src/utils.c:94-130` | one store_set updates exactly its key of the represented map |
| `Tables.PutHeadRefinesMapIffBucketEmpty` | `src/utils.c:43-92` | storing a list, stream or sorted set under a new key updates the map exactly when the bucket is empty, and otherwise loses the key at its head |
| `Tables.IndexesIff` | `src/utils.c:17-23` | a key indexes the table exactly when its last step, from the hash of the rest, is not negative or is a multiple of 1024 |
| `Tables.HighBytesMayIndex` | `src/utils.c:17-23` | the key of the one byte 255 hashes before the table, the key of `a` and that byte inside it |
| `Tables.HashStaysInTable` | `src/utils.c:17-23` | the hash stays between -1024 and 1024, and is not negative for ASCII keys |
| `HashTable.Store.Set` | `src/utils.c:94-130` | the linked table is overwritten or extended in place as the specification says |
| `HashTable.Store.GetEntryOf` | `src/utils.c:158-177` | the walk finds the entry of the key, or nothing |
| `HashTable.Store.GetValue` | `src/utils.c:136-156` | the value that has not expired at the given clock |
| `Rdb.LoadInvertsEncode` | `src/rdb_handler.c:330-421` | loading what a specification encoder writes binds every key, as the loader reads it, to its own value and expiry, for every length and integer form and any header records between |
| `RdbFiles.LoadIsMeantIff` | `src/rdb_handler.c:330-421` | a whole file, header bytes included, whose records mean distinct keys loads to the keyspace that it means exactly when no key or value of its string records holds a NUL byte or is a negative number in 8 or 16 bits |
| `RdbFiles.LoadAddsKeys` | `src/rdb_handler.c:330-421` | a load of any records ends, and leaves no key but those that it has read, even when it reads one twice |
| `Rdb.ReadEncodedInteger` | `src/rdb_handler.c:184-229` | an integer string reads as its number without the sign of 8 and 16 bit forms, that is, as its number exactly when it is not negative or has 32 bits |
| `Rdb.ExpiryLandsOnItsKey` | `src/rdb_handler.c:330-421` | a record's expiry reaches its own key exactly when the key is new or heads its bucket, or both expiries are 0 |
| `RdbLoader.LoadIntoTable` | `src/rdb_handler.c:330-421` | the cursor loop fills the linked table as the decoder on values does |
| `Lists.Conservation` | `src/list_handler.c:10-89` | in every run, elements pushed are elements held plus elements handed out, as multisets, exactly when no timeout handed one out without removing it |
| `Lists.FirstInFirstOut` | `src/list_handler.c:251-301` | with RPUSH, LPOP and BLPOP only, elements are handed out in the order pushed |
| `Lists.LPopTakes` | `src/list_handler.c:251-301` | LPOP takes min(c, size) elements for a count c of 0 or more, at most one without a count, and none, with the range error, for a negative count |
| `Lists.RPopTakes` | `src/list_handler.c:305-352` | the same at the other end |
| `Lists.PushesPut` | `src/list_handler.c:10-158` | LPUSH puts its elements in front in reverse order, RPUSH at the end in order |
| `Lists.RPushServesFirst` | `src/list_handler.c:38-89` | on a clock that does not go back, RPUSH hands the first element to the client blocked first, of several blocked at once the first one |
| `Lists.BlpopAnswers` | `src/list_handler.c:355-387` | BLPOP hands out the first element, or blocks its client |
| `Lists.TimeoutAnswers` | `src/list_handler.c:389-420` | a BLPOP that times out sends an element that stays in the list, if there is one by now |
| `Lists.Served` | `src/list_handler.c:38-89` | the client that RPUSH serves waits on the key and has the longest positive wait |
| `Lists.RPushWakesIff` | `src/list_handler.c:38-89` | RPUSH wakes a client exactly when one on the key was blocked at another clock reading |
| `Lists.NoLostWakeup` | `src/list_handler.c:10-89` | over any run no client is blocked on a key whose list has an element, exactly when no LPUSH meets a client that waits on its key, and every RPUSH that meets one finds one blocked at another clock reading, and pushes one element or meets that one only |
| `ListArray.List.Prepend` | `src/list_handler.c:93-158` | the shift loop puts the reversed arguments in front |
| `ListArray.List.LPop` | `src/list_handler.c:251-301` | the shift loop drops the first elements and the reply shows them: min(c, size) for a count c of 0 or more, one without a count, none and the range error for a negative count |
| `ListArray.List.RPop` | `src/list_handler.c:305-352` | the last elements go and the reply shows them, as many as for LPOP |
| `Lists.RangeIsBetweenIff` | `src/list_handler.c:161-225` | LRANGE returns the elements between its bounds exactly when the list is empty or neither bound makes it lose its start |
| `Lists.LostStartReturnsMore` | `src/list_handler.c:161-225` | with its start lost it returns more, from the first element on |
| `ListArray.List.LRange` | `src/list_handler.c:161-225` | the branches and the loop compute that range |
| `ListArray.RPush` | `src/list_handler.c:10-89` | list and clients in memory end as the step of the specification leaves them |
| `ListArray.FindLongestWaiting` | `src/list_handler.c:38-89` | the loop over the clients finds the client that the specification serves |
| `Streams.XAddKeepsValidIff` | `src/handler.c:145-280` | an accepted XADD keeps IDs increasing, last_ms and last_seq at the tail and the length right, exactly unless it is ms-* below the last millisecond |
| `Streams.RunKeepsValid` | `src/handler.c:145-280` | in any run without such XADDs, whatever the clock, the stream stays valid: of two entries the later has the larger millisecond, or the same and the larger number; entries are never changed |
| `Streams.XAddAnswers` | `src/handler.c:145-280` | after any run of XADDs: an ID is taken exactly when the stream is empty and it can be read, or it is explicit and above the last ID and 0-0, or it is `*` or `ms-*`; the error of every other; the ID is the explicit one, the least free number for `ms-*`, the least ID above the last that the clock allows for `*` |
| `Streams.ReadIsSuffix` | `src/utils.c:348-413` | on a valid stream XREAD returns exactly the entries whose millisecond is larger than the cursor's, or the same with a larger number: a suffix |
| `Streams.ReadIsCompleteIff` | `src/utils.c:348-413` | on any stream, also one with steps back, XREAD returns every entry above its cursor exactly when none of them is above the last entry |
| `Streams.StepBackHides` | `src/utils.c:348-413` | XADD 5-0 and XADD 3-*: XREAD from 4-0 does not return 5-0 |
| `Streams.ExactlyOnce` | `src/handler.c:222-303` | over any interleaving of XADDs and reads, what was received and what the next read returns are every entry above the start, once and in order |
| `Streams.StepMissesIff` | `src/handler.c:474-549` | a step leaves a client blocked below an entry of its stream exactly when it blocks one there; no XADD does, not even one that steps back |
| `Streams.NoLostWakeup` | `src/handler.c:474-549` | in a run without XADDs that step back, no client is ever blocked while its stream holds an entry above its min_id, exactly when no XREAD BLOCK named an ID below an entry that its stream held |
| `Streams.TailMissesAfterStepBack` | `src/handler.c:515-527` | XADD 5-0, XADD 3-* and XREAD BLOCK $ leave a client blocked below 5-0 |
| `Streams.WakesWithNewEntry` | `src/handler.c:120-142` | the XADD that first brings an entry above the min_id wakes the client with exactly that entry, even if it steps back; one at or below leaves it blocked |
| `StreamChain.LinkedStream.XAdd` | `src/handler.c:222-303` | appending in place computes the specified step: which IDs are taken in terms of last_ms and last_seq, the ID chosen, and the entry at the end |
| `StreamChain.LinkedStream.XRead` | `src/utils.c:348-413` | the walk over the linked entries returns the filtered entries |
| `StreamChain.WakeBlockedReaders` | `src/handler.c:289-296` | the loop over the clients delivers to exactly the blocked readers of the key that have an entry |
| `CStrings.AtoiOfDecInt` | `src/parser.c:10-73` | printing a number and reading it back is the identity |
| `CStrings.AtoiReads` | `src/parser.c:10-73` | a number is read past white space and a sign, up to the first byte that is no digit |
| `CStrings.AtoiOfWords` | `src/parser.c:10-73` | what does not start like a number, after white space, reads as 0 |
| `CStrings.DigitOfDec` | `src/main.c:263-279` | digit k from the right of a printed number is its number of 10^k modulo 10 |
| `Commands.EveryName` | `src/parser.c:112-198` | findRedisCmd returns each of its 60 commands for exactly one name, given as a literal text, in any mixture of upper and lower case |
| `Commands.OtherNames` | `src/parser.c:112-198` | it returns UNKNOWN exactly for all other texts |
| `Resp.ParseNamed` | `src/parser.c:10-73` | a name and its arguments, sent as an array, parse to the command of that name with these arguments, recorded or not |
| `Resp.ParseConfig` | `src/parser.c:47-62` | CONFIG is read with its second word |
| `Resp.ParseExec` | `src/parser.c:10-73` | the 14 bytes of `exec` parse to EXEC |
| `Resp.ReadWordIff` | `src/parser.c:28-45` | a word is read exactly when the length before it is its own |
| `Commands.FindInvertsPrint` | `src/utils.c:458-529` | findRedisCmd inverts cmd_to_string for every recorded command but ZADD, ZREM and GEOADD |
| `Resp.ParseInvertsPrint` | `src/parser.c:10-85` | parsing a printed request gives it back and moves past exactly its bytes, whatever follows |
| `Resp.ReadLoopInvertsPrintAll` | `src/main.c:593-607` | the read loop on concatenated printed requests yields exactly them, and the byte counts add up to the whole |
| `Resp.NoiseIsSkipped` | `src/main.c:593-604` | bytes without a star before a stream do not change what is read |
| `Resp.RejectedIsSkipped` | `src/main.c:593-607` | after a rejected request the loop goes on at the next star |
| `Resp.WrongLengthIsRejected` | `src/parser.c:28-45` | a word whose length is wrong rejects the request |
| `Resp.ParsedFits` | `src/parser.c:10-73` | every recorded command that the parser returns fits the parser's buffers |
| `Resp.ReceivedIff` | `src/parser.c:10-73` | a recorded command can come from the parser exactly when it has at most 16 arguments of at most 255 bytes without CR and NUL |
| `Cuts.CutIff` | `src/main.c:571-607` | a stream of printed requests that arrives in two buffers is read as it was sent exactly when the cut is between requests, or before or inside the CRLF that ends one |
| `RespReader.ParseRequest` | `src/parser.c:10-73` | the loop that fills a request word by word computes the parser of the specification |
| `RespReader.ReadRequests` | `src/main.c:590-607` | the cursor loop with resynchronisation computes the read loop of the specification |
| `Keyspace.ApplyIsLocal` | `src/handler.c:804-954` | a data command changes no bucket but its key's |
| `Keyspace.UnnotifiedChange` | `src/handler.c:804-954` | a command changes the keyspace without notifying watchers exactly when it is a BLPOP that finds an element or a GEOSEARCH of a missing key |
| `Keyspace.RepeatableApplies` | `src/handler.c:804-954` | a repeatable command has the same effect in any two surroundings without blocked clients |
| `Effects.EffectiveIff` | `src/handler.c:804-954` | a command changes the keyspace exactly when a condition on the command and the entry of its key holds |
| `Effects.RepeatsIff` | `src/handler.c:804-954` | carrying the record of a command out again, at another time and with nobody blocked, never fails and leaves what the command left exactly when the command repeats |
| `DataCommands.OtherKeyStaysIff` | `src/handler.c:804-954` | a command leaves another key as it was exactly when it does not make a new list, stream or sorted set in a bucket headed by that key |
| `DataCommands.GetAfterSet` | `src/handler.c:56-84` | a SET without EX and PX is found at every later clock reading |
| `DataCommands.GetAfterTimedSet` | `src/utils.c:94-156` | a SET with EX or PX is found until that many seconds, or milliseconds, have passed; -1 counts as no time |
| `DataCommands.IncrCounts` | `src/transaction_handler.c:33-71` | INCR of the text of any int but the largest leaves the text of the next one; of a missing key 1 |
| `DataCommands.IncrKeepsText` | `src/transaction_handler.c:33-71` | a text that reads as 0 and is not "0" stays |
| `DataCommands.PushIsListStep` | `src/list_handler.c:10-158` | LPUSH and RPUSH on the keyspace change the key's list as they do among the lists with their blocked clients |
| `DataCommands.LPopIsListStep` | `src/list_handler.c:251-301` | so does LPOP |
| `DataCommands.BlpopIsListStep` | `src/list_handler.c:355-387` | so does BLPOP |
| `DataCommands.ZAddOnKey` | `src/set_handler.c:60-126` | after ZADD the key holds each named member with the score before its last mention, and the others as they were |
| `DataCommands.ZRemOnKey` | `src/set_handler.c:244-265` | after ZREM the key holds the items of the other members |
| `DataCommands.GeoAddOnKey` | `src/set_handler.c:442-481` | GEOADD with a coordinate off the map changes nothing; otherwise it is ZADD of each place with its cell as the score |
| `DataCommands.XAddOnKey` | `src/handler.c:222-303` | XADD on the keyspace is XADD on the key's stream |
| `DataCommands.ParseIdReads` | `src/handler.c:145-189` | the ID argument as a text: `*`, `ms-*`, `ms-n` and `*-n` with numbers in decimal |
| `DataCommands.ParseIdWithoutDash` | `src/handler.c:145-189` | a text without a dash, other than `*`, is no ID |
| `Orders.ApartIff` | `src/handler.c:804-954` | two commands that touch no keys of one bucket, carried out here as b, a and as records elsewhere as a, b, end alike exactly when both repeat |
| `Orders.SameKeyIff` | `src/handler.c:804-954` | two recorded commands on one key end alike in the two orders exactly when neither order fails and both end with the same entry of the key |
| `Orders.PushesEndAlike` | `src/list_handler.c:10-89` | two RPUSHes of one element end alike in both orders exactly when the elements are the same |
| `Orders.IncrsEndAlike` | `src/transaction_handler.c:33-71` | two INCRs of one key end alike in both orders |
| `SortedSets.PutAllKeepsIff` | `src/set_handler.c:60-126` | ZADD leaves the set as it is exactly when it leaves the member-to-score map as it is |
| `Transactions.NoMissedConflict` | `src/transaction_handler.c:86-189` | over every interleaving without silent changes, an EXEC that commits finds the whole bucket of each key it watches as WATCH left it |
| `Transactions.NoMissedConflictOfLoudRun` | `src/transaction_handler.c:86-189` | the same for every interleaving of commands other than BLPOP and GEOSEARCH |
| `Transactions.ExecuteKeepsGuardIff` | `src/handler.c:26-39` | a data command leaves a clean watcher clean over a changed bucket exactly when it changes it silently |
| `Transactions.MissedExactlyWhenSilent` | `src/transaction_handler.c:86-189` | after WATCH and MULTI of one client and one command of another, EXEC commits over a changed bucket exactly when that command was silent |
| `Interleavings.RegisteredAlways` | `src/transaction_handler.c:13-28` | in every reachable state the watcher lists hold exactly the clients that watch a key of the bucket |
| `Interleavings.DirtiedIff` | `src/handler.c:26-39` | a command makes a client dirty exactly when it notifies and the client watches a key of the same bucket |
| `Interleavings.SlottedAlways` | `src/transaction_handler.c:13-28` | in every reachable state a client has exactly one slot in a bucket's list for each key of the bucket that it watches |
| `Interleavings.ForgetsSafelyIff` | `src/transaction_handler.c:13-28` | UNWATCH, DISCARD and an aborting EXEC free no key twice exactly when no two watched keys share a bucket |
| `Interleavings.AbortLeavesTable` | `src/transaction_handler.c:86-147` | a dirty EXEC and a DISCARD go through under that condition, change no key and log nothing, and leave the client as new and on no watcher list |
| `AfterExec.CommitKeepsWatches` | `src/transaction_handler.c:86-128` | in every reachable state an EXEC that commits leaves the client watching what it watched, and dirty exactly when one of its commands notifies a bucket of those keys |
| `AfterExec.NextExecCommitsIff` | `src/transaction_handler.c:86-128` | the next MULTI and EXEC of the client commit exactly when the committed transaction notified no bucket of the keys watched for it |
| `AfterExec.UnwatchForgets` | `src/transaction_handler.c:13-28` | UNWATCH leaves the client clean and on no list, or frees a key twice when two watched keys share a bucket |
| `AfterExec.RefusedIsNothing` | `src/transaction_handler.c:74-189` | MULTI and WATCH inside a transaction, EXEC and DISCARD outside one, change nothing |
| `Interleavings.QueueIsLocal` | `src/handler.c:663-672` | a client's queue is determined by its own commands alone |
| `Interleavings.Serialisable` | `src/transaction_handler.c:86-128` | after any interleaving the keyspace is that of a serial history in which each committed transaction is one block at its EXEC and aborted ones do not occur |
| `Interleavings.HistoryIsSent` | `src/transaction_handler.c:86-128` | every command of that serial history was sent by a client |
| `Interleavings.LogIsHistory` | `src/handler.c:374-410` | after any interleaving the append-only file holds the logged commands of that serial history, in its order |
| `TransactionServer.LiveServer.Handle` | `src/handler.c:650-708` | the dispatch over client objects and watcher lists computes the step of the specification |
| `TransactionServer.LiveServer.HandleExec` | `src/transaction_handler.c:86-128` | EXEC sends each queued request through handle again, or aborts |
| `TransactionServer.LiveServer.HandleWatch` | `src/transaction_handler.c:150-189` | the loop adds the client to each key's list and each key to the client's |
| `TransactionServer.LiveServer.Vacate` | `src/transaction_handler.c:18-23` | the inner loop empties the client's slots and frees the key once for each |
| `TransactionServer.LiveServer.DeleteWatchedKeys` | `src/transaction_handler.c:13-28` | the two nested loops take the client off every list it is on, or free a key twice |
| `TransactionServer.LiveServer.NotifyWatchers` | `src/handler.c:26-39` | the loop makes exactly the listed clients dirty |
| `TransactionServer.LiveServer.WriteToFile` | `src/handler.c:374-410` | the pieces written one after the other are the printed request at the end of the file |
| `TransactionServer.LiveServer.constructor` | `src/main.c:474-477` | start-up has an empty keyspace and no watchers |
| `Aof.ReplayOfLog` | `src/main.c:224-235` | replaying the file of any readable history carries out its logged requests in order, as they read back |
| `Aof.ReplayLeaves` | `src/main.c:224-235` | when the other commands are recorded faithfully, replay leaves what the history without its ZADD, ZREM and GEOADD commands leaves |
| `Aof.ReplayRebuildsIff` | `src/handler.c:374-410` | after a history that replay rebuilds, it rebuilds one command more exactly when that command repeats on the table that it met |
| `Aof.ReplayRebuilds` | `src/main.c:224-235` | replay rebuilds a whole history in which every command repeats on the table that it met |
| `Aof.ReplayRebuildsRun` | `src/handler.c:374-410` | replaying the file that any interleaving of clients and transactions has written rebuilds the final keyspace, when every command of the serial history repeats |
| `Aof.ReplayRebuildsSafeRun` | `src/handler.c:374-410` | the same from the requests alone: no command that can change the keyspace but SET, INCR, LPUSH, RPUSH, LPOP and XADD, without expiries or clock IDs, and nobody blocked |
| `Aof.ZAddIsNotRebuilt` | `src/handler.c:374-410` | a sorted set that a ZADD created is gone after replay |
| `Aof.BlpopIsNotRebuilt` | `src/handler.c:374-410` | an element that a BLPOP popped is back after replay |
| `Restarts.StartExecutes` | `src/main.c:224-235` | a server that executes what it reads from its file leaves the replayed keyspace, and its file is the old one followed by the logged requests among them |
| `Restarts.StartDoublesLog` | `src/main.c:224-235` | each start from the file appends the whole log to it again |
| `Restarts.LogAfterStarts` | `src/main.c:224-235` | after n starts the file holds 2^n copies of the log |
| `Restarts.ReplayAfterStarts` | `src/main.c:224-235` | a replay of the file after n starts leaves the fold of 2^n copies of the log |
| `Restarts.SetsSurviveStarts` | `src/main.c:224-235` | a log of SETs without expiry gives the same keyspace after any number of starts |
| `Restarts.CounterGrows` | `src/transaction_handler.c:33-71` | a replay of the file after n starts from a log of c INCRs of a key makes it read c times 2^n |
| `Restarts.TableIsUnique` | `src/utils.c:94-130` | a map and the order of keys in each chain determine the table |
| `Replication.PrefixAlways` | `src/main.c:593-623` | in every reachable state each replica's keyspace is the fold of a prefix of the writes sent, its offset is their bytes and 37 per GETACK handled, and every ACK reports the offset before its own GETACK |
| `Replication.GetAckBytes` | `src/utility_handler.c:121-127` | the request that WAIT sends, byte for byte, 37 in all |
| `Replication.AcknowledgedIsLast` | `src/utility_handler.c:73-93` | the ACKs read back set the offset of the last one |
| `Replication.AttachedAlways` | `src/main.c:610-623` | in every reachable state the master's offset is the bytes of all writes sent, the captured offset those before the last WAIT, and what is in flight to a replica exactly the rest of what was sent |
| `WaitGuarantees.FirstWaitIsSound` | `src/utility_handler.c:95-137` | while at most one WAIT has sent GETACKs, every replica whose last ACK has reached the captured offset has carried out every captured write |
| `WaitReplies.StepReplies` | `src/main.c:504-531` | in every step of every run: a WAIT is answered, at once or by a poll, exactly when the replicas whose last ACK has reached its offset are as many as wanted or its time is up, and the answer is their number; the offset is the bytes of the writes sent when the last WAIT began |
| `WaitReplies.AnswerIsSound` | `src/utility_handler.c:95-137` | the answer to the WAIT of a step is the number of replicas whose last ACK has reached the bytes of all writes sent before it, and, while at most one WAIT has sent GETACKs, that many replicas hold all these writes |
| `Replication.CountIsSize` | `src/utility_handler.c:103-108` | the count of the loop is the size of the set of those replicas |
| `WaitGuarantees.WaitNeedsDrift` | `src/main.c:504-531` | for every WAIT, a replica's last ACK shows all captured writes carried out exactly if it reaches the captured offset after subtracting 37 per earlier GETACK |
| `WaitGuarantees.MasterFoldsIff` | `src/main.c:610-623` | in a run without MULTI the master's keyspace is at every point the fold of the writes it has sent, exactly when every command repeats on the table that it met |
| `WaitGuarantees.CaughtUpIsEqual` | `src/main.c:610-623` | in a run without MULTI in which every command repeats, a replica with nothing in flight has the master's keyspace |
| `CaughtUp.CommandKeepsEqualIff` | `src/main.c:610-623` | one data command on a caught-up pair leaves the two equal, once it has arrived, exactly when it repeats on the table that it met |
| `CaughtUp.CommitKeepsEqual` | `src/transaction_handler.c:86-128` | a committed transaction with nothing in between leaves a caught-up pair equal, when every queued command repeats |
| `CaughtUp.CommitOneKeepsEqualIff` | `src/transaction_handler.c:86-128` | with one queued command exactly when it repeats |
| `CaughtUp.AbandonedKeepsEqualIff` | `src/transaction_handler.c:86-147` | a discarded or aborted transaction leaves a caught-up pair equal exactly when the writes that it queued, one after the other, leave the table as it is |
| `CaughtUp.AbandonedOneKeepsEqualIff` | `src/transaction_handler.c:86-147` | with one queued command exactly when it is not a write or has no effect |
| `CaughtUp.NoEffects` | `src/utils.c:458-476` | queued writes that each have no effect leave the table as it is |
| `CaughtUp.EffectsMayCancel` | `src/list_handler.c:10-89` | the converse fails: an RPUSH and an LPOP each have an effect, and together none |
| `CommitOrder.ApartKeepsEqualIff` | `src/main.c:610-623` | a committed transaction of one write with another client's command before its EXEC, on keys of different buckets, leaves a caught-up pair equal exactly when both repeat |
| `CommitOrder.SameKeyKeepsEqualIff` | `src/main.c:610-623` | with both on one key exactly when the two orders end with the same entry of that key, and neither fails |
| `ReplicationGaps.LaterWaitMiscounts` | `src/utility_handler.c:95-137` | a run in which a third WAIT counts a replica whose write is still in flight |
| `ReplicationGaps.DiscardedWriteIsReplicated` | `src/main.c:610-623` | a run in which a discarded write is carried out on the replica and never on the master; the two keyspaces differ exactly when the write has an effect |
| `Failures.DiscardedSetIsReplicated` | `src/main.c:610-623` | MULTI, SET k v and DISCARD leave the key on the replica only |
| `Failures.CommitReorders` | `src/main.c:610-623` | MULTI and SET k a of one client, SET k b of another, and EXEC: the master ends with a, the replica with b |
| `Failures.ZAddIsNotReplicated` | `src/utils.c:458-476` | one ZADD outside transactions leaves the replica without the set |
| `Failures.WaitMiscountsSet` | `src/utility_handler.c:95-137` | after two WAITs, SET k v and WAIT 1 reply 1 while the SET is in flight |
| `Failures.ExecMissesBlpop` | `src/list_handler.c:355-388` | WATCH k, MULTI and a BLPOP of another client: the EXEC commits over the changed list |
| `Failures.NextExecAborts` | `src/transaction_handler.c:86-128` | after WATCH k, MULTI, SET k v and a committed EXEC, the next MULTI and EXEC abort |
| `Failures.RPushPassesOver` | `src/list_handler.c:38-89` | a client blocked in this millisecond stays blocked, and the element stays |
| `Failures.RPushLeavesOneBlocked` | `src/list_handler.c:38-89` | RPUSH k x y with two clients blocked on k leaves one blocked on a list that has y |
| `Failures.RangeStartsOver` | `src/list_handler.c:161-225` | LRANGE k 1 5 on a list of three returns all three |
| `Failures.GeoposMovesDown` | `src/set_handler.c:442-532` | at longitude 180, in the middle of latitude cell 1, GEOPOS answers cell 0 |
| `EventLoop.CopyRequestToBuffer` | `src/main.c:263-279` | the buffer filled by offset holds the printed request exactly when it fits |
| `EventLoop.Slave.HandleBuffer` | `src/main.c:590-616` | the loop over one recv handles each message and adds its bytes, as the specification says |
| `EventLoop.Master.HandleWait` | `src/utility_handler.c:95-137` | the offset is captured, and the client is answered at once with the number of replicas that have reached it, or every replica is asked and the client marked as waiting, blocked and timed |
| `EventLoop.Master.PollForWait` | `src/main.c:504-531` | the WAIT ends exactly when the connections whose repl_offset has reached the captured offset are as many as wanted or the client's time is up; the reply is their number, and the loop over the clients clears their marks |
| `EventLoop.Master.ReleaseExpired` | `src/main.c:487-497` | the pass over the clients releases those that are blocked, not waiting, and due |
| `Waiting.StrandsIff` | `src/utility_handler.c:118-136` | a step leaves a client blocked for whom no reply is meant exactly when it is a WAIT that begins while another client, still blocked, waits |
| `Waiting.NobodyStrandedIff` | `src/utility_handler.c:118-136` | over any run every client that WAIT has blocked is at all times the one that will get the reply, exactly when no WAIT overtakes another |
| `Waiting.TimesOutIff` | `src/utility_handler.c:129-136` | a WAIT of ms milliseconds, until it ends or another begins, times out at the clock readings from its beginning plus ms on; one of 0 never does |
| `Waiting.OvertakenReleasedIff` | `src/main.c:487-531` | an overtaken client is released exactly when it has a timeout, a WAIT has ended since, and a later pass over the clients finds the timeout due |
| `Waiting.OvertakenForGood` | `src/main.c:487-531` | overtaken without a timeout, a client stays blocked for good |
| `Waiting.ReleasedWithNull` | `src/main.c:487-531` | a client overtaken in a WAIT of 100 ms is blocked until the pass at its own timeout |
| `EventLoop.Master.CountReplicas` | `src/utility_handler.c:103-108` | the loop counts the replicas that reached the captured offset |
| `EventLoop.Master.AfterHandle` | `src/main.c:613-623` | the offset grows and every replica is sent the write, or the request does not fit its buffer |

## Left out

- Sockets, poll, accept, disconnects, files and the manifest: only the bytes exchanged and the order of steps are modelled. A link delivers whole messages; what a cut inside one does is `Cuts.CutIff`, and not composed with runs.
- malloc and free other than the freeing of watched keys, fixed reply buffers, the 64 watched keys and the client list's capacity: sequences are unbounded; the sizes that a property needs are in its statement.
- LRANGE with the smallest int as a bound, whose absolute value C leaves undefined.
- Uninitialised memory: the next pointer of a new entry in store_set_list, store_set_stream and store_set_zset is taken as null.
- 64-bit overflow of stream IDs: IDs are unbounded integers. Replication offsets are bounded by the largest long long.
- Keyspace.Apply: the values of the data commands are sequences here; their in-place forms are proved in the list, stream, sorted set and hash table parts and not composed with the dispatch.
- Keyspace.ParseId: an ID whose parts are not plain decimal numbers counts as malformed.
- Transactions.Handle: WAIT, XREAD BLOCK, SUBSCRIBE and the replies inside a transaction have no effect on the keyspace and are not modelled; a disconnecting client stays on the watcher lists.
- CaughtUp.CommitKeepsEqual: with nothing in between; one direction for several commands, whose differences can cancel; exact for one, and for abandoned transactions of any length.
- CommitOrder.SameKeyKeepsEqualIff: one queued write and one command of another client in between, which is recorded when it is on the same key; two keys of one bucket and longer interleavings are not covered.
- Replication.Proper: clients' writes arrive in the form in which the server prints them; the master counts the bytes received, its replicas the bytes printed.
- Effects.RepeatsIff: where the record is carried out nobody is blocked; a replica or a replay with blocked clients of its own is not modelled.
- Waiting.StrandsIff: is_blocked of clients in XREAD or BLPOP is not composed with WAIT; the loop that ends a WAIT also clears is_waiting of the replicas' connections, which nothing reads.
- Replication.Step: replies that a replica's handlers send to the master are dropped; one master, replicas attached at offset 0 from the start.
- ReplicationGaps.LaterWaitMiscounts: shown for one replica, which is enough for a miscount.
- haversine distance and the distances of GEODIST and GEOSEARCH: they rest on trigonometric functions.
- RDB streams and read_rdb_file: unfinished or unused decoders.
- XRANGE, XREAD of several streams: the first compares ID components separately, the second works on undersized arrays.
- Pub/sub, AUTH and ACL, CONFIG, INFO, KEYS and TYPE: thin reply formatting with only easy claims.
