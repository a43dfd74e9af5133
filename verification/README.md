# Pendem, verified

Pendem is an in-memory, Redis-compatible cache server written in Go. This project models its
core in Dafny and proves what that core is for:

- **Eviction** (`Lru`, `LruCache`, `StackInclusion`). An LRU under a capacity and a memory
  limit, once as a value and once as a doubly linked list with a map of its nodes and a
  running byte count. What is evicted is exactly characterised, and a bigger cache never
  loses a hit as long as it never runs short of memory itself (short of memory it can, by
  example).
- **Shards and cache** (`Shard`, `Cache`, `ShardCache`, `Deadlines`, `Bits`, `Scan`, `CacheScan`,
  `Pattern`, `Ranges`). Time is an explicit input. A run of operations on any number of shards differs
  from a map with deadlines exactly where a live item was evicted; while nothing is, sweeping
  and sharding are invisible to GET and TTL, and where a sweep does show is characterised.
  Deadlines are followed in numbers from the text of a SET to the GET that misses.
  What an iteration with SCAN returns is characterised, too, when every call sees the keys in
  an order of its own and when all see the same. The fast wildcard matcher is a glob matcher
  on exactly the patterns with stars at the ends only.
- **RESP** (`Bytes`, `Arithmetic`, `Resp`, `RespStream`, `Wire`). The recursive parser with its depth counter and
  the encoder, as functions on bytes and as objects over a stream, with round trips on whole
  streams, and byte by byte. RESP2 is the Redis serialization protocol specification, sections "Simple
  strings", "Simple errors", "Integers", "Bulk strings" and "Arrays".
- **Persistence** (`Commands`, `Store`, `StoreLaws`, `Strings`, `StringHandlers`, `Handlers`, `Aof`,
  `AofFile`, `AofRestart`, `Conservation`, `Rdb`, `Restore`, `RdbFile`). Live handlers and
  replay are two interpreters of the same commands, each of which is also described by what
  its arguments leave behind; loading the bytes that the first logs
  gives the second the same contents, also when the file is cut off anywhere, and with what
  is logged behind the cut after a restart. String handlers and replay work on the sharded
  cache; while no Set evicts, it is the map that the theorems speak of, and a load evicts
  nothing either. A snapshot, saved and loaded, revives exactly the live items of every
  shard, and none is evicted on the way.
- **Transactions** (`Transactions`, `TxEffects`, `TxLaws`, `OptimisticLocking`, `TxRuns`,
  `Evictions`, `TxServer`). Any number of connections, a shared watcher table, one atomic step for each
  request. The watch table is sound in every reachable state, a committed EXEC means that no watched key was written, a
  connection is dirty under an exact condition on the history, and a transaction is its
  queue, run one by one at EXEC. What a committed EXEC may rely on when the cache evicts is
  proved, too.

Code that changes state is written as classes and loops; each method is proved against a
function of the old state, and the theorems are about those functions and about whole runs.

Findings where code falls short, each stated as an exact condition or by an example:

- An empty bulk string is returned before its line end is read, so a stream round trip holds
  if and only if no bulk string is empty (`Resp.StreamRoundTrip`), and an append-only file
  loads up to and including the first entry with an empty argument, provided that argument
  comes last, and otherwise up to the entry before (`Aof.EmptyArgumentEndsLoad`).
- Replay knows neither APPEND nor PX, it starts the time of an EX anew, and a ZADD that fails
  halfway is not logged. The commands whose effect a later load does not give back are exactly
  these: APPEND, SET with a deadline by EX or PX, and such a ZADD (`Aof.DurableExactly`,
  `Aof.DeadlineMoves`). The repository's README.md:35 promises both EX and PX.
- After a crash the program appends to the log right behind a torn entry, which then swallows
  as many of the next entries as it lacks arguments and is replayed with the arguments it has
  (`AofRestart.TornCommandSwallows`), or ends the load (`AofRestart.TornCommandLosesAll`,
  `AofRestart.TornCountEndsLoad`, `AofRestart.TornElementLengthEndsLoad`). An entry torn
  inside an argument is the worst case: it is replayed with an argument that was completed
  with bytes of the next entry, the line end of which nobody looks at
  (`AofRestart.TornArgumentIsMadeUp`); torn inside the last line end it comes back unharmed
  and all that follows is lost (`AofRestart.TornLineEndLosesRest`).
- `extractKeys` reports one key of a DEL, so a watcher of a later key is not told
  (`Conservation.ExtractKeysExactly`, `TxRuns.DelOfLaterKeysGoesUnseen`). Apart from that it
  reports exactly the keys that a command can change (`StoreLaws.ReportedExactly`).
- Watchers are marked before a handler looks at the arguments, so that a write command that is
  refused, and changes nothing, makes the EXEC of a watcher abort (`TxRuns.RefusedWriteAborts`).
  Every other aborted EXEC has a command behind it that can change a watched key
  (`TxRuns.AbortHasCause`).
- The time to live of a SET is multiplied into nanoseconds without a check: a multiple of 2^55
  seconds wraps around to no deadline at all (`Deadlines.HugeTimesWrap`).
- A Set that makes room removes keys that no command names, and their watchers are not told,
  so that EXEC commits although a watched string is gone
  (`Evictions.EvictedWhileWatched`). Exactly when a SET leaves all other keys alone is
  `Evictions.SetSparesOthersExactly`; what WATCH is worth with evictions is
  `Evictions.CommitMeansKeptOrEvicted`.
- A committed EXEC keeps its watches, so that its own write aborts the connection's next
  transaction (`TxRuns.OwnWriteAbortsTheNext`); UNWATCH takes nothing out of the table
  (`OptimisticLocking.TableIsArmed`, `OptimisticLocking.DirtyExactly`).
- SCAN ranges over a Go map at every call, so each call may see the keys in an order of its
  own. Iterations are then complete for all orders, patterns and counts if and only if no
  shard holds more than one unexpired key (`Scan.ShuffledScanDomain`,
  `CacheScan.CacheScanDomain`). What a client can rely on: a first reply that comes with
  cursor 0 has everything, and so has one to a COUNT larger than the number of keys (`Scan.FirstReplyIsComplete`,
  `Scan.LargeCountIsComplete`). If all calls saw the same order, which nothing ensures,
  iterations would be complete if and only if every shard held at most 10000 keys
  (`Scan.ScanDomain`). The comment at internal/engine/cache.go:195-196 speaks of cursor 1005
  for shard 1, offset 5; the code, and the model, encode it as 10005.
- A background sweep shows in the commands that do not look at deadlines: in EXISTS and DEL
  exactly when it took out a key they ask for (`Cache.SweepShowsExactly`,
  `Strings.SweepShowsInDel`), in MSETNX exactly when it took out all those that were there
  (`Strings.SweepShowsInMSetNX`).
- TTL goes through a float64: from 2^24 seconds on it may report one second too many
  (`Shard.LongTimesMayBeRoundedUp`, `Shard.RoundedUpExactly`), below it does not
  (`Shard.ShortTimesAreFloored`).
- A snapshot file names its shards; loading one into a cache with fewer shards is an index
  panic (`RdbFile.EndingOfBlocks`). Keys of 65536 bytes or more, and shard counts above 65536,
  which the configuration accepts, are written truncated: the file is then not read back, or
  into the wrong shards (`Rdb.FileRoundTripDomain`).
- A negative SCAN cursor is an index panic, unless nothing is looked up with it
  (`ShardCache.Cache.Scan`).

`dafny verify dfyconfig.toml` checks the project.

## Model

| member | source | states |
|---|---|---|
| Lru.ExactEviction | internal/engine/lru.go:43-79 | Add keeps the longest prefix of the recency order that both limits allow, in the same order, and puts the entry in front of it |
| Lru.OthersStayExactly | internal/engine/lru.go:43-79 | Add costs no other key its place if and only if there is no other entry than that of the key itself at the old end, or neither eviction guard opens on the entries without it |
| Lru.AddIsBounded | internal/engine/lru.go:43-79 | distinct keys, at most `capacity` entries and at most `maxMemory` bytes (or a single entry) are kept by Add under any limits |
| Lru.RemoveIsBounded | internal/engine/lru.go:96-105 | the same bounds survive Remove |
| Lru.MoveToFrontIsBounded | internal/engine/lru.go:86-94 | the same bounds survive the reordering of Get |
| Lru.AddFinds | internal/engine/lru.go:43-79 | the added key is found with the added item, whatever was evicted |
| Lru.AddFindsOthers | internal/engine/lru.go:43-79 | Add never changes the item of another key, and loses none when neither eviction guard opens |
| Lru.MovesExactly | internal/engine/lru.go:86-105 | Get takes an entry from its place to the front, Remove only takes it out; the others keep their order |
| Lru.MemIsBytes | internal/engine/lru.go:166-171 | memory is counted in bytes, those of the key and those of the value |
| LruCache.List.PushFront | internal/engine/lru.go:72-76 | the list of nodes gets one node in front and its links stay consistent |
| LruCache.List.Remove | internal/engine/lru.go:100 | exactly one node is unlinked, all others keep their order |
| LruCache.List.MoveToFront | internal/engine/lru.go:56 | the node moves to the front, all others keep their order |
| LruCache.LRU.Lookup | internal/engine/lru.go:8-21 | map and recency list hold the same keys: a key is in the map exactly when the list has an entry for it, and the map leads to that entry's node |
| LruCache.LRU.Get | internal/engine/lru.go:86-94 | returns the entry's item and moves it to the front; map, list and byte count still agree |
| LruCache.LRU.Remove | internal/engine/lru.go:96-105 | answers whether the key was there, and map, list and byte count lose exactly that entry |
| LruCache.LRU.RemoveOldest | internal/engine/lru.go:151-164 | exactly the last entry goes, from map, list and byte count |
| LruCache.LRU.EvictFor | internal/engine/lru.go:46-52 | the memory loop ends with what the specification keeps |
| LruCache.LRU.Add | internal/engine/lru.go:43-79 | the in-place Add on linked nodes computes the specified Add, whose eviction ExactEviction characterises |
| LruCache.LRU.Len | internal/engine/lru.go:116-118 | the number of entries |
| LruCache.LRU.MemoryUsage | internal/engine/lru.go:120-122 | the running count is the sum of the sizes of the entries held |
| StackInclusion.NextIncluded | internal/engine/shard.go:63-122 | with memory not in play, one operation on a smaller and a larger cache keeps the smaller recency list a subsequence of the larger, with no more free places |
| StackInclusion.RunsWithoutMemory | internal/engine/lru.go:46-52 | when no Set of a run opens the memory guard of the larger cache, none opens that of the smaller one, and both runs are those without a memory limit |
| StackInclusion.BiggerCacheKeepsEveryHit | internal/engine/lru.go:43-105 | after any run in which no Set opens the memory guard of the larger cache, under any memory limit or none, the smaller cache's list is a subsequence of the larger's and every hit in it is the same hit in the larger |
| StackInclusion.MemoryLimitBreaksInclusion | internal/engine/lru.go:46-52 | the guard is needed: five calls, of which the last one opens it, after which the bigger cache has lost a hit |
| Shard.NextIsBounded | internal/engine/shard.go:63-160 | the bounds of the LRU survive every shard operation |
| Shard.NextFinds | internal/engine/shard.go:63-160 | what any operation does to what is found under any key: a set gives the new item, a delete nothing, everything else leaves it or loses it only by eviction or expiry |
| ShardCache.Shard.Set | internal/engine/shard.go:63-69 | the new entries of the shard object, with the deadline computed from the clock |
| ShardCache.Shard.Get | internal/engine/shard.go:71-91 | a hit moves to the front, an expired entry is removed and not reported |
| ShardCache.Shard.TTL | internal/engine/shard.go:100-122 | the same look at the entry, answered with -2, -1 or the remaining seconds, rounded as float64 rounds them and cut off |
| Shard.ShortTimesAreFloored | internal/engine/shard.go:116-121 | below 2^24 seconds the reported time is the whole seconds that are left |
| Shard.LongTimesMayBeRoundedUp | internal/engine/shard.go:116-121 | from there on it may be one more |
| Shard.RoundedUpExactly | internal/engine/shard.go:100-122 | one second too many is reported exactly when no more nanoseconds are missing to the next second than the top bit of the seconds, times a second, over 2^53 |
| Shard.AnswersInNumbers | internal/engine/shard.go:71-122 | a key that is not there or past its deadline: GET misses and TTL says -2; one without a deadline: the value and -1; any other: the value and the seconds left |
| ShardCache.Shard.Delete | internal/engine/shard.go:93-98 | answers and removes |
| ShardCache.Shard.HasKey | internal/engine/shard.go:56-61 | whether the key is held, expired or not |
| ShardCache.Shard.CleanupExpired | internal/engine/shard.go:150-160 | removing while visiting the map in any order leaves exactly the unexpired entries, in order |
| ShardCache.Cache.CleanupShard | internal/engine/cache.go:127-136 | one shard's turn of the background sweep leaves all other shards alone |
| ShardCache.Shard.GetItems | internal/engine/shard.go:162-176 | the map of exactly the unexpired items, in whatever order they are visited |
| ShardCache.Shard.GetKeys | internal/engine/lru.go:139-149 | exactly the unexpired keys, each once, in whatever order they are visited |
| ShardCache.Shard.Scan | internal/engine/shard.go:275-295 | the page and the next offset of the specification, for the order in which this call saw the keys |
| ShardCache.Cache.Scan | internal/engine/cache.go:194-222 | for every cursor, negative ones included: the specified keys and cursor, or a panic, for some order in which the shards show their unexpired keys to this call |
| ShardCache.Shard.Restore | internal/engine/shard.go:178-185 | adds every item of the map once, in some order |
| ShardCache.Cache.Get | internal/engine/cache.go:63-66 | touches only the shard that the hash selects |
| ShardCache.Cache.Set | internal/engine/cache.go:58-61 | touches only the shard that the hash selects |
| ShardCache.Cache.TTL | internal/engine/cache.go:73-76 | touches only the shard that the hash selects |
| ShardCache.Cache.Delete | internal/engine/cache.go:68-71 | touches only the shard that the hash selects |
| ShardCache.Cache.Size | internal/engine/cache.go:90-96 | the sum over the shards, which SizeIsExact shows to be the number of keys |
| ShardCache.Cache.TotalCapacity | internal/engine/cache.go:112-117 | the bound that SizeIsExact proves |
| Cache.IndexIsModulo | internal/engine/cache.go:41-47 | for a power of two the masked index is the hash modulo the shard count |
| Cache.AfterIsWellPlaced | internal/engine/cache.go:41-117 | in every reachable state each key sits only in the shard its hash selects, and every shard respects the limits |
| Cache.HitIsLastWrite | internal/engine/shard.go:63-122 | a hit returns the value of the last set not followed by a delete, never past its deadline, under any evictions, sweeps and shard count |
| Cache.ReadsDifferExactly | internal/engine/shard.go:63-122 | under any limits, GET and TTL answer differently from a map with deadlines if and only if the last write is still alive and a Set of another key has pushed it out since |
| Cache.RoomyCacheIsTheMap | internal/engine/shard.go:63-122 | while no Set opens an eviction guard, hits and misses of GET and the answers of TTL are exactly those of a map with deadlines |
| Cache.SweepsAndShardsAreInvisible | internal/engine/shard.go:150-160 | while no Set opens an eviction guard, two runs that differ only in sweeps, shard count, limits and hash give the same answers |
| Cache.SweepShowsExactly | internal/engine/shard.go:56-61 | a sweep changes the answer of EXISTS or DEL about a key if and only if the key is held and past its deadline at the time of the sweep |
| Cache.SweepShowsInRun | internal/engine/shard.go:150-160 | the same for a sweep of any shard behind any run |
| Cache.SweepsShowOnlyInExpired | internal/engine/shard.go:150-160 | while no Set opens an eviction guard, two runs that differ only in sweeps, shard count, limits and hash hold the same item under every key, unless its last write is past its deadline |
| Strings.SweepShowsInDel | internal/handler/string.go:93-117 | DEL counts differently behind a sweep if and only if the sweep took out one of its keys |
| Strings.SweepShowsInMSetNX | internal/handler/batch.go:71-112 | MSETNX answers differently behind a sweep if and only if it would have found some of its keys and the sweep took out all of those |
| Cache.SizeIsExact | internal/engine/cache.go:90-117 | in every reachable state the sum of the shard sizes is the number of distinct keys, at most the total capacity |
| Deadlines.SetStoresDeadline | internal/handler/string.go:56-91 | SET stores the value with the deadline asked for: seconds behind EX and milliseconds behind PX, in any mixture of cases, and none when option or number cannot be read |
| Deadlines.SetPX | internal/handler/string.go:74-76 | SET with PX and a number of milliseconds at time `now` leaves the deadline `now` plus a million times that number |
| Deadlines.SetEX | internal/handler/string.go:70-73 | SET with EX and a number of seconds leaves `now` plus a thousand million times that number |
| Deadlines.HugeTimesWrap | internal/handler/string.go:70-73 | a multiple of 2^55 seconds leaves no deadline |
| Deadlines.ReplayStoresDeadline | internal/persistence/aof.go:150-166 | replay of EX counts the same seconds from its own clock; replay of PX, or of any other option, leaves no deadline |
| Deadlines.SetOnCache | internal/handler/string.go:56-91 | on the sharded cache under any limits, the key then holds the value with that deadline |
| Deadlines.ReplayOnTheCache | internal/persistence/aof.go:150-168 | the same for replay |
| Deadlines.ReadUntilDeadline | internal/engine/shard.go:71-122 | after any calls, GET and TTL find the last Set of a key up to its deadline and not past it, unless another Set has evicted it; none does while all values fit |
| Deadlines.ReadOfNothing | internal/engine/shard.go:71-122 | a key never set, or deleted and not set since, is a miss and -2 after any calls |
| Deadlines.SetThenGet | internal/handler/string.go:10-91 | from the text of a SET with PX or EX to the GET: it hits up to `now` plus that many units and misses after that, unless the value has been evicted |
| Bits.ValidShardCount | internal/config/config.go:191-193 | the check `n & (n-1) == 0` accepts exactly the powers of two |
| Bits.MaskIsModulo | internal/engine/cache.go:45 | masking with n-1 is the remainder modulo a power of two |
| Bits.EveryShardIsUsed | internal/engine/cache.go:41-47 | some hash selects every shard if and only if the shard count is a power of two |
| Pattern.FastMatchIsGlob | internal/engine/pattern.go:5-30 | for stars only at the ends, the conditionals decide what the recursive glob definition does, for every key |
| Pattern.FastMatchDomain | internal/engine/pattern.go:5-30 | it agrees with a glob on all keys if and only if stars stand only at the ends |
| Pattern.StarsInWords | internal/engine/pattern.go:5-30 | "*" matches everything; around bytes that are no stars, one behind asks for a beginning, one in front for an end, both for a part, and none for the key itself |
| Scan.ScanShard | internal/engine/shard.go:285-295 | the loop over the keys returns the page and the next offset of the specification, and panics exactly when a key is looked up at a negative offset |
| Scan.NextCursor | internal/engine/cache.go:194-222 | a cursor is 0 or strictly larger than the one given, and bounded, so that iteration ends |
| Scan.PageIsFirstMatches | internal/engine/shard.go:275-295 | a page is the first keys that match behind the offset, as many as asked for |
| Scan.CursorsAreLiteral | internal/engine/cache.go:194-222 | a call goes on at shard `cursor / 10000` and offset `cursor % 10000` and returns the first keys that match from there; it returns cursor 0 if and only if fewer are left than asked for |
| Scan.FullReplyCursor | internal/engine/cache.go:203-217 | a full reply that ends in shard `i` returns 10000 times `i`, plus the offset at which that shard was entered, plus the number of keys it gave |
| Scan.NegativeCursors | internal/engine/cache.go:194-222 | which negative cursors panic, in numbers |
| Scan.IterateIsComplete | internal/engine/cache.go:194-222 | when every call sees the same order, with at most 10000 keys in a shard, iterating returns every matching key ahead of the cursor |
| Scan.IterateIsSound | internal/engine/cache.go:194-222 | iterating with the same order at every call returns only matching keys of the cache, without any condition |
| Scan.IterateAll | internal/engine/cache.go:194-222 | when every call sees the same order, with at most 10000 keys in a shard and pattern "*", the pages together are all keys, each once, also when an offset of 10000 carries into the next shard |
| Scan.ScanDomain | internal/engine/cache.go:197-213 | when every call sees the same order: iteration is complete for all patterns and counts if and only if no shard holds more than 10000 keys |
| Scan.ShuffledIsSound | internal/engine/lru.go:139-149 | when every call may see an order of its own: iterating returns only matching keys, and ends |
| Scan.ShuffledScanDomain | internal/engine/lru.go:139-149 | when every call may see an order of its own: iteration is complete for all orders, patterns and counts if and only if no shard holds more than one key |
| Scan.FirstReplyIsComplete | internal/engine/cache.go:202-221 | in any order: the first reply has cursor 0 if and only if fewer keys match than COUNT, and then it has them all |
| Scan.LargeCountIsComplete | internal/engine/cache.go:202-221 | with a COUNT larger than the number of keys iteration is complete under any orders |
| CacheScan.CacheScanDomain | internal/engine/cache.go:194-222 | on every reachable state of the cache at any time: the two exact conditions in terms of the unexpired items of the shards, and the orders a cache may show are exactly the shuffles of one |
| Ranges.WindowIsPicked | internal/engine/list.go:64-83 | normalising and clipping the two positions selects exactly the elements between them, ends included |
| Ranges.WindowInNumbers | internal/engine/list.go:60-98 | from one position to another, both included, counted from the front or, when negative, from the end; nothing when they are the wrong way round |
| Ranges.WindowTooFar | internal/engine/list.go:60-98 | windows that reach beyond an end are cut off there, those outside are empty |
| Ranges.LRange | internal/engine/list.go:60-98 | the walk with its early exit returns exactly the picked elements |
| Ranges.RangeScoresAreFixed | internal/engine/sortedset.go:43-76 | ZRANGE gives the same scores at the same ranks however ties and map order fall out |
| Bytes.ParseIntRoundTrip | internal/server/resp.go:107-125 | printing and parsing of 64-bit decimals round trip |
| Bytes.DecimalPlaces | internal/server/resp.go:219-222 | a number is written with the digit of weight 10^i standing i places before the end, without leading zeros |
| Bytes.ParseIntExactly | internal/server/resp.go:117-120 | which texts are read as a number, and as which: an optional sign and digits, within 64 bits |
| Bytes.LEBytes | internal/persistence/rdb.go:80-147 | a fixed-width field holds the byte of weight 256^i at position i |
| Bytes.ReadLineSplits | internal/server/resp.go:73-88 | a line read and what is left over are the input |
| Resp.ParseEncode | internal/server/resp.go:51-251 | parsing an encoded value at any depth gives the value and leaves exactly what follows |
| Resp.StreamRoundTrip | internal/server/resp.go:51-251 | reading a stream of sendable values back gives them and leaves what follows, if and only if no bulk string in them is empty |
| Resp.EncodingIsPrefixFree | internal/server/resp.go:201-251 | equal bytes come from equal values and equal rests |
| Resp.ParsedIsSendable | internal/server/resp.go:51-198 | whatever the parser accepts is within nesting 32, 64-bit integers, the bulk limit, and lines without a line feed |
| Resp.ParsedSurvivesResend | internal/server/resp.go:51-251 | a parsed value survives encoding and parsing if and only if it has no empty bulk string |
| Resp.EmptyBulkStumbles | internal/server/resp.go:142-144 | an encoded value with an empty bulk string is not parsed back with its rest |
| Resp.ParseLeavesSuffix | internal/server/resp.go:51-198 | a successful read consumes a non-empty beginning of the input and leaves exactly the rest |
| Resp.ParseExtends | internal/server/resp.go:51-198 | a successful parse depends only on the bytes it consumed |
| Resp.CutValueFails | internal/server/resp.go:51-198 | every proper prefix of an encoded value fails, and does not panic |
| Wire.EncodingOfLines | internal/server/resp.go:208-222 | the bytes of simple strings, errors and integers |
| Wire.EncodingOfBulks | internal/server/resp.go:224-233 | the bytes of bulk strings, null or not |
| Wire.EncodingOfArrays | internal/server/resp.go:235-247 | the bytes of an array: its length line, and its elements one after the other |
| Wire.EncodingOfNullArray | internal/server/resp.go:236-239 | the bytes of the null array |
| Wire.NoValue | internal/server/resp.go:51-71 | what comes of no input and of an unknown type byte |
| Wire.LineOutcome | internal/server/resp.go:73-125 | what comes of every line of text or integer: the value before CRLF, or a failure |
| Wire.BulkOutcome | internal/server/resp.go:127-162 | what comes of every length of a bulk string, up to 536870912 bytes, whatever stands before the line feed of its length line |
| Wire.ArrayOutcome | internal/server/resp.go:164-198 | what comes of every length and depth of an array; 32 levels are allowed |
| Wire.ShortLines | internal/server/resp.go:127-140 | a length line that is only a line feed panics, a line that does not end fails |
| Wire.NestingOutcome | internal/server/resp.go:164-198 | of nested arrays exactly 32 levels are read; one more fails and leaves the depth counter one too high |
| RespStream.RESPParser.Read | internal/server/resp.go:51-71 | the parser object delivers what the function on bytes says, only ever consumes a beginning of its input, and restores its depth counter except for what a failed read leaks |
| RespStream.RESPParser.ReadBulkString | internal/server/resp.go:127-162 | the same for bulk strings, with the panic on a length below -1 |
| RespStream.RESPParser.ReadArray | internal/server/resp.go:164-198 | the same for arrays, with the leak of the too-deep path and the panics on a length below -1 and on one too large to allocate |
| RespStream.EncodeToBuilder | internal/server/resp.go:208-251 | the recursive encoder appends exactly the encoding |
| RespStream.EncodeRESP | internal/server/resp.go:201-206 | the encoder on a fresh builder |
| Commands.ParseLogEntry | internal/server/server.go:203-214 | a logged write command is read back as the same command |
| Wire.LoggedBytes | internal/persistence/aof.go:53-66 | the bytes logged for a command: the number of texts, then name and arguments, each behind its length |
| Commands.ArgumentByArgument | internal/server/server.go:203-214 | the bulk strings behind the name are the arguments, in order, null ones read as empty, and nothing else is |
| Commands.NameByFirst | internal/server/server.go:203-214 | a command goes by the text of its first element, in upper case |
| Commands.StringWriteNames | cmd/main.go:92-135 | the names of string commands that write, letter by letter, in any mixture of cases |
| Commands.StringReadNames | cmd/main.go:92-135 | the names of string commands that read |
| Commands.HashNames | cmd/main.go:101-108 | the names of commands on hashes |
| Commands.MoreHashNames | cmd/main.go:101-116 | the other ones, and LLEN |
| Commands.ListNames | cmd/main.go:111-116 | the names of commands on lists |
| Commands.SetNames | cmd/main.go:119-123 | the names of commands on sets |
| Commands.SortedSetNames | cmd/main.go:126-130 | the names of commands on sorted sets |
| Commands.TxNames | internal/server/transaction.go:3-42 | MULTI, EXEC and DISCARD |
| Commands.WatchNames | internal/server/server.go:247-286 | WATCH, UNWATCH and AUTH |
| Commands.WriteNameRoundTrip | internal/server/transaction.go:171-180 | every write command's name is read back as that command |
| Conservation.RepliesAddUp | internal/handler/hash.go:9-159 | after any run, HLEN, LLEN and SCARD equal what the replies of the run add up to, repeated members counted once, and so does ZCARD if no ZADD of the run stops halfway at a bad score |
| Conservation.CommandBalances | internal/handler/set.go:9-64 | one command changes a cardinality by exactly what its reply says; for sorted sets, unless it is a ZADD that stops halfway |
| Conservation.BooksExactly | internal/handler/sortedset.go:30-43 | that holds in every state, for every key, if and only if the command is not such a ZADD, or the question is not about sorted sets |
| Conservation.ChangesOnlyNamed | internal/server/transaction.go:182-214 | with the strings in a map without limits: a write command leaves every key alone that `extractKeys` does not report, in all five keyspaces; for strings on the cache, where a SET may evict, see Evictions.UnreportedKeptOrEvicted |
| Conservation.ExtractKeysExactly | internal/server/transaction.go:182-214 | with the strings in a map without limits, that holds in every state if and only if the command is not a DEL of several different keys; for a SET that may evict see Evictions.SetSparesOthersExactly |
| StoreLaws.ReportedExactly | internal/server/transaction.go:182-214 | the other half: a write command can change what is read under a key, in some state at some time, if and only if it is neither refused nor a ZADD that stops at its first score, and the key is reported; for DEL, is an argument |
| Evictions.UnreportedKeptOrEvicted | internal/server/transaction.go:182-214 | on the cache, under any limits: unless it is a DEL of several keys, a string command leaves a key that `extractKeys` does not report with its item, or evicts it, and the latter only when one of its Sets opens an eviction guard |
| Evictions.SetSparesOthersExactly | internal/engine/lru.go:43-79 | on the cache, under any limits: a SET leaves all keys alone that `extractKeys` does not report if and only if the shard holds no rival entries or neither eviction guard opens on them |
| Store.OneKeyspace | internal/engine/shard.go:187-273 | a write command touches one of the five keyspaces only |
| StoreLaws.RefusedExactly | internal/handler/hash.go:9-26 | which numbers of arguments each handler refuses, that of HSET among them; a refused command changes and logs nothing |
| StoreLaws.SetStores | internal/handler/string.go:56-91 | SET stores its second argument under its first |
| StoreLaws.DelRemoves | internal/handler/string.go:93-117 | DEL removes exactly its arguments and replies how many different ones were held |
| StoreLaws.MSetStores | internal/handler/batch.go:39-69 | after MSET a key holds the value behind its last mention, without a deadline |
| StoreLaws.MSetNXStores | internal/handler/batch.go:71-110 | MSETNX does nothing when one of its keys is held, and what MSET does otherwise |
| StoreLaws.AppendStores | internal/handler/string.go:136-165 | APPEND puts its argument behind the value that is alive and replies the new length; the deadline goes |
| StoreLaws.HSetStores | internal/handler/hash.go:30-38 | after HSET a field holds the value behind its last mention |
| StoreLaws.HSetKeeps | internal/handler/hash.go:30-38 | a field it does not mention keeps what it had |
| StoreLaws.HDelRemoves | internal/handler/hash.go:124-159 | HDEL removes exactly the fields named and replies how many different ones were there |
| StoreLaws.LPushOrder | internal/engine/list.go:20-27 | LPUSH leaves its values in front, the last one first, before the old list |
| StoreLaws.RPushOrder | internal/engine/list.go:29-36 | RPUSH leaves its values behind the old list, in order |
| StoreLaws.PopTakes | internal/engine/list.go:38-58 | LPOP replies and removes the first value, RPOP the last; from an empty list both reply null |
| StoreLaws.SAddAdds | internal/engine/set.go:17-28 | afterwards a set has exactly what it had and the members named |
| StoreLaws.SRemRemoves | internal/engine/set.go:30-41 | afterwards it has exactly what it had without the members named |
| StoreLaws.ZAddStores | internal/handler/sortedset.go:29-47 | a member has the score before its last mention, up to the first score that is no float |
| StoreLaws.ZAddKeeps | internal/handler/sortedset.go:29-47 | a member not mentioned before that keeps its score; the error reply comes exactly for a score that is no float, and nothing is logged then |
| StoreLaws.ZRemRemoves | internal/handler/sortedset.go:110-145 | ZREM removes exactly the members named and replies how many different ones were there |
| StoreLaws.ReplayIsLive | internal/persistence/aof.go:131-383 | replay of every command but SET and APPEND does what the handler did; APPEND is skipped |
| Strings.CommandRefinesStore | internal/handler/string.go:56-165 | while no Set opens an eviction guard, a string handler on the cache replies, logs and leaves the strings as the specification on maps says |
| Strings.RunRefinesStore | internal/handler/batch.go:39-112 | after any run of write commands in which no Set opens an eviction guard, the cache holds exactly the strings that replay is compared with, under any limits and shard count |
| Strings.ReplayRestoresCache | internal/persistence/aof.go:131-383 | after a durable run in which no Set opened an eviction guard, none opens one in the replay of its log on an empty cache of the same configuration, and both caches hold exactly the same strings |
| StringHandlers.StringHandler.ReplayString | internal/persistence/aof.go:150-177 | on the sharded cache, under any limits: what replay does for SET, DEL, MSET and MSETNX, and nothing for APPEND |
| StringHandlers.StringHandler.Set | internal/handler/string.go:56-91 | on the sharded cache, under any limits: new entry with the deadline of EX or PX, reply and log entry |
| StringHandlers.StringHandler.Delete | internal/handler/string.go:93-117 | on the sharded cache, under any limits: removes all keys, counts those that were there, logs |
| StringHandlers.StringHandler.Append | internal/handler/string.go:136-165 | on the sharded cache, under any limits: appends to a live value only, logs |
| StringHandlers.StringHandler.MSet | internal/handler/batch.go:39-69 | on the sharded cache, under any limits: later pairs overwrite earlier ones, logs |
| StringHandlers.StringHandler.MSetNX | internal/handler/batch.go:71-112 | on the sharded cache, under any limits: writes and logs only when no key was held |
| Handlers.Handler.HSet | internal/handler/hash.go:9-49 | new fields counted one by one, logs |
| Handlers.Handler.HDel | internal/handler/hash.go:124-159 | removed fields counted, unknown key not logged |
| Handlers.Handler.LPush | internal/handler/list.go:10-33 | values end up reversed in front; replies the length |
| Handlers.Handler.RPush | internal/handler/list.go:35-58 | values end up behind; replies the length |
| Handlers.Handler.LPop | internal/handler/list.go:60-96 | the first value or null; logs only a pop that found something |
| Handlers.Handler.RPop | internal/handler/list.go:98-134 | the last value or null; logs only a pop that found something |
| Handlers.Handler.SAdd | internal/handler/set.go:9-32 | new members counted once, logs |
| Handlers.Handler.SRem | internal/handler/set.go:34-64 | removed members counted once, unknown key not logged |
| Handlers.Handler.ZAdd | internal/handler/sortedset.go:10-54 | a bad score leaves the pairs before it and no log entry |
| Handlers.Handler.ZRem | internal/handler/sortedset.go:110-145 | removed members counted once, unknown key not logged |
| Handlers.FormatEntry | internal/persistence/aof.go:53-66 | the formatted bytes are the encoding of the command's log entry |
| Handlers.Handler.LogCommand | internal/persistence/aof.go:53-66 | the log grows by exactly that |
| Handlers.Handler.ReplayCollections | internal/persistence/aof.go:179-332 | the replay loops for hashes, lists, sets and sorted sets compute the replay function |
| AofFile.AOF.ReplayCommand | internal/persistence/aof.go:131-383 | one command replayed on cache and collections |
| AofFile.AOF.Load | internal/persistence/aof.go:77-107 | the read loop over a file replays exactly the commands that can be read from it, strings onto the sharded cache and the others onto the collections, whatever both hold |
| AofFile.LoadRestoresCache | internal/persistence/aof.go:53-107 | a log cut off anywhere, loaded into an empty cache of the same configuration, evicts nothing there and gives exactly the strings the live cache held at the last moment whose log was complete, and the same collections |
| Aof.ReplayFollows | internal/persistence/aof.go:131-383 | from equal contents, a durable command (no SET with a deadline, no APPEND, no ZADD that stops halfway) leaves live state and replayed state equal whenever it is replayed, and one that was not logged changed nothing |
| Aof.DurableExactly | internal/persistence/aof.go:131-383 | replay at any later time follows the live handler in every state if and only if the command is not a SET with a deadline by EX or PX, not an APPEND and not a ZADD that stops halfway |
| Aof.LogFollowsRun | internal/persistence/aof.go:131-383 | the same for runs from any two states of equal contents |
| Aof.LogRestoresRun | internal/persistence/aof.go:131-383 | replaying the log of any run of such durable commands from empty, at any times, gives the contents the handlers left |
| Aof.ReplayReproducesLiveState | internal/persistence/aof.go:53-107 | the same through the bytes of the file, when no argument is empty: parse what was logged, replay it, same contents |
| Aof.CutLogLoads | internal/persistence/aof.go:77-107 | loading a log cut off at any byte reads exactly the entries that are complete |
| Aof.CrashRecovery | internal/persistence/aof.go:77-107 | a log of durable commands without empty arguments, cut off anywhere, gives the state of the run at an earlier moment: the last one whose log was complete |
| AofRestart.AppendedBehindCut | internal/persistence/aof.go:37-51 | entries logged behind a cut log: the complete ones before the cut always come back, those behind it too when the cut is clean, and otherwise the load goes on with the torn bytes, as the next rows say |
| AofRestart.RestartRestoresBothRuns | internal/persistence/aof.go:37-107 | crash, restart, more commands, restart: when the cut was clean, the second load restores what the second run left, at whatever times |
| AofRestart.TornCommandSwallows | internal/persistence/aof.go:37-107 | a command torn between two arguments costs one following command for each argument it lacks, is replayed with the arguments it has, and everything behind is replayed |
| AofRestart.TornCommandLosesAll | internal/persistence/aof.go:37-107 | when fewer commands follow than it lacks arguments, none of them comes back |
| AofRestart.TornCountEndsLoad | internal/server/resp.go:164-198 | an entry torn inside its count ends the load |
| AofRestart.TornElementLengthEndsLoad | internal/server/resp.go:127-162 | so does one torn inside the length of an argument |
| AofRestart.TornElementTakes | internal/server/resp.go:127-162 | an entry torn inside the bytes of an argument: if enough bytes follow, the argument is completed with them, whatever they are, two more are taken for its line end, and the other arguments are read from behind those; otherwise the load ends |
| AofRestart.TornArgumentIsMadeUp | internal/persistence/aof.go:77-107 | if it was the last argument, the command is replayed with that made-up argument, and the load goes on in the middle of what follows |
| AofRestart.TornLineEndLosesRest | internal/persistence/aof.go:77-107 | torn inside its last line end, a command comes back as it was logged and nothing behind it does |
| Aof.EmptyArgumentEndsLoad | internal/server/resp.go:142-144 | how far a log with empty arguments loads, exactly |
| Rdb.FileRoundTrip | internal/persistence/rdb.go:80-153 | a saved file is read back as the same blocks, to the end |
| Rdb.FileRoundTripDomain | internal/persistence/rdb.go:96-152 | without any condition on the cache: a file is read back as the same blocks if and only if shard numbers and key lengths are below 2^16, counts and value lengths below 2^32 and deadlines 64-bit |
| Rdb.ItemBytes | internal/persistence/rdb.go:117-147 | the bytes of an item: key behind a length of two bytes, value behind one of four, seconds left and deadline in eight each, the lowest byte first |
| Rdb.SnapshotBytes | internal/persistence/rdb.go:80-153 | the bytes of a snapshot with one item, from "PENDEM" to the end |
| Rdb.HeaderIsChecked | internal/persistence/rdb.go:191-216 | nothing is read but behind "PENDEM" and version 1 |
| Rdb.CutFileLoads | internal/persistence/rdb.go:191-316 | a prefix of a file gives exactly its complete blocks, and ends well exactly at a block boundary |
| Rdb.BlockExtends | internal/persistence/rdb.go:221-312 | reading a block depends only on the bytes it consumed |
| Restore.RestoreKeepsAll | internal/engine/lru.go:43-79 | adding items that fit together to an empty shard evicts none, in any order |
| Restore.LiveItemsComeBack | internal/persistence/rdb.go:264-312 | what a block yields at a later time is exactly the items still alive then |
| Restore.SnapshotRoundTrip | internal/persistence/rdb.go:80-316 | saved at one time and loaded at a later one, every shard holds exactly the live items with the same values and deadlines |
| Restore.CutSnapshotRevives | internal/persistence/rdb.go:191-316 | the same for the shards whose blocks are complete in a cut-off file |
| RdbFile.WriteItems | internal/persistence/rdb.go:118-152 | the item loop writes the map in some order |
| RdbFile.SaveShard | internal/persistence/rdb.go:98-152 | a shard's block, or nothing when no item is live |
| RdbFile.Save | internal/persistence/rdb.go:63-153 | the nested loops write the specified file for snapshots of all shards |
| RdbFile.ReadItemMap | internal/persistence/rdb.go:264-312 | the item loop collects exactly the unexpired items of the block, or reports that the input is too short |
| RdbFile.LoadBlocks | internal/persistence/rdb.go:219-316 | every block in range before the end is restored into its shard; the outcome is the specified one |
| RdbFile.Load | internal/persistence/rdb.go:172-316 | the same behind a checked header |
| RdbFile.EndingOfBlocks | internal/persistence/rdb.go:219-238 | a load succeeds exactly when the file ends at a block boundary and names only shards that exist; naming another one panics |
| RdbFile.SaveThenLoad | internal/persistence/rdb.go:63-316 | what Save promises and what Load promises give: a savable cache comes back without error with exactly its live items, none evicted |
| RdbFile.CutThenLoad | internal/persistence/rdb.go:172-316 | for a file cut at any byte: the complete blocks' shards are revived, the rest stays empty, success exactly at a boundary |
| TxEffects.MarkWatchedIsMarked | internal/server/transaction.go:216-234 | the loops over keys and watchers amount to marking all watchers of all keys at once and dropping the keys |
| TxEffects.HandleOwn | internal/server/transaction.go:3-168 | the whole transaction state of a connection after any of its requests |
| TxEffects.HandleOthers | internal/server/transaction.go:216-234 | a request changes nothing of another connection but its dirty flag, and that exactly when a key it is listed for is written |
| TxEffects.HandleTable | internal/server/transaction.go:216-278 | an entry of the table comes only from an effective WATCH and goes only with a write of its key |
| TxLaws.MultiDoes | internal/server/transaction.go:44-69 | MULTI: its reply and all that is different afterwards |
| TxLaws.ExecRefuses | internal/server/transaction.go:71-87 | EXEC outside of a transaction is refused and changes nothing; one of a dirty connection aborts and clears everything the connection had queued and watched, and nothing else |
| TxLaws.ExecRuns | internal/server/transaction.go:89-110 | any other EXEC replies once for each queued command and leaves the keys watched |
| TxLaws.DiscardDoes | internal/server/transaction.go:113-127 | DISCARD: its reply and all that is different afterwards |
| TxLaws.WatchDoes | internal/server/transaction.go:129-157 | WATCH: the same, with the entries of the table |
| TxLaws.UnwatchDoes | internal/server/transaction.go:159-168 | UNWATCH clears the watched keys and nothing else |
| TxLaws.OthersDo | internal/server/server.go:217-286 | any other command is queued in a transaction, and refused or run outside of one |
| TxLaws.InTxExactly | internal/server/transaction.go:44-127 | in any run, a connection is in a transaction if and only if it has sent a MULTI without arguments and neither EXEC nor DISCARD since |
| TxLaws.WatchedExactly | internal/server/transaction.go:71-168 | in any run, a connection watches a key if and only if it has sent a WATCH of it outside of a transaction, and no UNWATCH, no DISCARD in a transaction and no EXEC that aborted since |
| OptimisticLocking.StepKeepsInv | internal/server/transaction.go:216-292 | every step keeps: watched keys of open connections are listed or the connection is dirty; lists are non-empty and free of duplicates; queues hold ordinary commands only |
| OptimisticLocking.EveryReachableStateIsGood | internal/server/transaction.go:216-292 | the same in every state that any run of any connections reaches |
| OptimisticLocking.DirtyGoesWithWatched | internal/server/connection.go:105-113 | a dirty flag is cleared only together with watched keys, queue and transaction, by the connection's own aborted EXEC or DISCARD |
| OptimisticLocking.CommitMeansUntouched | internal/server/transaction.go:71-111 | if a key stays watched and EXEC runs its queue, no write command naming the key has run in between, alone or inside any EXEC |
| OptimisticLocking.TableIsArmed | internal/server/transaction.go:237-292 | the table holds exactly the WATCHes not yet followed by a write of their key or the watcher's leaving |
| OptimisticLocking.DirtyExactly | internal/server/transaction.go:216-234 | a connection is dirty if and only if a key was written for which it had a WATCH outstanding, with no aborted EXEC or DISCARD of its own since |
| OptimisticLocking.AbortsExactly | internal/server/transaction.go:71-111 | after any run from the start of the server, an EXEC in a transaction aborts if and only if that is the case, and commits otherwise |
| TxRuns.AbortHasCause | internal/server/transaction.go:71-87 | behind every aborted EXEC is a write command that names a key of an outstanding WATCH, and unless it is refused, or a ZADD that stops at its first score, one that can change what is read there |
| TxRuns.UntouchedCommits | internal/server/transaction.go:71-111 | without such a command EXEC commits |
| TxRuns.RefusedWriteAborts | internal/server/server.go:217-245 | a refused write command changes no data and makes the EXEC of a watcher abort |
| TxRuns.ExecIsTheQueueOneByOne | internal/server/transaction.go:89-110 | a committed EXEC gives the state and replies of the queued commands sent one by one, one reply each |
| TxRuns.TransactionRunsWhatWasSent | internal/server/transaction.go:30-110 | between MULTI and a committed EXEC, under any interleaving, exactly the ordinary commands sent are run, in order |
| TxRuns.QueueIsWhatWasSent | internal/server/transaction.go:30-39 | the queue is what the connection sent since |
| TxRuns.TransactionLeavesNoTrace | internal/server/transaction.go:3-42 | up to EXEC or DISCARD, data, table and all other connections are as if the connection had sent nothing |
| TxRuns.OwnWriteAbortsTheNext | internal/server/transaction.go:89-103 | a committed EXEC that writes its own watched key makes the next transaction abort |
| TxRuns.CommitMeansUnchanged | internal/server/transaction.go:71-111 | with the handlers of the five keyspaces, the strings in a map without limits, and reads that may remove what has expired: a committed EXEC finds at every watched key what was there when it was watched, save a string past its deadline, if nobody deleted several keys with one DEL |
| Evictions.CommitMeansKeptOrEvicted | internal/server/transaction.go:71-111 | the same with the strings in the sharded cache under any limits: the string is still there, or it is gone, and if no Set of the run opened an eviction guard it is then past its deadline; the collections are as they were |
| Evictions.EvictedWhileWatched | internal/engine/lru.go:66-69 | a SET of another key evicts a watched string, the watcher does not become dirty, and EXEC commits |
| TxRuns.DelOfLaterKeysGoesUnseen | internal/server/transaction.go:185-188 | with such a DEL it need not |
| TxServer.Server.Accept | internal/server/connection.go:31-43 | a connection begins with nothing queued, watched or dirty, and is not yet in the table |
| TxServer.Connection.ResetTransaction | internal/server/connection.go:105-113 | all four transaction fields cleared |
| TxServer.Connection.MarkDirty | internal/server/connection.go:122-127 | only the dirty flag set |
| TxServer.Connection.WatchKey | internal/server/connection.go:115-120 | one more key watched |
| TxServer.Connection.TakeQueue | internal/server/transaction.go:89-94 | EXEC takes the queue and ends the transaction, and leaves watches and flag |
| TxServer.Server.RemoveWatcher | internal/server/transaction.go:243-266 | the filter loop removes the connection from one list and an emptied list from the table |
| TxServer.Server.AddWatcher | internal/server/transaction.go:268-278 | the connection is last in the key's list, once |
| TxServer.Server.MarkWatchedKeysDirty | internal/server/transaction.go:216-234 | the nested loops over shared connection objects compute the specified marking |
| TxServer.Server.CleanupWatchers | internal/server/transaction.go:280-292 | visiting the watched keys in any order takes the connection out of all their lists |
| TxServer.Server.ProcessCommand | internal/server/server.go:217-245 | marks watchers of a write command's keys, then runs the handler; unknown and invalid commands change nothing |
| TxServer.Server.HandleExec | internal/server/transaction.go:71-111 | refuses, aborts or runs the queue as specified |
| TxServer.Server.HandleMulti | internal/server/transaction.go:44-69 | begins a transaction once |
| TxServer.Server.HandleDiscard | internal/server/transaction.go:113-127 | clears the transaction state |
| TxServer.Server.HandleWatch | internal/server/transaction.go:129-157 | every argument is watched and listed, except inside a transaction |
| TxServer.Server.HandleUnwatch | internal/server/transaction.go:159-168 | only the watched keys are cleared |
| TxServer.Server.ProcessCommandWithTx | internal/server/server.go:247-286 | routes to transaction, queue or handler as specified |
| TxServer.Server.ProcessPipeline | internal/server/server.go:415-424 | one reply for each element, each element handled as a request |
| TxServer.Server.Serve | internal/server/server.go:382-412 | an array of arrays is a pipeline, anything else one request |
| TxServer.DispatchByFirst | internal/server/server.go:382-399 | which values are pipelines |
| TxServer.Server.Disconnect | internal/server/server.go:296-303 | closing and cleaning up is the step the run theorems speak of |
| TxServer.ServingIsRunning | internal/server/server.go:382-424 | what the server methods compute for an input value is a stretch of a run, so that the theorems on runs apply to them |

## Left out

- Sockets, timeouts, idle monitoring, connection counting and shutdown: a request arrives as a value, one at a time.
- Passwords: the model is the server without one, where AUTH is refused.
- Goroutines and locks: requests are atomic and the log is written in the order of execution; the read lock under which `LRU.Get` moves nodes is not modelled.
- Byte totals and deadlines are unbounded integers, except that the time to live computed by SET and by replay wraps around as `int64` does; a deadline behind the year 2262, which `UnixNano` cannot hold, is not modelled.
- The evictor for values other than strings, the creation time of items, and the unused TTL field of a snapshot beyond its bytes.
- Allocation failures: an array length above 2^42, which Go refuses on a 64-bit address space of 2^48 bytes, is a panic of the model; a smaller one for which memory does not suffice is not modelled. Neither are the texts of error messages.
- Upper-casing of non-ASCII letters in command names.
- The FNV hash and float parsing are parameters: any hash, and any partial parse to scores.
- Ranges.RangeScoresAreFixed: scores are real numbers there, and sorting is any arrangement by score; `sort.Slice` itself and NaN are not modelled.
- Ranges.LRange: works on the sequence of values rather than on list nodes; linked nodes are modelled for the LRU only.
- LruCache.List.PushFront: the list ends in null instead of a ring through a sentinel, and list element and entry are one object.
- Handlers.Handler.HSet: the collections are values in maps; sharing of hash, list, set and sorted set objects between callers is not captured, nor is the shard a collection lives in.
- Conservation.ChangesOnlyNamed: the strings are a map without limits there; evictions are the subject of module Evictions.
- Conservation.ExtractKeysExactly: the same; over all states of a cache with limits every command that sets a string may evict another key.
- TxRuns.CommitMeansUnchanged: the same; Evictions.CommitMeansKeptOrEvicted is about the cache. EXISTS, DEL and MSETNX do not look at deadlines and can tell whether a read has removed an expired string.
- Scan.IterateIsComplete: takes the same order at every call as given, which ranging over a Go map does not ensure; so do Scan.IterateAll and Scan.ScanDomain. Keys that come or go between the calls of an iteration are not modelled.
- Scan.IterateAll: the same.
- Scan.ScanDomain: the same; Scan.ShuffledScanDomain is the condition without it.
- RespStream.RESPParser.Read: how much a failed read has consumed is not specified, only that it is a beginning of the input; the connection is closed then.
- RespStream.RESPParser.ReadBulkString: the same for a failed read.
- RespStream.RESPParser.ReadArray: the same for a failed read.
- TxServer.Server.ProcessCommandWithTx: the branches of a server with a password.
- Aof.LogRestoresRun: reading commands are not part of a run. GET and TTL remove items past their deadline, which a later MSETNX or DEL can notice; a run of durable commands has no such items.
- Restore.SnapshotRoundTrip: loading is into a cache of the same configuration, as the format has no other promise.
- Read-only commands (GET, HGETALL, SMEMBERS and the like), MEMORY, POLICY, PING and ECHO: thin wrappers that would add only easy members.
- JSON snapshots, file renaming, flush timers and the configuration parser.
