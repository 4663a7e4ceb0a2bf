# Verified models of the storage benchmark and its libmmux client

The repository benchmarks storage systems and bundles libmmux, the client of a key-value store that is
sharded over blocks and replicated along chains. These Dafny modules model the client's logic and the
small concurrent, arithmetic and parsing components around it, and prove what they are for.
`dafny verify dfyconfig.toml` checks everything.

## What is modelled

**A batch means its commands, one by one, on one map.** `KvStore` says what that is: a server is any
function from a command and the value under its key to a new value and one response. `Scatter` cuts a
batch into sublists for any placement of keys on blocks; `ShardedClient` has the client itself, with its
slot table, `batch_command`, `handle_redirects` and the redo loop. The main result is a refinement:
scattering by `block_id`, running every sublist on its own block in any interleaving, and gathering by
position gives the responses and the store of the sequential run.

`Attempts` says what one pass of the redo loop meets while blocks move: for each command, whether its
block applies it or answers with an exporting or a moved sign, which chains it is then sent to, and the
slot table found afterwards. The client's `Attempt` is the code's own pass, `batch_command` followed by
`handle_redirects`, on the stores of the blocks. Signs are in band, so a reply that only reads like one is
followed or resent like one: a pass gives the responses and the store of the sequential run exactly if every
command is applied and no response reads like a sign; if it is given up it has applied, for every key,
some of the first commands on it. `RedoLoop`, and the client's `BatchWithRedo`, is the loop over such
attempts, so nothing is assumed of the ones given up, and a call need not return. `Redo` shows that the attempts given up leave no trace in
the store, and exactly when they show in the replies. `Redirects` has the signs and the requests they
cause; `RedirectedBatch` shows that redirected commands, which run after the rest of their batch, do not
change its meaning as long as a key that has moved stays moved, and when a put can tell.

`DeferredQueue` has the queues of memorymux over any client that keeps three promises, `MemoryMux` puts
them on the sharded client, which keeps them, and `AsyncBatch` is one batch of the asynchronous benchmark
on top. `InFlight` follows the connections when one fails inside `batch_command`, and `SinglePut` the put
of one key, whose replay and redirects get in each other's way.

**One chain.** `ReplicaChain` has the request/response protocol as a state machine over sends, replies,
failures and reconnections, and the client class with its retry loop.

**Concurrency.** `TokenBucket` and `MonitorQueue` are state machines over the atomic steps of any number
of threads; `ConsumeCall` and `QueueCalls` are the code of one caller, shown to be a run of those machines
whatever the others do in between. `TokenRate` counts the tokens granted against the rate asked for.

**CRC16.** `Gf2` has polynomials over two elements and division by x^16 + x^12 + x^5 + 1, the generator of
section 2 of ITU-T V.41; `HashSlot` proves the 256-entry table and the loop over it equal to that division.
The same routine stands in `src/redis.h`, lines 31 to 37.

**Arithmetic and sampling.** `RateLimiters` and `KeyGenerator`, over integers and reals.

**Parsers and printers.** `Text`, `CsvSerde`, `BinarySerde`, `Tables`, `Decimals` and `BlockNames`, with the
exact behaviour of `getline`, `read`, `to_string` and `stoi`.

**Run loops.** `Benchmark` has the loops with their unsigned counters, `ControlWorker` the wave scheduler.

## What the code does not do

Where a promised property fails, the models keep the code as it is and state exactly when the property
holds.

- Token bucket: the retry in `src/token_bucket.cpp:36` does not apply the burst clamp again. When the weak
  exchange fails spuriously a call can be paid for with idle time, and the bucket then grants more than
  one burst plus the time passed. It meets that bound in every interleaving exactly when there is no
  burst or the bucket was not idle for longer than a burst (`RateBoundExactly`).
- Token bucket, again: the cost of a token is cut to whole microseconds. Without spurious failures a new bucket
  keeps to the rate it was made for exactly when that divides 1000000, or nothing can be granted for want of a
  burst (`KeepsRateExactly`); above a rate of 1000000 it does not limit at all (`LimitedExactly`).
- Timed queue: `wait_for` may report a time-out to a thread that `notify_one` has already chosen; `pop`
  then throws without looking at the queue and the wake-up is lost. With such a platform no wake-up is
  lost, in any run, exactly when no pop is timed or only one thread pops (`NoLostWakeupExactly`).
- Retried put: `!ok` is reported for a key that had another value all along once a connection has
  failed. Whatever fails, `!ok` means stored exactly when the key is new or already has that value
  (`OkAlwaysMeansStored`).
- Other commands sent again: the caller gets the reply to a second one if a lost attempt was applied, and a
  stored value `!duplicate_key` reads as `!ok` after a failure. Whatever fails, a command looks as if it was sent
  once exactly when the two replies read the same and neither is lost that way (`LooksOnceExactly`,
  `ResentGetExactly`).
- Resent batch: a put answers `!duplicate_key` for its own earlier attempt (`RedoReplies`). Whatever
  moves meanwhile, the replies are those of one attempt exactly for a single pair or when all keys are
  there already (`RepliesSafe`), and so `wait_write` raises for a write that was applied exactly when an
  attempt that was given up had put its new key (`WriteOrder`).
- Put of one key: when the block has applied it, the answer is lost and the block then exports or moves, the
  caller gets `!duplicate_key` for its own put of a new key. It gets `!ok` exactly if nobody applied the put
  before the pass that returns, or that pass replays it on the block's own chain (`PutNewKeyExactly`,
  `ExportedPut`).
- Replies are in band. A get during which nothing moves returns what is stored exactly when no value it reads
  is `!block_moved` or starts with `!exporting` (`GetExactly`). Whatever moves, it can return exactly when no
  value it reads is `!block_moved` (`GetReturnsExactly`); with such a value `wait_read` sends the same batch
  for ever (`ReadCanReturn`), and what it returns for a key is the stored value exactly if that reads like
  no sign (`ReadOrder`).
- A connection that fails inside `batch_command` leaves its block and later ones, or blocks sent to before
  it, in flight. Every later batch with a command for one of them fails, until `refresh`; a batch returns
  exactly if no connection it uses fails or is still in flight (`ReturnsExactly`, `FlyingExactly`).
- Failed asynchronous batch: its results after the one that raised stay queued, and the next batch is judged
  by them. A batch is judged by its own writes, whatever their results, exactly if no earlier one has left a
  result over (`JudgedExactly`).
- The bounded `split` drops field number `count`, counted from 0, and glues later ones on without the
  delimiter (`Text.Split`).
- CSV: a table comes back exactly when no key or value has a comma or a newline and no value is empty
  (`CsvRoundTrip`).
- Binary: the loop tests for the end of the stream before it can have been met, so it goes round once
  more and inserts a key and a value of zero bytes whose lengths are uninitialised (`BinaryRoundTrip`);
  the table comes back, whatever these hold, exactly when it has a key of zero bytes of every 64-bit length
  (`BinaryRoundTripExactly`), so no table of fewer than 2^64 entries ever comes back for all of them
  (`BinaryNeverSafe`). The size it returns is always that of `tellg` after a failure. So is that of the CSV
  form for what `serialize` wrote, exactly when no key or value holds two newlines in a row, no key starts
  with a newline and no value ends with one (`SerializedSize`).
- Rate limiter: the time between permits is cut to whole microseconds, so the limiter is never slower
  than asked, and above 1000000 permits a second it does not limit (`PermitCost`).
- Asynchronous writes: after a failed batch the counter steps back by one and then forward by the size
  of the batch, so failures count as work done. A loop that is done in time, after the errors of its
  warm-up, has written what it was asked to, for all outcomes within the budget of errors, exactly when a
  batch is one write, or there is nothing to write, or no error is left in the budget, or one is and the
  batches divide the number of writes (`AsyncDoneExactly`).
- Control server: a connection that reports an id first and then reports an id again is closed and stays in the
  queue. Nobody turned away is in a wave, however the waves are chosen, exactly if there is no such
  connection (`AbortedNeverRunExactly`; `ReportingTwiceRuns` has the shortest run). Sending RUN on a closed
  socket raises and ends the server; all waves can be sent, however they are chosen, exactly if no
  connection that was first to report an id reports again or closes (`AllSentExactly`).

## Model

| member | source | states |
|---|---|---|
| ShardedClient.OwnerUnique | external/libmmux/src/mmux/storage/client/kv_client.cpp:173-175 | upper_bound minus one picks block b for a slot exactly when b's range holds the slot, so every slot has one owner |
| ShardedClient.OwnerInRange | external/libmmux/src/mmux/storage/client/kv_client.cpp:173-175 | the client picks block b for a key exactly when the key's slot lies in b's range |
| ShardedClient.ClientBlock | external/libmmux/src/mmux/storage/client/kv_client.cpp:173-175 | with the client's own hash the block of a key is the one whose range holds the CRC remainder of the key's bytes |
| ShardedClient.SubIsRanged | external/libmmux/src/mmux/storage/client/kv_client.cpp:187-192 | the commands collected for block b are those whose slots lie in its range, in their order |
| ShardedClient.KvClient.constructor | external/libmmux/src/mmux/storage/client/kv_client.cpp:11-22 | one slot start and one idle connection for each block of the directory, keys placed by hash_slot::get |
| ShardedClient.KvClient.Refresh | external/libmmux/src/mmux/storage/client/kv_client.cpp:32-41 | the slot table is the directory's, nothing is outstanding on any connection, and the blocks together hold what they held before |
| ShardedClient.PushArgs | external/libmmux/src/mmux/storage/client/kv_client.cpp:189-190 | the inner loop appends exactly the operation's arguments to one block's vector and touches no other |
| ShardedClient.ScatterArgs | external/libmmux/src/mmux/storage/client/kv_client.cpp:184-192 | after the loop every block has its own commands in order and the positions they came from |
| ShardedClient.KvClient.Rebuild | external/libmmux/src/mmux/storage/client/kv_client.cpp:35-40 | the loop leaves exactly the directory's blocks in their order, with idle connections |
| ShardedClient.KvClient.SendCommand | external/libmmux/src/mmux/storage/client/kv_client.cpp:196 | the block applies exactly the commands sent whose keys it still has, answers the others with their signs, and its responses wait on its connection; no other block is touched |
| ShardedClient.TaggedSub | external/libmmux/src/mmux/storage/client/kv_client.cpp:184-197 | each block's sublist meets exactly the signs of its own commands |
| ShardedClient.KvClient.RecvResponse | external/libmmux/src/mmux/storage/client/kv_client.cpp:202 | the waiting responses are handed out once |
| ShardedClient.KvClient.SendAll | external/libmmux/src/mmux/storage/client/kv_client.cpp:194-197 | exactly the blocks with work run their sublist and hold its responses |
| ShardedClient.KvClient.GatherAll | external/libmmux/src/mmux/storage/client/kv_client.cpp:199-207 | every response lands at the position of its command, none is overwritten, no connection keeps one |
| ShardedClient.GatheredWhole | external/libmmux/src/mmux/storage/client/kv_client.cpp:199-209 | responses put back by position are those of the sequential run on the flat map |
| ShardedClient.KvClient.Gather | external/libmmux/src/mmux/storage/client/kv_client.cpp:199-209 | the responses received are those of one run of the batch on the flat map |
| ShardedClient.KvClient.Exchange | external/libmmux/src/mmux/storage/client/kv_client.cpp:194-209 | sending and gathering together are one run of the batch, the blocks end as the flat map does, and each block has run exactly the commands in its slot range |
| ShardedClient.KvClient.BatchCommand | external/libmmux/src/mmux/storage/client/kv_client.cpp:177-210 | batch refinement: responses and final contents are those of the commands run one by one in order on one flat map, except that commands on keys that have moved are answered with their signs and not applied; every block has run exactly the commands whose slots lie in its range; a wrong argument count fails and changes nothing |
| ShardedClient.GroupAt | external/libmmux/src/mmux/storage/client/kv_client.cpp:233-239 | the argument range of command i of a batch lies inside it and is that command |
| ShardedClient.ArgumentsPerOp | external/libmmux/src/mmux/storage/client/kv_client.cpp:233-234 | the number of arguments worked out from the responses is the one the batch was cut with |
| ShardedClient.KvClient.Apply | external/libmmux/src/mmux/storage/client/kv_client.cpp:243-246 | a redirected command is applied once to the map, at the place of its key |
| ShardedClient.KvClient.AskChain | external/libmmux/src/mmux/storage/client/kv_client.cpp:243-246 | each chain asked gives its reply of the way, and only the one that signs lead to changes the map, by applying the command once |
| ShardedClient.KvClient.FollowNext | external/libmmux/src/mmux/storage/client/kv_client.cpp:240-246 | one pass asks the chain named in the reply in hand, with the command's arguments marked redirected |
| ShardedClient.KvClient.Follow | external/libmmux/src/mmux/storage/client/kv_client.cpp:240-247 | the loop asks each chain named in turn and ends with the first reply that does not export, also where a reply only reads like a sign; the map has the command applied exactly when the chain that signs lead to applied it |
| ShardedClient.KvClient.HandleOne | external/libmmux/src/mmux/storage/client/kv_client.cpp:236-248 | only a reply that exports is followed; any other stays and changes nothing |
| ShardedClient.KvClient.HandleNext | external/libmmux/src/mmux/storage/client/kv_client.cpp:236-252 | the next command ends in its final reply, with its requests and the map; the loop stops at it exactly if that is !block_moved |
| ShardedClient.KvClient.FollowAll | external/libmmux/src/mmux/storage/client/kv_client.cpp:235-253 | the loop stops at the first command whose final reply is !block_moved; otherwise it gives the final replies; the requests sent and the map are those of the commands up to there |
| ShardedClient.KvClient.HandleRedirects | external/libmmux/src/mmux/storage/client/kv_client.cpp:230-254 | the same for a whole batch, after what the blocks applied and answered, for any replies |
| ShardedClient.KvClient.Attempt | external/libmmux/src/mmux/storage/client/kv_client.cpp:114-120 | one pass gives the final replies and the map of the sequential run and keeps the slot table, or is given up, exactly when a final reply is !block_moved, with what was applied until then and the slot table of the directory |
| ShardedClient.KvClient.Resend | external/libmmux/src/mmux/storage/client/kv_client.cpp:113-121 | the redo loop is the attempts given up and the first that is not, each on the map the one before left; the slot table is that of the last one given up |
| ShardedClient.KvClient.BatchWithRedo | external/libmmux/src/mmux/storage/client/kv_client.cpp:107-123 | whatever moves, a call that returns leaves the map of one batch alone and gives the replies of the attempt that was not given up; the slot table is that of the last attempt given up, if there was one; a wrong argument count fails and changes nothing |
| Attempts.StayingReply | external/libmmux/src/mmux/storage/client/kv_client.cpp:194-207 | a command its block applies is answered as in the sequential run |
| Attempts.MovedReply | external/libmmux/src/mmux/storage/client/kv_client.cpp:235-248 | and so is one a chain applies after the batch |
| Attempts.BatchPhase | external/libmmux/src/mmux/storage/client/kv_client.cpp:115 | after the batch the map has exactly the commands that were not redirected, each reply is that of the sequential run or a sign |
| Attempts.ChainApplies | external/libmmux/src/mmux/storage/client/kv_client.cpp:243-246 | the d-th command applied by a chain extends what was applied by it and answers as in the sequential run |
| Attempts.OneHandled | external/libmmux/src/mmux/storage/client/kv_client.cpp:236-252 | following one reply ends in its final reply, sends the requests its replies name, and leaves the command applied exactly if its block or a chain applies it |
| Attempts.AppliedWhole | external/libmmux/src/mmux/storage/client/kv_client.cpp:113-118 | an attempt that is not given up leaves the map of the sequential run |
| Attempts.AppliedIsPrefix | external/libmmux/src/mmux/storage/client/kv_client.cpp:113-122 | an attempt that is given up has applied, for every key, some of the first commands on it |
| Attempts.TriedExactly | external/libmmux/src/mmux/storage/client/kv_client.cpp:114-120 | a pass gives the replies and the map of the sequential run exactly when every command is applied and no reply of that run reads like a sign |
| Attempts.UnmovedExactly | external/libmmux/src/mmux/storage/client/kv_client.cpp:114-120 | where nothing moves, exactly when no reply reads like a sign |
| RedoLoop.RedoneAfter | external/libmmux/src/mmux/storage/client/kv_client.cpp:113-122 | the loop comes to one pass on what the attempts given up have left, or has not returned |
| RedoLoop.LastTableNext | external/libmmux/src/mmux/storage/client/kv_client.cpp:248-251 | every attempt given up replaces the slot table, and the one that is not leaves it |
| RedoLoop.RedoneAsOnce | external/libmmux/src/mmux/storage/client/kv_client.cpp:113-122 | however many attempts are given up, wherever blocks and chains moved, a call that returns leaves the map of one attempt |
| RedoLoop.GetExactly | external/libmmux/src/mmux/storage/client/kv_client.cpp:125-138 | a get during which nothing moves returns what is stored exactly when no value it reads is a sign |
| RedoLoop.RedoneGets | external/libmmux/src/mmux/storage/client/kv_client.cpp:125-138 | a get leaves the map alone, and returns for each command the reply of one run exactly if that is no sign |
| RedoLoop.GetReturns | external/libmmux/src/mmux/storage/client/kv_client.cpp:125-138 | it returns exactly when some attempt ends without !block_moved |
| RedoLoop.GetReturnsExactly | external/libmmux/src/mmux/storage/client/kv_client.cpp:125-138 | it can return, whatever moves, exactly when no value it reads is !block_moved |
| RedoLoop.PutReturns | external/libmmux/src/mmux/storage/client/kv_client.cpp:107-123 | a put returns exactly when some attempt applies every command |
| RedoLoop.RepliesSafe | external/libmmux/src/mmux/storage/client/kv_client.cpp:107-123 | the replies of a put that returns are those of one attempt, whatever moves, exactly when the batch is a single pair or all its keys are there already |
| Scatter.PositionOf | external/libmmux/src/mmux/storage/client/kv_client.cpp:187-192 | every command's position is recorded in its owner's list |
| Scatter.PositionsDistinct | external/libmmux/src/mmux/storage/client/kv_client.cpp:187-207 | no position is recorded twice, in one list or in two |
| Scatter.SubKeepsKey | external/libmmux/src/mmux/storage/client/kv_client.cpp:187-192 | a block's sublist has all commands on each of its keys, in order |
| Scatter.SubKeepsPrefix | external/libmmux/src/mmux/storage/client/kv_client.cpp:187-192 | before a command, its sublist has the same commands on its key as the whole batch |
| Scatter.BlockRun | external/libmmux/src/mmux/storage/client/kv_client.cpp:194-207 | a block running its sublist answers each command, and leaves each of its keys, as the flat map would |
| Scatter.BlocksRefine | external/libmmux/src/mmux/storage/client/kv_client.cpp:194-207 | the blocks together end as the flat map does, each holding only its own keys |
| Scatter.AnyInterleaving | external/libmmux/src/mmux/storage/client/kv_client.cpp:194-210 | in every interleaving of the sublists each command gets its reply of the sequential run and the store is the same |
| KvStore.StoreByKey | external/libmmux/src/mmux/storage/client/kv_client.cpp:177-210 | the value of a key after a run depends only on the commands that name it |
| KvStore.ResponseByKey | external/libmmux/src/mmux/storage/client/kv_client.cpp:177-210 | a response depends only on the earlier commands that name its key |
| KvStore.SamePerKey | external/libmmux/src/mmux/storage/client/kv_client.cpp:177-210 | sequences that agree key by key leave the same store |
| KvStore.RunConcat | src/memorymux.cpp:50-56 | two batches one after the other are one batch of all their commands |
| Redo.FoldStandard | external/libmmux/src/mmux/storage/client/kv_client.cpp:107-171 | the value of a key after any number of puts, updates or removes of one kind |
| Redo.AttemptAbsorbed | external/libmmux/src/mmux/storage/client/kv_client.cpp:113-122 | a batch absorbs an earlier attempt that applied some first commands of each key |
| Redo.RedoSafe | external/libmmux/src/mmux/storage/client/kv_client.cpp:113-122 | any number of such attempts followed by one complete batch leave the store of one complete batch |
| Redo.ResentReply | external/libmmux/src/mmux/storage/client/kv_client.cpp:113-122 | a resent put answers as a single one would, except !duplicate_key where an attempt given up had put its key |
| Redo.RedoReplies | external/libmmux/src/mmux/storage/client/kv_client.cpp:113-122 | a resent put is answered as a single one would be exactly when the aborted attempts touched only keys that were there before |
| Redirects.RedirectReachesChain | external/libmmux/src/mmux/storage/client/kv_client.cpp:241-246 | the chain asked is the chain named in a reply of at most 2^64 - 1 characters exactly when no name holds a '!' and the last is not empty |
| Redirects.ExportingExactly | external/libmmux/src/mmux/storage/client/kv_client.cpp:237 | a reply is followed exactly when it starts with !exporting |
| RedirectedBatch.RedirectedRefines | external/libmmux/src/mmux/storage/client/kv_client.cpp:230-254 | commands redirected after the batch get the replies, and leave the store, of the batch in its own order, when a key that moved stays moved |
| RedirectedBatch.OrderShows | external/libmmux/src/mmux/storage/client/kv_client.cpp:230-254 | when a key that moved does not stay moved, some server answers a command differently |
| RedirectedBatch.PutOrderExactly | external/libmmux/src/mmux/storage/client/kv_client.cpp:107-123 | a batch of puts is answered in its own order exactly when no first put of a new key is redirected while a later one on it is not |
| Gf2.RemainderUnique | external/libmmux/src/mmux/storage/kv/hash_slot.h:34-36 | two congruent polynomials of degree below 16 are equal, so the remainder of division by the generator is unique |
| Gf2.CancelX | external/libmmux/src/mmux/storage/kv/hash_slot.h:34-36 | a power of x can be cancelled modulo the generator |
| HashSlot.TableEntry | external/libmmux/src/mmux/storage/kv/hash_slot.cpp:7-40 | every one of the 256 constants is eight steps of bitwise long division of its index |
| HashSlot.TablePoly | external/libmmux/src/mmux/storage/kv/hash_slot.cpp:7-40 | entry i is congruent to i times x^16 |
| HashSlot.TableStepPoly | external/libmmux/src/mmux/storage/kv/hash_slot.h:63 | one pass of the loop multiplies the remainder by x^8 and adds the byte times x^16 |
| HashSlot.Crc16 | external/libmmux/src/mmux/storage/kv/hash_slot.h:59-65 | the loop over the buffer computes the function the following rows are about |
| HashSlot.CrcCongruent | external/libmmux/src/mmux/storage/kv/hash_slot.h:59-65 | the result is congruent to M(x) times x^16 |
| HashSlot.CrcIsRemainder | external/libmmux/src/mmux/storage/kv/hash_slot.h:29-42 | a 16-bit word is the remainder of M(x) times x^16 exactly when it is what crc16 returns |
| HashSlot.CrcXor | external/libmmux/src/mmux/storage/kv/hash_slot.h:59-65 | on messages of one length the CRC is linear |
| HashSlot.LeadingZeros | external/libmmux/src/mmux/storage/kv/hash_slot.h:59-65 | leading zero bytes do not change the CRC |
| HashSlot.SelfCheck | external/libmmux/src/mmux/storage/kv/hash_slot.h:59-65 | two bytes appended bring the CRC to 0 exactly when they are the message's CRC, high byte first |
| HashSlot.NeighbouringBytesSeparate | external/libmmux/src/mmux/storage/kv/hash_slot.h:54-65 | keys that differ only within two neighbouring bytes have different hashes |
| HashSlot.Get | external/libmmux/src/mmux/storage/kv/hash_slot.h:54-56 | a slot is a 16-bit number |
| HashSlot.SlotIsRemainder | external/libmmux/src/mmux/storage/kv/hash_slot.h:54-56 | it is the remainder of the key's own bytes, one for each character, in their order |
| ReplicaChain.InOrderStep | external/libmmux/src/mmux/storage/client/replica_chain_client.cpp:37-70 | send, receive, failure and reconnection each keep: at most one request outstanding, carrying the current number |
| ReplicaChain.ProtocolInvariant | external/libmmux/src/mmux/storage/client/replica_chain_client.cpp:37-89 | in every run the sequence number counts the accepted responses and never decreases, response i carries number i and answers the request last sent, and no number ever mismatches |
| ReplicaChain.OutstandingAccepted | external/libmmux/src/mmux/storage/client/replica_chain_client.cpp:61-70 | an outstanding request, once served and received, is accepted with its number, and the client is idle again |
| ReplicaChain.SendAccepted | external/libmmux/src/mmux/storage/client/replica_chain_client.cpp:53-70 | so an idle connection gets every request through; a broken one that is replaced is idle with its number and history |
| ReplicaChain.ReconnectIdles | external/libmmux/src/mmux/storage/client/replica_chain_client.cpp:37-51 | reconnecting at any point leaves an idle connection on which nothing can arrive, and changes no number |
| ReplicaChain.ReplicaChainClient.constructor | external/libmmux/src/mmux/storage/client/replica_chain_client.cpp:12-22 | a client starts idle with sequence number 0 |
| ReplicaChain.ReplicaChainClient.Connect | external/libmmux/src/mmux/storage/client/replica_chain_client.cpp:37-51 | a new connection has nothing outstanding; the sequence number stays |
| ReplicaChain.ReplicaChainClient.SendCommand | external/libmmux/src/mmux/storage/client/replica_chain_client.cpp:53-59 | a second request in flight fails and changes nothing; a failed send leaves the client not in flight whether or not the block applied the command |
| ReplicaChain.ReplicaChainClient.RecvResponse | external/libmmux/src/mmux/storage/client/replica_chain_client.cpp:61-70 | a response is handed out once and advances the number; a lost one changes nothing |
| ReplicaChain.ReplicaChainClient.RunCommand | external/libmmux/src/mmux/storage/client/replica_chain_client.cpp:72-89 | for any command, any block and every finite sequence of failures, before or after the command was applied: the store and the response are those of one more command after those applied and lost, but !duplicate_key after a failure reads as !ok; one response is accepted and the client is idle; with a request in flight it fails and changes nothing |
| ReplicaChain.ResentMeaning | external/libmmux/src/mmux/storage/client/replica_chain_client.cpp:72-89 | the same of the function of the replayed attempts |
| ReplicaChain.ResentAsOnce | external/libmmux/src/mmux/storage/client/replica_chain_client.cpp:72-89 | a put, get, update or remove sent again any number of times leaves the store of one, and is answered like a second one exactly if a lost attempt was applied |
| ReplicaChain.LooksOnceExactly | external/libmmux/src/mmux/storage/client/replica_chain_client.cpp:72-89 | whatever fails, a command looks as if it was sent once exactly when its reply is not !duplicate_key and the reply to a second one reads the same |
| ReplicaChain.ResentGetExactly | external/libmmux/src/mmux/storage/client/replica_chain_client.cpp:79-81 | a get returns what is stored, however the connection fails, exactly when that is not !duplicate_key |
| ReplicaChain.ReplayedPut | external/libmmux/src/mmux/storage/client/replica_chain_client.cpp:72-89 | what replayed puts store and answer, for present and absent keys |
| ReplicaChain.ExactlyOnce | external/libmmux/src/mmux/storage/client/replica_chain_client.cpp:72-89 | a put of a new key ends with !ok and the store of one put however the connection fails |
| ReplicaChain.OkAlwaysMeansStored | external/libmmux/src/mmux/storage/client/replica_chain_client.cpp:72-89 | whatever fails, !ok means stored exactly when the key is new or already has that value |
| ReplicaChain.OkMeansStored | external/libmmux/src/mmux/storage/client/replica_chain_client.cpp:79-81 | !ok means that the value is stored exactly when the key was new, already had that value, or no connection failed |
| MemoryMux.MemoryMuxClient.DoWriteAsync | src/memorymux.cpp:41-44 | key and value join the write buffer; nothing is sent |
| MemoryMux.MemoryMuxClient.DoReadAsync | src/memorymux.cpp:46-48 | the key joins the read buffer; nothing is sent |
| MemoryMux.MemoryMuxClient.SendWrites | src/memorymux.cpp:51-57 | a buffer that is not empty is sent as one put, resent as often as its blocks move; its results join the queue in order, and the buffer is empty |
| MemoryMux.MemoryMuxClient.SendReads | src/memorymux.cpp:66-72 | the same for gets |
| MemoryMux.MemoryMuxClient.DoWaitWrite | src/memorymux.cpp:50-63 | the buffer is sent as one put with its redo loop, the oldest result leaves the queue, and it is raised when it is not !ok |
| MemoryMux.MemoryMuxClient.DoWaitRead | src/memorymux.cpp:65-76 | the buffer is sent as one get with its redo loop and the oldest result is returned |
| MemoryMux.ClientKeeps | external/libmmux/src/mmux/storage/client/kv_client.cpp:107-138 | the sharded client keeps the promises the queues rest on, resending included |
| MemoryMux.RunAccounted | src/memorymux.cpp:41-76 | in every run whose calls return, whatever moves, what was issued is, in order, what was handed out, what is queued and what is buffered, and the store is that of one run of all writes sent |
| MemoryMux.WriteReturns | src/memorymux.cpp:50-56 | a wait_write returns exactly when there is nothing to send or some attempt applies all of it |
| MemoryMux.ReadCanReturn | src/memorymux.cpp:65-71 | a wait_read can return, whatever moves, exactly when no value it has to read is !block_moved |
| MemoryMux.WriteOrder | src/memorymux.cpp:50-63 | the i-th wait_write raises exactly when the i-th put of all puts in issue order is not answered !ok or an attempt given up had put its key |
| MemoryMux.ReadOrder | src/memorymux.cpp:65-76 | the i-th wait_read returns the answer for the i-th read_async key, on the map of the first wait after it was issued, exactly if that answer reads like no sign |
| DeferredQueue.AlwaysAccounted | src/memorymux.cpp:41-76 | the account of all runs, for any client that keeps the promises |
| DeferredQueue.SentRun | src/memorymux.cpp:50-56 | a wait_write that returns leaves the store of one run of all writes issued so far, and one result for each |
| DeferredQueue.WaitReturns | src/memorymux.cpp:50-76 | a wait returns exactly if its put or get does |
| DeferredQueue.RunReturns | src/memorymux.cpp:41-76 | so a run goes through exactly if every put and get it sends is answered |
| DeferredQueue.ResultMeaning | src/memorymux.cpp:50-63 | the result of a write is its reply in one run of all puts in issue order, except !duplicate_key where an attempt given up had put its key |
| DeferredQueue.WriteFifo | src/memorymux.cpp:50-63 | wait_writes hand out these results in issue order |
| DeferredQueue.AnswerMeaning | src/memorymux.cpp:65-76 | what comes back for a read is its key's answer on the flat map when the first wait after it was issued sent it, exactly if that reads like no sign |
| DeferredQueue.ReadFifo | src/memorymux.cpp:65-76 | wait_reads hand these out in issue order |
| AsyncBatch.WriteBatch | src/benchmark.h:281-289 | a batch of n writes succeeds exactly if the first n results in the queue, those left over included, are !ok; it takes them, or those up to the first that is not |
| AsyncBatch.LeftOver | src/benchmark.h:281-289 | what it leaves over is what was left over, plus the writes after the one that failed, less that one |
| AsyncBatch.JudgedExactly | src/benchmark.h:281-289 | a batch is judged by its own writes, whatever their results, exactly if nothing was left over |
| InFlight.Connections.Batch | external/libmmux/src/mmux/storage/client/kv_client.cpp:194-207 | the loops end, by an exception or not, exactly as the flags and the failing connection have it, and exactly these blocks are in flight afterwards |
| InFlight.Connections.BatchCommand | external/libmmux/src/mmux/storage/client/kv_client.cpp:177-210 | the same for a batch of commands and a placement of keys |
| InFlight.BusyExactly | external/libmmux/src/mmux/storage/client/kv_client.cpp:187-196 | a block is sent a request exactly if it owns the key of some command |
| InFlight.FlyingExactly | external/libmmux/src/mmux/storage/client/kv_client.cpp:194-207 | a connection is in flight exactly if an earlier batch left it so |
| InFlight.ReturnsExactly | external/libmmux/src/mmux/storage/client/kv_client.cpp:194-209 | a batch returns exactly if no connection it uses fails or is in flight |
| InFlight.FirstLoss | external/libmmux/src/mmux/storage/client/kv_client.cpp:199-207 | when the response of block f is lost, exactly the blocks of the batch from f on stay in flight |
| InFlight.StopsWhileSending | external/libmmux/src/mmux/storage/client/kv_client.cpp:194-197 | a batch that cannot send to its block f, because that is in flight or fails, adds exactly its blocks before f to those in flight |
| SinglePut.PutKey | external/libmmux/src/mmux/storage/client/kv_client.cpp:43-57 | the redo loop around run_command and handle_redirect |
| SinglePut.PutReturns | external/libmmux/src/mmux/storage/client/kv_client.cpp:43-57 | it returns exactly if some pass does not find the block or its chain moved, whatever connections fail |
| SinglePut.PutNewKeyExactly | external/libmmux/src/mmux/storage/client/kv_client.cpp:43-57 | a put of a new key that returns is stored once, and is answered !ok exactly if nobody applied it before the pass that returns, or that pass replays it on the block's own chain |
| SinglePut.CalmPut | external/libmmux/src/mmux/storage/client/kv_client.cpp:43-57 | so it is where no connection fails, or no block moves |
| SinglePut.ExportedPut | external/libmmux/src/mmux/storage/client/kv_client.cpp:43-57 | but not when it was applied, the answer was lost and the block exports |
| TokenBucket.InvStep | src/token_bucket.cpp:19-38 | every atomic step keeps the invariant and no step moves m_time, the clocks or the cost granted back |
| TokenBucket.OwnStep | src/token_bucket.cpp:21-36 | what a step does to the clocks and to the call that takes it |
| TokenBucket.TimeTracksGrants | src/token_bucket.cpp:22-37 | in every run, spurious failures included, m_time never goes back, never passes the latest clock of a granted call, and grows by at least the cost granted |
| TokenBucket.ClampedStep | src/token_bucket.cpp:27-36 | without spurious failures the first grant never comes from an unclamped retry, and from it on m_time stays ahead of the clamped start by the cost granted |
| TokenBucket.RateBound | src/token_bucket.cpp:19-38 | in every interleaving of any number of calls the cost granted is at most one burst plus the time since the start |
| TokenBucket.OverrunBreaksRate | src/token_bucket.cpp:30-37 | a run with one spurious failure that grants more than that |
| TokenBucket.RateBoundExactly | src/token_bucket.cpp:19-38 | with spurious failures the bound holds in every interleaving exactly when there is no burst or the bucket was not idle for longer than one |
| TokenBucket.Make | src/token_bucket.cpp:3-6 | the cost of a token is the largest number of microseconds of which rate fit into a second, and a burst costs its tokens unless that wraps |
| TokenRate.GrantedIsCharged | src/token_bucket.cpp:22-37 | in every run the cost granted is that of the tokens asked by the calls that were granted, and each running call is charged for its own |
| TokenRate.RateInTokens | src/token_bucket.cpp:19-38 | in every interleaving without spurious failures n tokens granted cost at most a burst of tokens plus the time passed |
| TokenRate.KeepsRateExactly | src/token_bucket.cpp:3-38 | in all these runs a new bucket grants at most a burst and rate tokens a second exactly when rate divides 1000000, or there is no burst and rate is at most that |
| TokenRate.LimitedExactly | src/token_bucket.cpp:3-38 | it limits what it grants at all exactly when rate is at most 1000000 |
| ConsumeCall.TokenBucketCell.constructor | src/token_bucket.cpp:3-6 | a bucket starts quiescent with m_time 0, and the cost of a token is a second over the rate, rounded down |
| ConsumeCall.TokenBucketCell.Arrive | src/token_bucket.cpp:21-23 | the call knows its clock reading, the cost of its tokens and the burst clamp, in 64-bit arithmetic |
| ConsumeCall.TokenBucketCell.LoadTime | src/token_bucket.cpp:24-28 | the first new time is m_time or the clamp, whichever is later |
| ConsumeCall.TokenBucketCell.CheckTime | src/token_bucket.cpp:31-33 | the call ends when its time would pass its clock reading, and otherwise goes on to the exchange |
| ConsumeCall.TokenBucketCell.CompareExchange | src/token_bucket.cpp:34-36 | the exchange succeeds exactly when nobody changed m_time and it does not fail spuriously; otherwise old_time becomes m_time |
| ConsumeCall.TokenBucketCell.Attempt | src/token_bucket.cpp:31-36 | one pass ends the call at the check or with the exchange, or leaves it with m_time loaded again; undisturbed it ends the call |
| ConsumeCall.TokenBucketCell.Consume | src/token_bucket.cpp:19-38 | the loop, with others running before every shared access, is one call with these tokens in a run of the state machine, ends, and returns true exactly when its last step is the exchange |
| ConsumeCall.TokenBucketCell.HistoryWithinRate | src/token_bucket.cpp:19-38 | so every history of calls on the object meets the rate bound, in cost and in tokens |
| ConsumeCall.PossibleWhole | src/token_bucket.cpp:19-38 | the others may do any run of their own between two accesses |
| MonitorQueue.Fifo | src/queue.h:11-42 | in every run what was popped followed by the queue is what was pushed, in push order |
| MonitorQueue.CoveredStep | src/queue.h:11-42 | every step but a late time-out keeps: while anyone sleeps, queued items are at most the pending notifies and woken threads |
| MonitorQueue.CoveredRun | src/queue.h:11-42 | that holds in every reachable state where no pop is timed or no time-out comes late |
| MonitorQueue.SoloRun | external/libmmux/src/mmux/storage/notification/blocking_queue.h:16-44 | where one thread pops, timed or not, while it sleeps each queued item has a notify still to come |
| MonitorQueue.LateTimeoutSticks | external/libmmux/src/mmux/storage/notification/blocking_queue.h:19-22 | with a timed pop and a second popping thread some run ends with an item, a sleeper and nobody left to run |
| MonitorQueue.NoLostWakeupExactly | external/libmmux/src/mmux/storage/notification/blocking_queue.h:16-44 | no run whose pops are by the threads of one set, with time-outs only in those of another, ever ends like that exactly when no pop is timed, or only one thread pops, or a thread that a notify chose never reports a time-out |
| MonitorQueue.InternalStepWorks | src/queue.h:11-42 | every step of a running thread brings the end of the running work nearer |
| MonitorQueue.Settles | src/queue.h:11-42 | from every state reachable in these safe cases the running threads finish by themselves, and then nobody sleeps beside a queued item |
| MonitorQueue.CanTimeOut | external/libmmux/src/mmux/storage/notification/blocking_queue.h:19-20 | in every reachable state a sleeping thread of a timed pop can be timed out |
| MonitorQueue.StaysTimedOut | external/libmmux/src/mmux/storage/notification/blocking_queue.h:19-22 | it stays so, whatever the others do, until it gets the mutex |
| MonitorQueue.TimedOutLeaves | external/libmmux/src/mmux/storage/notification/blocking_queue.h:19-22 | once the mutex is free it leaves, and the queue, the history and all other threads are as they were |
| MonitorQueue.SpuriousSleepsAgain | external/libmmux/src/mmux/storage/notification/blocking_queue.h:18-26 | a thread that wakes up for no reason and finds the queue empty is asleep again, with nothing changed |
| QueueCalls.BlockingQueue.Lock | external/libmmux/src/mmux/storage/notification/blocking_queue.h:17 | a thread that finds the mutex taken waits until it is free |
| QueueCalls.BlockingQueue.Wait | external/libmmux/src/mmux/storage/notification/blocking_queue.h:19-25 | a waiting thread ends holding the mutex, woken or, if its pop is timed, timed out; otherwise it is asleep or the mutex is taken |
| QueueCalls.BlockingQueue.AwaitItem | external/libmmux/src/mmux/storage/notification/blocking_queue.h:18-26 | the loop ends with an item in the queue, or by a time-out |
| QueueCalls.BlockingQueue.TakeFront | external/libmmux/src/mmux/storage/notification/blocking_queue.h:27-29 | the item taken is the oldest pushed and not popped |
| QueueCalls.BlockingQueue.Pop | external/libmmux/src/mmux/storage/notification/blocking_queue.h:16-30 | with others running while it waits, pop is one call in a run of the state machine; the n-th item popped is the n-th pushed, only a timed pop times out, a time-out takes nothing, and a pop that has not returned cannot move; with the mutex free it takes the front item at once if there is one, and a timed pop of an empty queue whose time is up first times out |
| QueueCalls.BlockingQueue.Push | external/libmmux/src/mmux/storage/notification/blocking_queue.h:32-44 | push waits for the lock, adds its item under it, releases it and then notifies, as one call in a run of the state machine |
| QueueCalls.BlockingQueue.NotifyOne | external/libmmux/src/mmux/storage/notification/blocking_queue.h:36 | one sleeping thread is woken if there is one |
| QueueCalls.BlockingQueue.HistoryNeverStuck | external/libmmux/src/mmux/storage/notification/blocking_queue.h:16-44 | so no history of calls on the object loses a wake-up where no pop is timed or one thread pops |
| QueueCalls.PossibleWhole | external/libmmux/src/mmux/storage/notification/blocking_queue.h:16-44 | while it does not hold the mutex the others may do any run of their own, and time may pass for it |
| RateLimiters.RateLimiter.constructor | src/rate_limiter.cpp:5 | a limiter starts with no interval, no stored permits and no claims |
| RateLimiters.RateLimiter.SetRate | src/rate_limiter.cpp:17-24 | a rate of 0 or less fails and changes nothing; otherwise interval times rate is one second |
| RateLimiters.RateLimiter.Sync | src/rate_limiter.cpp:30-37 | the next free time catches up with the clock and no permit is ever stored |
| RateLimiters.RateLimiter.ClaimNext | src/rate_limiter.cpp:39-63 | the clock plus the wait, which is never negative, is the release time of the claim, and the claim joins the history |
| RateLimiters.RateLimiter.Acquire | src/rate_limiter.cpp:11-15 | one permit is claimed; the sleep reported is the wait in whole milliseconds |
| RateLimiters.PermitCost | src/rate_limiter.cpp:23-58 | permits cost at most permits seconds over the rate, less than that plus a microsecond, and one costs nothing exactly for rates above 1000000 |
| RateLimiters.ReleaseClosedForm | src/rate_limiter.cpp:30-60 | the n-th release is the maximum over j up to n of the j-th clock plus all costs from j to n |
| RateLimiters.UniformClosedForm | src/rate_limiter.cpp:30-60 | at a fixed rate, the maximum of now_j + (n - j) L |
| RateLimiters.WaitsExactly | src/rate_limiter.cpp:46-50 | a claim waits exactly when an earlier one, delayed by all costs since, is still ahead of its clock |
| RateLimiters.WindowBound | src/rate_limiter.cpp:30-60 | no window of length W sees more than 1 + W / L releases |
| RateLimiters.WindowFilled | src/rate_limiter.cpp:30-60 | claims that arrive together reach that bound |
| KeyGenerator.ZipfKeyGenerator.constructor | src/key_generator.cpp:21-25 | the table is filled on construction |
| KeyGenerator.ZipfKeyGenerator.GenZipf | src/key_generator.cpp:27-49 | the two loops leave at place i the share of the first i + 1 weights in the sum of all |
| KeyGenerator.CumulativeIncreases | src/key_generator.cpp:45-48 | that table is strictly increasing |
| KeyGenerator.CumulativeEnds | src/key_generator.cpp:43-48 | it is 0 before the first key and exactly 1 after the last |
| KeyGenerator.DrawProbability | src/key_generator.cpp:45-48 | the interval of key k has length weight k over the sum |
| KeyGenerator.ZipfKeyGenerator.NextIndex | src/key_generator.cpp:55-66 | the binary search ends, inside the table, at the only key whose interval holds the draw |
| KeyGenerator.ZipfKeyGenerator.Next | src/key_generator.cpp:55-69 | the key printed is that one |
| KeyGenerator.ZipfKeyGenerator.NextPadded | src/key_generator.cpp:75-91 | the same, with zeros in front |
| KeyGenerator.SequentialKeyGenerator.Next | src/key_generator.cpp:7-9 | keys are printed in order |
| KeyGenerator.Padded | src/key_generator.cpp:11-15 | the text ends the key, zeros stand in front, and the length is the larger of the width and that of the text |
| KeyGenerator.SequentialKeyGenerator.NextPadded | src/key_generator.cpp:11-15 | the same, with zeros in front |
| KeyGenerator.SequentialKeyGenerator.Reset | src/key_generator.cpp:17-19 | the next key is the first one again |
| KeyGenerator.KeysDistinct | src/key_generator.cpp:7-15 | different numbers give different keys, padded to any widths or not |
| Text.TakeFields | external/libmmux/src/mmux/utils/string_utils.h:18-25 | the first loop keeps the first count fields and has read one more if there is one |
| Text.GlueRest | external/libmmux/src/mmux/utils/string_utils.h:26-27 | the second loop appends all fields left to the last one kept |
| Text.Split | external/libmmux/src/mmux/storage/kv/serde/csv_serde.h:17-29 | the bounded split keeps count fields, loses the next and glues the rest onto the last |
| Text.BoundedLoses | external/libmmux/src/mmux/utils/string_utils.h:20-28 | of the text between the delimiters exactly field number count is lost, and all fields kept but the last are whole |
| Text.SplitAll | external/libmmux/src/mmux/utils/string_utils.h:31-34 | without a bound it returns every field |
| Text.MkString | external/libmmux/src/mmux/utils/string_utils.h:36-44 | the loop puts the delimiter between consecutive elements |
| Text.SplitOfJoin | external/libmmux/src/mmux/utils/string_utils.h:16-44 | splitting a joined list gives it back, less a last empty element |
| Text.SplitInvertsJoin | external/libmmux/src/mmux/utils/string_utils.h:16-44 | it gives the list back exactly when no element holds the delimiter and the last is not empty |
| CsvSerde.Serialize | external/libmmux/src/mmux/storage/kv/serde/csv_serde.cpp:8-15 | one line per entry in enumeration order |
| CsvSerde.Deserialize | external/libmmux/src/mmux/storage/kv/serde/csv_serde.cpp:17-28 | the lines up to the first empty one, each split in two, are inserted in order; the size is what tellg answers |
| CsvSerde.ToldMeaning | external/libmmux/src/mmux/storage/kv/serde/csv_serde.cpp:18-27 | the size is where the first empty line ends, or -1 as a 64-bit size if there is none |
| CsvSerde.SerializedSize | external/libmmux/src/mmux/storage/kv/serde/csv_serde.cpp:8-28 | for what serialize wrote, below 2^64 - 1 characters, it is -1 exactly when no key or value holds two newlines in a row, no key starts with one and no value ends with one |
| CsvSerde.CsvRoundTrip | external/libmmux/src/mmux/storage/kv/serde/csv_serde.cpp:8-28 | a table comes back, in every enumeration order, exactly when its keys and values are free of commas and newlines and no value is empty |
| Tables.EnumeratedTable | external/libmmux/src/mmux/storage/kv/serde/csv_serde.cpp:24 | inserting the entries of an enumeration into an empty table gives the table |
| BinarySerde.SizeRoundTrip | external/libmmux/src/mmux/storage/kv/serde/binary_serde.cpp:10-26 | eight bytes give every 64-bit size back |
| BinarySerde.Serialize | external/libmmux/src/mmux/storage/kv/serde/binary_serde.cpp:8-20 | size, key, size, value for each entry in enumeration order |
| BinarySerde.RecordAt | external/libmmux/src/mmux/storage/kv/serde/binary_serde.cpp:9-18 | of an entry the size of the key stands first, then the key, the size of the value and the value |
| BinarySerde.InStream.Fill | external/libmmux/src/mmux/storage/kv/serde/binary_serde.cpp:26-33 | a read overwrites the buffer with what there is and meets the end only when that is less |
| BinarySerde.InStream.FillFramed | external/libmmux/src/mmux/storage/kv/serde/binary_serde.cpp:26-33 | a size is read over eight junk bytes, then that many bytes over zeros |
| BinarySerde.Deserialize | external/libmmux/src/mmux/storage/kv/serde/binary_serde.cpp:22-38 | the loop ends for every stream, with the end met, and the size returned is never the stream's |
| BinarySerde.RecordsConsumed | external/libmmux/src/mmux/storage/kv/serde/binary_serde.cpp:23-35 | consuming the records written inserts exactly the entries and leaves the cursor right after them, the end not met |
| BinarySerde.BinaryRoundTrip | external/libmmux/src/mmux/storage/kv/serde/binary_serde.cpp:8-38 | for arbitrary contents one entry of zero bytes is inserted after the table's own, and the table comes back exactly when it had that key |
| BinarySerde.BinaryRoundTripExactly | external/libmmux/src/mmux/storage/kv/serde/binary_serde.cpp:8-38 | whatever the uninitialised sizes hold, the table comes back exactly when it has a key of zero bytes of every 64-bit length |
| BinarySerde.BinaryNeverSafe | external/libmmux/src/mmux/storage/kv/serde/binary_serde.cpp:8-38 | so for every table of fewer than 2^64 entries some contents make it come back different |
| Decimals.StoiToString | external/libmmux/src/mmux/storage/manager/detail/block_name_parser.cpp:19-33 | stoi inverts to_string on every 32-bit value, negatives included |
| Decimals.StoiExactly | external/libmmux/src/mmux/storage/manager/detail/block_name_parser.cpp:9-24 | stoi gives the number that stands after leading space and one sign, fails one way exactly if no digit stands there and the other exactly if the number does not fit 32 bits |
| BlockNames.Parse | external/libmmux/src/mmux/storage/manager/detail/block_name_parser.cpp:9-24 | six fields read one after the other, missing ones empty, any that is not a number an error |
| BlockNames.ParsedInOrder | external/libmmux/src/mmux/storage/manager/detail/block_name_parser.cpp:11-24 | a name is a block exactly if its fields are the host and the five numbers in their order, and an error exactly if one of these is no number |
| BlockNames.NameRoundTrip | external/libmmux/src/mmux/storage/manager/detail/block_name_parser.cpp:9-34 | parse of make returns all six fields exactly when the host has no colon |
| Benchmark.Attempts | src/benchmark.h:82-100 | the loop ends at the first turn at which the work, the time or the budget is used up; without too many errors its counter is the number of successes although it passes below 0 |
| Benchmark.StopsOnce | src/benchmark.h:82-100 | a loop has one end |
| Benchmark.DoneExactly | src/benchmark.h:82-100 | it completes exactly when the outcomes let the operations succeed within budget and time |
| Benchmark.RunPhase | src/benchmark.h:61-100 | warm-up and measurement share one budget, and nothing follows a budget used up |
| Benchmark.PhaseExactly | src/benchmark.h:61-100 | a phase leaves normally without a timeout exactly when both loops can complete within one budget |
| Benchmark.Run | src/benchmark.h:57-164 | the phases asked for run in order until one ends the process; the reads have a budget of their own only if they warm up, otherwise they go on with the writes' errors |
| Benchmark.PhaseOutcome | src/benchmark.h:61-108 | a phase that leaves normally made at most 1000 errors including those it started with, and where it did not time out exactly numOps / 10 and numOps successes |
| Benchmark.Measure | src/benchmark.h:298-303 | writing out an interval moves its count and loses none |
| Benchmark.AsyncWrites | src/benchmark.h:252-308 | after the errors of the warm-up the loop ends, is done in time exactly when the batches let its counter reach numOps within time and budget, keeps the account of the next rows, and writes out the lines those rows describe and one at the end |
| Benchmark.LinesStay | src/benchmark.h:275-303 | the first line is that of the beginning with count 0, and lines once written stay |
| Benchmark.LinesInTime | src/benchmark.h:298-303 | after every batch the last line is less than an interval old |
| Benchmark.LinesApart | src/benchmark.h:298-303 | and lines are at least an interval apart |
| Benchmark.LineWritten | src/benchmark.h:298-303 | a batch writes a line exactly if an interval has passed since the last one, and the count starts again |
| Benchmark.LineCounts | src/benchmark.h:298-303 | each counts the writes of the successful batches since the line before, short by how often the counter wrapped |
| Benchmark.AsyncOutcome | src/benchmark.h:280-306 | the counts written out are nAsync times the successful batches, up to what the unsigned counter lost by wrapping; the loop's counter is that plus nAsync - 1 for each failed batch |
| Benchmark.OneByOneOutcome | src/benchmark.h:280-306 | with one write a batch, done in time means exactly numOps successful batches |
| Benchmark.AsyncDoneExactly | src/benchmark.h:280-306 | done in time means at least numOps writes, for all batches within what is left of the budget, exactly when a batch is one write, or numOps is 0, or no error is left, or one is and nAsync divides numOps |
| ControlWorker.AcceptLoop | lambda_benchmark.py:178-211 | the loop ends exactly when enough different ids report, handles whole batches even beyond that, queues first reports and aborts repeated ones |
| ControlWorker.SortedIsSorted | lambda_benchmark.py:214 | sorting keeps the queue's members and puts their ids in strictly ascending order |
| ControlWorker.SendWave | lambda_benchmark.py:216-219 | a wave sends RUN to its places in order until one's socket is closed, which raises |
| ControlWorker.SendWaves | lambda_benchmark.py:215-221 | wave t takes places t W to (t + 1) W of the sorted queue; they end early exactly at a closed socket |
| ControlWorker.Control | lambda_benchmark.py:173-225 | once enough have reported there are exactly T waves of W over the sorted queue, unless a socket among the first T W places is closed; RUN is never sent on a closed one; if no connection that was first to report an id repeats or closes, all are sent |
| ControlWorker.RunAscending | lambda_benchmark.py:214-221 | whoever runs was queued, and ids ascend within a wave and from wave to wave |
| ControlWorker.SmallestRun | lambda_benchmark.py:214-221 | whoever is queued and does not run has a larger id than everyone who does |
| ControlWorker.QueuedExactly | lambda_benchmark.py:197-206 | a function is queued exactly when it is the first to report its id |
| ControlWorker.AbortedExactly | lambda_benchmark.py:197-211 | a connection is turned away exactly when it reports an id that was reported before |
| ControlWorker.ShutExactly | lambda_benchmark.py:192-211 | a socket is closed exactly when its connection was turned away or ended |
| ControlWorker.WatchedExactly | lambda_benchmark.py:180-211 | select looks, once, at exactly the sockets that were accepted and have not been closed |
| ControlWorker.AbortedNeverRunExactly | lambda_benchmark.py:197-221 | nobody turned away is in a wave, for every choice of width, number and waves, exactly if no connection is first to report an id and also reports an id again |
| ControlWorker.AllSentExactly | lambda_benchmark.py:192-221 | nobody whose socket is closed is, exactly if in addition no such connection closes |
| ControlWorker.ReportingTwiceRuns | lambda_benchmark.py:197-221 | a connection that reports an id twice is turned away, and the only wave of one is its own |

## Left out

- The server is not in the repository. A block is any function of a command and its key's value; Redo and
  the retried put assume put-if-absent, update and remove and the replies `!ok` and `!duplicate_key`.
- One response per command, which `batch_command` and the queue of memorymux rely on.
- ShardedClient.KvClient.BatchWithRedo: what the attempts meet is a finite list, after which the call has not returned; a batch without commands divides by zero in the code and is excluded. A connection that fails is in InFlight alone.
- ShardedClient.KvClient.Attempt: a block that a key has left stays left for the rest of the attempt, and a redirected command means the same with and without its mark; both are the server's part, which is not in the repository. Keys are kept at the place the slot table names, also while they move, so what a chain applies is one map with what the blocks apply. The chain that a reply leads to which only reads like a sign is some other server; only its replies are modelled.
- SinglePut.PutKey: run_command and run_command_redirected are taken as the functions their own proofs establish; get, update and remove of one key are batches of one without scattering.
- InFlight.Connections.Batch: what the blocks store and answer is left to ShardedClient; refresh makes all connections idle.
- AsyncBatch.WriteBatch: the batch is issued with empty write buffers, as every earlier wait leaves them.
- ShardedClient.KvClient.Refresh: the directory's answer is a slot table over the same entries; a block whose entries are lost is not modelled.
- ReplicaChain.ReplicaChainClient.RunCommand: finitely many failures; head and tail are one connection, a failure inside `connect` and the logic error on a wrong sequence number are not modelled here (the protocol invariant shows that the number never mismatches).
- MemoryMux.MemoryMuxClient.DoWaitWrite: waiting with nothing issued is undefined in the code and excluded.
- TokenBucket.RateBound: the states of other calls are steps, not code; clocks and sums stay below 2^63, the clock is at least the burst time, and the rate is positive, as the code assumes without checking. Atomic steps stand for relaxed memory order, since only m_time changes.
- ConsumeCall.TokenBucketCell.Consume: finitely many disturbances of one call; others run right before its shared accesses, which is all it can see of them.
- QueueCalls.BlockingQueue.Pop: what the others do is a finite list; a pop that is still waiting at its end returns as blocked. The length of a time-out is not modelled, only that it may pass at any time.
- RateLimiters.RateLimiter.ClaimNext: intervals are reals and times are unbounded; rounding of doubles and wrap-around of microseconds are not modelled, nor is the sleep.
- KeyGenerator.ZipfKeyGenerator.GenZipf: reals for doubles, any positive function for `pow`; the draws are parameters.
- KeyGenerator.SequentialKeyGenerator.Next: the counter is unbounded.
- Text.Split: a bound of 0 writes to an element that does not exist in the code and is excluded.
- Text.MkString: an empty vector reads outside itself in the code and is excluded.
- CsvSerde.Deserialize: a line without a comma reads outside a vector in the code; here it is an error without a size.
- BinarySerde.Deserialize: a size too large to allocate throws in the code; here every size can be allocated.
- BlockNames.Parse: `stoi` in the C locale.
- Benchmark.Run: storage, latency and throughput files, the signal exchange and destroy; the clock is only seen in which turns are in time.
- Benchmark.AsyncWrites: the warm-up loop, which is the same without counts, enters as the errors it has made; `async_reads`, which writes out running totals because it never resets its count; the rate-limited send and receive loops.
- Benchmark.AsyncOutcome: says what the loop's counter is while numOps plus nAsync fits in 64 bits; beyond that the counter can pass numOps by wrapping.
- ControlWorker.AcceptLoop: messages arrive whole and parse; a socket is one object, so a closed one stays closed.
- `kv_client::locked_client`, the directory, leases, Thrift services, S3, DynamoDB, Redis, sockets, logging and build scripts.
