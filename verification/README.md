# Proofs about Redis 5.0.2

This project models the parts of Redis 5.0.2 whose correctness is hardest to see, and proves what they
promise. Redis is written in C; the model is written in Dafny. What the C code updates in place is given
twice: as methods on classes, arrays and loops that follow the C functions, and as functions of whole
states that the methods are proved to compute. The theorems are about the functions and about runs of
them.

- **Cluster bus** (`ClusterState`, `ClusterServer`, `ClusterProtocol`, `ElectionSafety`, `ElectionSplit`,
  `EpochCollision`, `SlotClaims`, `Overtaken`, `Masterless`): one node's view and what each packet does to
  it; the slot table with its bitmaps and counters; many nodes with packets in flight that may be delayed,
  reordered or lost.
- **Append-only file** (`Resp`, `Dataset`, `AofLoader`, `AofRewrite`, `AofRewriteRio`, `AofFeed`,
  `AofJournal`, `LiveCommands`, `AofProtocol`, `AofServer`): the log format and its loader, the rewrite,
  the translation of commands and transactions as they are fed, and the protocol by which a forked
  child's rewrite replaces the log while writes go on and the server may crash and restart.
  `AofProtocol.LogHoldsDataset` and `AofProtocol.CrashLosesTheBuffer` put them together.
- **Blocking operations** (`Blocking`, `BlockingIndex`, `BlockingServe`, `BlockingRuns`, `BlockingOrder`,
  `BlockedServer`): the index between clients and keys, the serving loop that can make new keys ready,
  and the order in which clients are served.
- **Bit operations** (`Bits`, `Bitfield`, `Bitpos`, `Bitop`): word-at-a-time code against definitions bit
  by bit, and fields with their overflow policies.
- **Indexes** (`SlotKeys`, `LinkedList`): the slot-to-key index and the doubly linked list.

Some promises turned out not to hold in general. For each the model keeps the code as it is, shows a
case, and states when the promise holds, as an if-and-only-if wherever nothing else is said:

| promise | case | when it holds |
|---|---|---|
| one winner per epoch | `ElectionSplit.SplitElection` | `ElectionSafety.OneWinnerPerEpoch`: below a bound on early acks, which no electorate allows to be raised |
| colliding config epochs move apart | `EpochCollision.StuckCollision`, and after an election `Overtaken.ElectionLeavesStuckCollision` | `EpochCollision.SettledExactly`: in runs of pings from a start in which nobody is ahead of a master |
| a slot's owner changes only to a greater config epoch | `Overtaken.TakeOverLowers` | `SlotClaims.OwnersChangeUpward`: always for claims; for the winner of an election if its master's epoch is below the one it takes |
| a master's claim is carried out | `Masterless.NullMasterRun`, `ClusterServer.Server.ClaimAfterRemoval` | `ClusterServer.Server.UpdateSlotsConfigWith`, `ClusterServer.Server.ReceivePingPacket` |
| a truncated load can be appended to | `AofLoader.CutInsideTransaction` | `AofLoader.AppendingAfterLoad`, `AofProtocol.RestartExactly` |
| a crash goes back to databases the server had | `AofProtocol.CrashLosesDeadline` | `AofProtocol.CrashLosesTheBuffer`, which rests on `AofJournal.CutExactly` |
| a rewrite keeps every key and deadline | `AofRewrite.DeadlineLost` | `AofRewrite.RewritePreserves` |
| a replayed deadline is the live one | `AofFeed.LateTranslation` | `AofFeed.FeedIsExact` |
| SET is not fed with EX and PX both | `AofFeed.ClashingOptions` | `AofFeed.ScanFollowsParse` |
| nobody waits for what is there | `BlockingRuns.OverwriteCanStrand` | `BlockingRuns.OverwriteExactly` |
| clients are served in the order they blocked | `BlockingOrder.MixedQueueReorders` | `BlockingOrder.ListServingKeepsOrder` and `BlockingOrder.ZSetServingKeepsOrder` for one serving; over runs, always with one type per key by `BlockingOrder.FirstInFirstOut` |
| BITFIELD SET saturates under SAT | `Bitfield.SetStoresMaximum` | `Bitfield.CheckSet` |

CLUSTER FORGET refuses to remove the node's own master (`cluster.c` lines 4567-4570), but the removal of
nodes whose handshake timed out (lines 3376-3381) does not ask, and CLUSTER REPLICATE accepts such a node.
A deadline of -1 comes from a client of a writable replica or from a loaded log: `expire.c` (line 427)
tests for deadlines in the past on neither. In the last case a comment in `bitops.c` (lines 329-331) says
that the differences are used only after the range check; the code uses one before, and the model
follows the code, with signed overflow wrapping around.

Conventions: commands without a rule of their own are any function of their database, or of all databases
for MOVE, SWAPDB and FLUSHALL (`Dataset.Effect`); system calls are parameters that say what each call
returned; addresses matter only modulo the word size; `hide` statements in proofs only keep irrelevant
definitions from the solver.

## Model

| member | source | states |
|---|---|---|
| ElectionSafety.OneWinnerPerEpoch | redis/src/redis-5.0.2/src/cluster.c:2706-2807 | in no run, under any order, delay and loss of packets, do two different replicas win the same epoch, if the epoch has one electorate and the winners together counted fewer than 2q - N acks before asking for votes |
| ElectionSafety.NoStaleAckNoSplit | redis/src/redis-5.0.2/src/cluster.c:2720-2740 | the documented case: without such early acks one epoch has one winner |
| ElectionSplit.SplitElection | redis/src/redis-5.0.2/src/cluster.c:3018-3083 | the bound cannot be improved, whatever the electorate: for every number n of masters some run, in which a replica counts 2q - n early acks (counter reset when the election is scheduled, epoch taken when votes are asked for), has two winners of epoch 2 |
| ElectionSafety.AckAccounting | redis/src/redis-5.0.2/src/cluster.c:2045-2057 | a replica's counter is always the number of its recorded voters for the running election plus the acks that came between scheduling and requesting |
| ElectionSafety.EpochInvariant | redis/src/redis-5.0.2/src/cluster.c:1700-1713 | in every reachable state config epochs, last vote, election epoch and all epochs in packets are at most the current epoch they travel with |
| ElectionSafety.EpochsNeverFall | redis/src/redis-5.0.2/src/cluster.c:1700-1713 | over any stretch of any run a node's current epoch and the epoch of its last vote never fall |
| ElectionSafety.VotesIncrease | redis/src/redis-5.0.2/src/cluster.c:2720-2740 | every new vote of a node is in a strictly later epoch than all its earlier votes |
| ElectionSafety.VotesAreKept | redis/src/redis-5.0.2/src/cluster.c:2800-2806 | a vote given is never changed by a later step |
| ElectionSafety.BumpGivesGreatest | redis/src/redis-5.0.2/src/cluster.c:1012-1029 | in every reachable state the bump succeeds exactly when this node's epoch is 0 or below the current epoch, and then gives it the strictly greatest config epoch it knows |
| ClusterProtocol.StepKeepsInv | redis/src/redis-5.0.2/src/cluster.c:1635-2105 | every step of the protocol (send, drop, deliver of PING, UPDATE, AUTH_REQUEST and AUTH_ACK, failover handling, bump, state refresh, failure marking) keeps the invariant behind these results |
| EpochCollision.PingMovesExactlyOnCollision | redis/src/redis-5.0.2/src/cluster.c:1989-1996 | a ping changes a node's own config epoch if and only if it comes from a known master with a greater name and shows, as that master's newest epoch, the receiving master's own; the new epoch is above all either side knew |
| EpochCollision.CollisionsEnd | redis/src/redis-5.0.2/src/cluster.c:1077-1092 | in every run of pings a node moves at most once for each node with a greater name |
| EpochCollision.CollisionsAreFinite | redis/src/redis-5.0.2/src/cluster.c:1031-1092 | all nodes together move at most N(N-1)/2 times |
| EpochCollision.GreatestNeverMoves | redis/src/redis-5.0.2/src/cluster.c:1081-1082 | the node with the greatest name never moves |
| EpochCollision.NeverAhead | redis/src/redis-5.0.2/src/cluster.c:1700-1713 | if no node starts out believing that a master has a greater config epoch than it has, then at no point of any run of pings does one, and pings in flight from a master announce no epoch beyond its own |
| EpochCollision.SettledExactly | redis/src/redis-5.0.2/src/cluster.c:1077-1092 | at every point of every such run a fresh ping moves its receiver if and only if the two are masters that share an epoch, the receiver having the smaller name; so no ping moves anyone if and only if no collision is left |
| EpochCollision.SettledMastersDiffer | redis/src/redis-5.0.2/src/cluster.c:1031-1076 | once no ping moves anyone, any two masters that know each other have different config epochs |
| EpochCollision.CollisionsResolve | redis/src/redis-5.0.2/src/cluster.c:1031-1092 | from every point of every such run pings alone lead to a state in which no ping moves anyone |
| EpochCollision.StuckCollision | redis/src/redis-5.0.2/src/cluster.c:1077-1092 | the condition on the start is needed: two masters with epoch 5, one of which believes that the other has epoch 9, are not moved by any ping |
| Overtaken.ElectionLeavesStuckCollision | redis/src/redis-5.0.2/src/cluster.c:1077-1092 | elections break the condition on the start: from a start in which nobody believes in a greater epoch than a master has, a run with an election ends with two masters that share an epoch and that no ping moves |
| SlotClaims.OwnersChangeUpward | redis/src/redis-5.0.2/src/cluster.c:1553-1590 | whenever a step of the protocol changes the owner a node knows for an assigned slot, the new owner's config epoch as then known is above the old owner's; for the winner of an election, which takes its master's slots, exactly if the master's epoch is below the one the winner takes |
| Overtaken.TakeOverLowers | redis/src/redis-5.0.2/src/cluster.c:3075-3114 | that condition fails in some run: its last step gives a slot, in the winner's table, from its master with config epoch 2 to the winner with config epoch 1, the master having raised its epoch after it voted |
| SlotClaims.TakeOverUndone | redis/src/redis-5.0.2/src/cluster.c:2908-2936 | after such a take-over a ping from the old master takes a slot back in the winner's table if and only if it announces a greater epoch than the winner took |
| SlotClaims.ClaimChanges | redis/src/redis-5.0.2/src/cluster.c:1553-1590 | a claim gives an assigned slot only to the claimant, with a strictly greater epoch than the owner's, and only if it is claimed and not being imported |
| SlotClaims.ReplicasServeNothing | redis/src/redis-5.0.2/src/cluster.c:3931-3934 | if no replica starts out with slots of its own, none has any at any point of any run, which is what the assertion needs |
| SlotClaims.GreatestEpochOwns | redis/src/redis-5.0.2/src/cluster.c:1530-1590 | from an unassigned table without imports, after one claim per master with distinct epochs, a slot is owned exactly if some master claimed it, and by the claimant with the greatest epoch |
| SlotClaims.AnyOrderSameOwners | redis/src/redis-5.0.2/src/cluster.c:1942-1943 | the same claims in any order give the same owners |
| SlotClaims.PingClaims | redis/src/redis-5.0.2/src/cluster.c:1883-1943 | skipping claims whose bitmap is unchanged changes nothing: a master's ping always has the effect of the full claim |
| ClusterServer.ClusterNode.SetSlotBit | redis/src/redis-5.0.2/src/cluster.c:3663-3685 | sets the bit, returns the old one, and counts only new bits |
| ClusterServer.ClusterNode.ClearSlotBit | redis/src/redis-5.0.2/src/cluster.c:3688-3693 | clears the bit, returns the old one, and uncounts only set bits |
| ClusterServer.Server.AddSlot | redis/src/redis-5.0.2/src/cluster.c:3704-3709 | fails on an assigned slot, else assigns it; table, bitmaps and counters agree afterwards |
| ClusterServer.Server.DelSlot | redis/src/redis-5.0.2/src/cluster.c:3714-3721 | fails on an unassigned slot, else unassigns it; the assertion that the owner's bit was set never fires |
| ClusterServer.Server.DelNodeSlots | redis/src/redis-5.0.2/src/cluster.c:3725-3735 | unassigns exactly the node's slots and returns their number |
| ClusterServer.Server.FailoverReplaceYourMaster | redis/src/redis-5.0.2/src/cluster.c:2908-2936 | the replica becomes a master and owner of exactly the slots of its old master, agreement kept |
| ClusterServer.Server.UpdateSlotsConfigWith | redis/src/redis-5.0.2/src/cluster.c:1530-1624 | the loop over the bitmap has the effect of the claim function on the whole view, including turning into a replica of the claimant when its master has lost its last slot, and returns the lost slots that still hold keys; it dereferences a null master exactly if a replica that knows no master sees an unassigned slot claimed, and fails the assertion exactly if a replica that serves slots itself is to follow the claimant |
| ClusterServer.Server.SetMaster | redis/src/redis-5.0.2/src/cluster.c:3931-3947 | fails the assertion exactly if this node serves slots, else becomes a replica of the node, closing imports and migrations if it was a master |
| ClusterServer.Server.CloseAllSlots | redis/src/redis-5.0.2/src/cluster.c:3739-3744 | no slot is being imported or migrated afterwards, nothing else changes |
| ClusterServer.Server.SwitchRoleOf | redis/src/redis-5.0.2/src/cluster.c:1883-1916 | the sender becomes a master, or a replica of the node it names if that is known; a master that turns into a replica loses all its slots |
| ClusterServer.Server.SetNodeAsMaster | redis/src/redis-5.0.2/src/cluster.c:1503-1517 | the node is a master without a master afterwards |
| ClusterServer.Server.ReceivePingPacket | redis/src/redis-5.0.2/src/cluster.c:1883-1996 | a ping in place has the effect of the ping function on the whole view, unless its claim stops the server, and the condition for that is exact |
| ClusterServer.Server.ReceiveUpdatePacket | redis/src/redis-5.0.2/src/cluster.c:2070-2091 | the same for an update packet |
| ClusterServer.IdleReplicaAsserts | redis/src/redis-5.0.2/src/cluster.c:3931-3934 | the assertion never fails in a node that serves nothing as a replica |
| Masterless.NullMasterRun | redis/src/redis-5.0.2/src/cluster.c:1530-1624 | a run that ends with a ping in flight whose claim makes the receiver, a replica that knows no master, dereference null |
| ClusterServer.Server.GetMaxEpoch | redis/src/redis-5.0.2/src/cluster.c:968-981 | the loop returns an upper bound of all known epochs that is one of them |
| ClusterServer.Server.BumpConfigEpochWithoutConsensus | redis/src/redis-5.0.2/src/cluster.c:1012-1029 | has the effect of the bump function on the whole view |
| ClusterServer.Server.HandleConfigEpochCollision | redis/src/redis-5.0.2/src/cluster.c:1077-1092 | has the effect of the collision function on the whole view |
| ClusterServer.Server.ProcessHeader | redis/src/redis-5.0.2/src/cluster.c:1700-1713 | raises current and config epoch to those of a packet from a known node, ignores unknown ones |
| ClusterServer.Server.ClaimsAreCurrent | redis/src/redis-5.0.2/src/cluster.c:2778-2798 | the loop finds whether a claimed slot is owned by a node with a newer config epoch |
| ClusterServer.Server.MayVote | redis/src/redis-5.0.2/src/cluster.c:2713-2798 | the tests in source order succeed exactly when every condition for a vote holds |
| ClusterServer.Server.SendFailoverAuthIfNeeded | redis/src/redis-5.0.2/src/cluster.c:2706-2807 | votes exactly when every condition holds, and then records the epoch and the time |
| ClusterServer.Server.ReceiveAuthAck | redis/src/redis-5.0.2/src/cluster.c:2045-2057 | counts an ack exactly if its sender is a master with slots and its epoch is not older than the election's |
| ClusterServer.Server.HandleSlaveFailover | redis/src/redis-5.0.2/src/cluster.c:2946-3114 | schedules, delays, requests or wins exactly as the failover function says |
| ClusterServer.Server.ComputeSize | redis/src/redis-5.0.2/src/cluster.c:3793-3814 | the loop counts the masters that serve a slot |
| ClusterServer.Server.DelNode | redis/src/redis-5.0.2/src/cluster.c:905-932 | the node's slots become unassigned, imports from it and migrations to it are closed, and its replicas masterless, agreement kept |
| ClusterServer.Server.ClaimAfterRemoval | redis/src/redis-5.0.2/src/cluster.c:905-932 | how a replica gets there: once its master is removed, the claim of any other node to a slot that the master served or that nobody did is the null dereference |
| ClusterServer.Server.Forget | redis/src/redis-5.0.2/src/cluster.c:861-883 | drops a node nothing refers to, agreement kept |
| Resp.CatGenericCommand | redis/src/redis-5.0.2/src/aof.c:493-516 | the loop appends exactly the encoding of the command, counts included |
| AofLoader.LoadAppendOnlyFile | redis/src/redis-5.0.2/src/aof.c:673-873 | the read loop computes the load function: state, truncation offset or fatal error, a failed truncate included |
| AofLoader.ReadOne | redis/src/redis-5.0.2/src/aof.c:740-776 | reads one command with the source's end-of-file and format-error exits |
| AofLoader.LoadOfCutLog | redis/src/redis-5.0.2/src/aof.c:726-873 | a log cut at any byte never reaches the format-error exit, memory reflects exactly the complete commands with an open transaction dropped, and the truncation offset is stated for every cut |
| AofLoader.LoadOfLog | redis/src/redis-5.0.2/src/aof.c:673-873 | loading an encoded log runs its commands |
| AofLoader.AppendingAfterLoad | redis/src/redis-5.0.2/src/aof.c:822-873 | what is appended after a truncating load continues the log faithfully if and only if the cut was not in the middle of a command inside an open MULTI |
| AofLoader.CutInsideTransaction | redis/src/redis-5.0.2/src/aof.c:822-873 | such a cut: anywhere inside the first command after a MULTI |
| AofLoader.CleanLoad | redis/src/redis-5.0.2/src/aof.c:822-873 | after a truncating load of a log cut in any other place, file and memory are those of the commands kept, with an open transaction gone from both |
| AofLoader.OpenTransaction | redis/src/redis-5.0.2/src/aof.c:787-798 | nothing queued by an open transaction has run |
| Dataset.IntRoundTrip | redis/src/redis-5.0.2/src/aof.c:1315-1320 | a printed number is read back as the same number |
| AofRewrite.RewritePreserves | redis/src/redis-5.0.2/src/aof.c:1262-1335 | replaying the rewritten log rebuilds every database, for any number of databases, any contents and any iteration order, if and only if no collection is empty and no deadline is -1 |
| AofRewrite.SurvivesExactly | redis/src/redis-5.0.2/src/aof.c:1262-1335 | the same condition for a single database, both directions |
| AofRewrite.DeadlineLost | redis/src/redis-5.0.2/src/aof.c:1283-1320 | such a key: the log that sets a deadline of -1 loads to it, and the rewritten log brings the key back without a deadline |
| AofRewrite.ChunksExec | redis/src/redis-5.0.2/src/aof.c:895-1095 | commands of at most 64 items each do together what one command with all items does |
| AofRewrite.EntryExec | redis/src/redis-5.0.2/src/aof.c:1291-1320 | the commands of one key rebuild its value and its deadline |
| AofRewriteRio.Rio.RewriteItems | redis/src/redis-5.0.2/src/aof.c:895-1095 | the counting loop writes chunked commands each of which declares exactly the arguments it carries |
| AofRewriteRio.Rio.RewriteEntry | redis/src/redis-5.0.2/src/aof.c:1283-1320 | writes the commands of one key |
| AofRewriteRio.Rio.RewriteDb | redis/src/redis-5.0.2/src/aof.c:1270-1328 | writes SELECT and the keys, and nothing for an empty database |
| AofRewriteRio.Rio.RewriteAppendOnlyFile | redis/src/redis-5.0.2/src/aof.c:1262-1335 | writes exactly the encoding of the rewrite commands of all databases |
| AofRewriteRio.Rio.WriteBulkCount | redis/src/redis-5.0.2/src/rio.c:313-323 | writes prefix, number and line end |
| AofRewriteRio.Rio.WriteBulkString | redis/src/redis-5.0.2/src/rio.c:326-333 | writes an argument |
| AofFeed.FeedReplays | redis/src/redis-5.0.2/src/aof.c:525-603 | for every command, replaying what it fed gives the live database with the deadline it set put off by exactly the time between execution and translation |
| AofFeed.FeedIsExact | redis/src/redis-5.0.2/src/aof.c:525-553 | the replay equals the live database if and only if that time is zero or the command set no relative deadline |
| AofFeed.EventRuns | redis/src/redis-5.0.2/src/aof.c:555-619 | with SELECT elided whenever the database is unchanged, a client replaying what one command or expiry has fed ends in the live databases and still selects the database the feed believes in |
| AofFeed.WorkRuns | redis/src/redis-5.0.2/src/multi.c:153-176 | the same for a transaction: MULTI, the commands with the DELs and SELECTs that fall between them, and EXEC replay to the live databases |
| AofFeed.TransactionRun | redis/src/redis-5.0.2/src/multi.c:146-176 | commands between MULTI and EXEC do what they do without them |
| AofFeed.CutTransaction | redis/src/redis-5.0.2/src/aof.c:787-798 | a transaction cut anywhere before its EXEC has done nothing |
| AofFeed.LateTranslation | redis/src/redis-5.0.2/src/aof.c:525-553 | a case of the time being lost: EXPIRE translated a millisecond after it was executed |
| AofJournal.JournalGrows | redis/src/redis-5.0.2/src/aof.c:555-619 | a log annotated with the databases after each command and each transaction stays right as more is fed |
| AofJournal.CutGivesMark | redis/src/redis-5.0.2/src/aof.c:673-873 | a log cut after any of its commands, with an open transaction dropped, gives exactly the databases after the last command or transaction that is whole, with the part of the next command that was kept replayed on them |
| AofJournal.CutExactly | redis/src/redis-5.0.2/src/aof.c:555-619 | a log that ends inside one command or transaction gives databases the server had before, in the midst of or after it if and only if it does not end between a SET and its PEXPIREAT, or the key already held the value for good |
| AofJournal.CutLosesDeadline | redis/src/redis-5.0.2/src/aof.c:569-603 | between the SET and the PEXPIREAT of a time to live, whether or not a DEL of the expired key came first, the log gives the new value without its deadline: never what the server had afterwards or in between, and what it had before if and only if the key already held the value for good |
| AofJournal.CutAfterExpiry | redis/src/redis-5.0.2/src/db.c:1167-1187 | between the DEL of an expired key and the command that met it, the log gives what the server had in between |
| AofFeed.ScanFollowsParse | redis/src/redis-5.0.2/src/aof.c:582-598 | the feed's scan over the options of SET finds the time to live the command used, and finds one of the other kind exactly if some time to live is spelled like the other option word |
| AofFeed.ClashingOptions | redis/src/redis-5.0.2/src/aof.c:587-591 | a SET that the command accepts and for which the assertion fails |
| AofFeed.ExpiredReplays | redis/src/redis-5.0.2/src/db.c:1167-1187 | the DEL fed for an expired key deletes it on replay |
| LiveCommands.Master.ExpireIfNeeded | redis/src/redis-5.0.2/src/db.c:1130-1187 | deletes a key past its deadline and feeds a DEL |
| LiveCommands.Master.ExpireGenericCommand | redis/src/redis-5.0.2/src/expire.c:405-450 | has the effect the replay results are about, for all four commands and all exits |
| LiveCommands.Master.SetGenericCommand | redis/src/redis-5.0.2/src/t_string.c:67-93 | the same for SET, SETEX and PSETEX with NX, XX and a time to live |
| LiveCommands.Master.SetCommand | redis/src/redis-5.0.2/src/t_string.c:96-140 | SET with its options parsed |
| LiveCommands.Master.SetExCommand | redis/src/redis-5.0.2/src/t_string.c:147-155 | SETEX and PSETEX |
| LiveCommands.SetOptions | redis/src/redis-5.0.2/src/t_string.c:96-136 | the option loop computes the parse |
| LiveCommands.ExpireOutcome | redis/src/redis-5.0.2/src/expire.c:405-450 | the key survives exactly if it existed, had not expired and the new deadline lies in the future; the deadline is then exactly that, and no other key changes |
| AofProtocol.LogHoldsDataset | redis/src/redis-5.0.2/src/aof.c:1532-1780 | at every point of every run with the log on (commands on one database and MOVE, SWAPDB and FLUSHALL on several, transactions, flushes, rewrites that succeed or fail anywhere, stopping, starting, crashing and restarting), loading file and buffer rebuilds the live databases |
| AofProtocol.CrashLosesTheBuffer | redis/src/redis-5.0.2/src/aof.c:331-491 | if the buffer is lost at any point of any run, the file loads without a fatal error; if it ends after a whole command or transaction, it loads to the databases of an earlier point of the run; if it ends inside one, it loads to databases the server had before or during it if and only if it does not end between a SET and its PEXPIREAT or the key already held the value for good; a transaction comes back whole or not at all |
| AofProtocol.RunRecords | redis/src/redis-5.0.2/src/aof.c:555-619 | what the log is annotated with is the past of the run: each annotated state was the server's at some point, and each but the first came from the one before by executing the annotated command or transaction |
| AofProtocol.CrashLosesDeadline | redis/src/redis-5.0.2/src/aof.c:569-603 | a run, SETEX and a partial write, after which the file loads to databases that the server had at no point of the run |
| AofProtocol.RestartExactly | redis/src/redis-5.0.2/src/aof.c:822-873 | after a crash at any point of any run, what the restarted server appends continues the file faithfully if and only if the file does not end inside a command of an open transaction |
| AofProtocol.RestartKeepsInv | redis/src/redis-5.0.2/src/aof.c:822-873 | a restart in that case, with the file truncated where the loader says, goes on as a run |
| AofProtocol.InstallHoldsEverything | redis/src/redis-5.0.2/src/aof.c:1386-1418 | a successful switch installs the snapshot of the fork followed by every byte fed since, however pipe, child and parent shared them |
| AofProtocol.StepKeepsInv | redis/src/redis-5.0.2/src/aof.c:95-194 | every step of parent and child, of feeding transactions and of restarting keeps: child difference, pipe and rewrite buffer are the bytes fed since the fork; after the child's last read the pipe is empty and stays so; file and buffer are a log of what the server did |
| AofProtocol.SnapshotRepresents | redis/src/redis-5.0.2/src/aof.c:1532-1590 | the snapshot written at the fork replays to the databases at the fork |
| AofServer.AofServer.BufferAppend | redis/src/redis-5.0.2/src/aof.c:125-169 | the block loop appends exactly the bytes, in blocks of at most 10 MB |
| AofServer.AofServer.ChildWriteDiffData | redis/src/redis-5.0.2/src/aof.c:95-122 | whatever each write takes, the bytes moved are a prefix of the buffer, in order, and none once sending was stopped; the event is removed exactly if stopped or empty |
| AofServer.AofServer.BufferWrite | redis/src/redis-5.0.2/src/aof.c:174-194 | success means that all blocks were written whole |
| AofServer.AofServer.Feed | redis/src/redis-5.0.2/src/aof.c:555-619 | appends SELECT if needed and the translation to the buffer if the log is on and to the rewrite buffer if a child runs; aborts exactly on clashing SET options |
| AofServer.AofServer.Propagate | redis/src/redis-5.0.2/src/server.c:2311-2318 | all commands of an event: nothing with the log off, else as if appended at once |
| AofServer.AofServer.Exec | redis/src/redis-5.0.2/src/multi.c:106-176 | MULTI, what each command feeds, and EXEC, one after the other |
| AofServer.PropagatedIsExecute | redis/src/redis-5.0.2/src/multi.c:106-176 | what is appended for a command or a transaction is the state machine's step for it |
| AofServer.AofServer.StartRewrite | redis/src/redis-5.0.2/src/aof.c:1532-1590 | all exits; success means fresh pipes and a forced SELECT, failure leaves everything but the pipes |
| AofServer.AofServer.ChildPipeReadable | redis/src/redis-5.0.2/src/aof.c:1449-1470 | sets the stop flag and then answers, once per request |
| AofServer.AofServer.RewriteDone | redis/src/redis-5.0.2/src/aof.c:1633-1780 | every exit of the handler: install on full success, else file, buffer and state untouched; cleanup in all cases |
| AofServer.AofServer.StopAppendOnly | redis/src/redis-5.0.2/src/aof.c:228-238 | with the log on or awaiting its first rewrite: flushes, switches off and drops the child |
| AofServer.AofServer.StartAppendOnly | redis/src/redis-5.0.2/src/aof.c:242-282 | all exits; drops a running child and forks a new one, or waits for the saving child |
| AofServer.AofServer.Write | redis/src/redis-5.0.2/src/aof.c:291-310 | after interrupts, short writes and errors, the file has grown by exactly the bytes reported |
| AofServer.AofServer.Flush | redis/src/redis-5.0.2/src/aof.c:331-491 | with the log on, file plus buffer is unchanged by any mix of full, short, failed and postponed writes with or without a successful truncate, and the recorded size is the file's; awaiting the first rewrite, with a stale recorded size, the buffer still loses only what was written; with the log off nothing happens |
| AofServer.ReadDiff | redis/src/redis-5.0.2/src/aof.c:1250-1260 | the child's read loop drains the pipe in order |
| AofServer.CatExpireAt | redis/src/redis-5.0.2/src/aof.c:525-553 | appends the PEXPIREAT the translation stands for |
| AofServer.ScanOptions | redis/src/redis-5.0.2/src/aof.c:587-590 | the option loop computes the scan |
| AofServer.CatTranslated | redis/src/redis-5.0.2/src/aof.c:569-603 | appends the encoding of the translation, or aborts |
| BlockingOrder.RunKeepsIndex | redis/src/redis-5.0.2/src/blocked.c:102-181 | over every run of connecting, blocking, timing out, leaving, writing, overwriting and serving: a client is queued exactly once under exactly its keys, no queue is empty, ready list and dictionary agree, the counters count, and the unblocked list holds each flagged client once |
| BlockingRuns.RunIsGood | redis/src/redis-5.0.2/src/blocked.c:102-181 | if no overwrite strands a client, every key that is not about to be served also holds nothing that anyone in its queue wants |
| BlockingRuns.NoLostWakeup | redis/src/redis-5.0.2/src/blocked.c:470-488 | in every such run, after every command, a client blocked for a list or sorted set is blocked only on keys that hold none |
| BlockingRuns.OverwriteExactly | redis/src/redis-5.0.2/src/db.c:189-206 | an overwrite, which signals nobody, leaves somebody blocked on a key that holds what they wait for, after the serving that follows every command, if and only if it changes the kind of value and a client in the queue waits for the new kind |
| BlockingRuns.OverwriteCanStrand | redis/src/redis-5.0.2/src/db.c:216-225 | it happens: a run of five steps after which a client stays blocked on a key that holds a list |
| Blocking.HandleKeyMeasure | redis/src/redis-5.0.2/src/blocked.c:246-468 | working on a ready key either unblocks nobody and signals nothing, or leaves fewer blocked clients: the measure by which serving ends |
| BlockingIndex.HandleKeepsInv | redis/src/redis-5.0.2/src/blocked.c:246-468 | serving keeps the index and empties the ready list and its dictionary |
| BlockingIndex.BlockKeepsInv | redis/src/redis-5.0.2/src/blocked.c:497-539 | blocking on any list of keys, repeated or not, keeps the index |
| BlockingIndex.UnblockKeepsInv | redis/src/redis-5.0.2/src/blocked.c:162-181 | unblocking keeps the index, the counters and the reprocessing list |
| BlockingServe.ListServedInOrder | redis/src/redis-5.0.2/src/blocked.c:267-325 | the clients served for a list key, followed by those still waiting, are the list clients of the queue in order, and some are left only if the list is empty |
| BlockingServe.ZSetServedInOrder | redis/src/redis-5.0.2/src/blocked.c:328-371 | the same for sorted sets |
| BlockingOrder.FirstInFirstOut | redis/src/redis-5.0.2/src/blocked.c:267-371 | if all that block on a key block for the same type, the key's queue is at every point of every run in the order in which its clients blocked |
| BlockingOrder.ListServingKeepsOrder | redis/src/redis-5.0.2/src/blocked.c:267-325 | serving a list key keeps the order of the clients of another type if and only if all of them stand on one side of the place where the list runs out, which is read off the state before: the queue, the length of the list, and which list clients take an element away for good |
| BlockingOrder.ZSetServingKeepsOrder | redis/src/redis-5.0.2/src/blocked.c:328-371 | the same for sorted sets, the place being where as many sorted-set clients have passed as there are elements |
| BlockingOrder.MixedQueueReorders | redis/src/redis-5.0.2/src/blocked.c:275-325 | a reachable state in which one pushed element makes a client overtake another that blocked first |
| BlockingServe.BlpopElementsInOrder | redis/src/redis-5.0.2/src/blocked.c:289-312 | with BLPOP clients the i-th served gets the i-th element |
| BlockingServe.HandleQuiets | redis/src/redis-5.0.2/src/blocked.c:246-468 | when serving ends nobody waits for what a key holds, and no collection is empty |
| BlockingServe.HandleConserves | redis/src/redis-5.0.2/src/blocked.c:246-468 | elements stored plus elements delivered stay the same multiset through any serving, BRPOPLPUSH and failed BRPOPLPUSH included |
| BlockingServe.ServedListConserves | redis/src/redis-5.0.2/src/t_list.c:628-683 | one client: popped and delivered, popped and pushed elsewhere, or popped and put back |
| BlockedServer.BlockedServer.BlockClient | redis/src/redis-5.0.2/src/blocked.c:102-107 | sets flag and type and counts |
| BlockedServer.BlockedServer.BlockForKeys | redis/src/redis-5.0.2/src/blocked.c:497-539 | the loop over the keys has the effect of the blocking function on the whole state |
| BlockedServer.BlockedServer.UnblockClientWaitingData | redis/src/redis-5.0.2/src/blocked.c:543-576 | the loop finds every queue it looks for and takes the client out of all of them, freeing emptied ones |
| BlockedServer.BlockedServer.UnblockClient | redis/src/redis-5.0.2/src/blocked.c:162-181 | has the effect of the unblocking function on the whole state |
| BlockedServer.BlockedServer.QueueClientForReprocessing | redis/src/redis-5.0.2/src/blocked.c:151-158 | adds a client once |
| BlockedServer.BlockedServer.ProcessUnblockedClients | redis/src/redis-5.0.2/src/blocked.c:112-133 | empties the list and clears exactly the flags |
| BlockedServer.BlockedServer.SignalKeyAsReady | redis/src/redis-5.0.2/src/blocked.c:585-606 | queues a key once, and only if somebody waits |
| BlockedServer.BlockedServer.DbAdd | redis/src/redis-5.0.2/src/db.c:173-182 | adds the value and signals a new list or sorted set |
| BlockedServer.BlockedServer.ServeClientBlockedOnList | redis/src/redis-5.0.2/src/t_list.c:550-683 | delivers, or pushes to the target and delivers, or fails on a target of the wrong type |
| BlockedServer.BlockedServer.ServeListClients | redis/src/redis-5.0.2/src/blocked.c:267-317 | the loop reads the queue only while it exists, and computes the serving function |
| BlockedServer.BlockedServer.ServeZSetClients | redis/src/redis-5.0.2/src/blocked.c:333-371 | the same for sorted sets |
| BlockedServer.BlockedServer.HandleClientsBlockedOnKeys | redis/src/redis-5.0.2/src/blocked.c:246-468 | the nested loops end, compute the serving function and keep the index, ready list empty |
| Bitfield.GetAfterSet | redis/src/redis-5.0.2/src/bitops.c:209-241 | get after set returns the value modulo 2 to the width, at every offset and width |
| Bitfield.SetFieldMeans | redis/src/redis-5.0.2/src/bitops.c:209-222 | every bit of the field becomes the matching digit of the value, every other bit stays |
| Bitfield.FieldRoundTrip | redis/src/redis-5.0.2/src/bitops.c:224-263 | unsigned fields of 1 to 63 bits and signed ones of 1 to 64 bits read back the value reduced to their range |
| Bitfield.OtherFieldKept | redis/src/redis-5.0.2/src/bitops.c:209-241 | a field that does not overlap reads as before |
| Bitfield.CheckIncrement | redis/src/redis-5.0.2/src/bitops.c:288-375 | for an old value in range and any 64-bit increment the check reports overflow exactly if the mathematical sum does not fit, with the wrapped or clamped sum as limit |
| Bitfield.CheckSet | redis/src/redis-5.0.2/src/bitops.c:1036-1040 | for SET the check is exact if and only if not (SAT and (unsigned and negative, or signed, narrower than 64 bits and so low that the distance to the maximum overflows)) |
| Bitfield.IncrByExact | redis/src/redis-5.0.2/src/bitops.c:1022-1081 | INCRBY replies and stores exactly the sum, wrapped, clamped or not at all |
| Bitfield.SetExact | redis/src/redis-5.0.2/src/bitops.c:1022-1081 | SET replies the old value and stores the new one under the same policies, outside those values |
| Bitfield.SetStoresMaximum | redis/src/redis-5.0.2/src/bitops.c:288-375 | for those values SET under SAT stores the maximum although they lie below the minimum |
| Bitfield.OnlyTheField | redis/src/redis-5.0.2/src/bitops.c:1007-1117 | no operation changes a bit outside its field |
| Bitfield.GetReadsPadded | redis/src/redis-5.0.2/src/bitops.c:1082-1115 | GET through the nine-byte buffer reads the field of the string extended with zeros |
| Bitfield.SetUnsignedBitfield | redis/src/redis-5.0.2/src/bitops.c:209-222 | the loop over an array writes the field |
| Bitfield.GetUnsignedBitfield | redis/src/redis-5.0.2/src/bitops.c:229-241 | the loop over an array reads the field |
| Bitfield.GetField | redis/src/redis-5.0.2/src/bitops.c:229-263 | signed reading copies the top bit upwards, which is two's complement |
| Bitfield.ExecuteOp | redis/src/redis-5.0.2/src/bitops.c:1010-1117 | one operation on the array, all branches |
| Bitfield.ExecuteOps | redis/src/redis-5.0.2/src/bitops.c:1007-1117 | all operations in order |
| Bitpos.RedisBitpos | redis/src/redis-5.0.2/src/bitops.c:101-186 | for every length and alignment the word-wise search returns what the search bit by bit returns, with zero padding on the right and -1 for no set bit; the panic is never reached |
| Bitpos.LoadWord | redis/src/redis-5.0.2/src/bitops.c:151-158 | the loop loads the bytes left, first one most significant, padded with zeros |
| Bitop.RedisPopcount | redis/src/redis-5.0.2/src/bitops.c:40-92 | for every length and alignment the count by 28 bytes at a time is the sum over all bits |
| Bitop.LanesValue | redis/src/redis-5.0.2/src/bitops.c:66-86 | the masked additions leave in each byte of a word the number of its one bits |
| Bitop.GatherSums | redis/src/redis-5.0.2/src/bitops.c:80-86 | the multiplication adds the four byte counts of seven words without overflow |
| Bitop.Bitop | redis/src/redis-5.0.2/src/bitops.c:627-744 | the word-parallel path followed by the plain one gives, for missing keys and unequal lengths, what the definition byte by byte gives |
| Bitop.FastPath | redis/src/redis-5.0.2/src/bitops.c:668-728 | blocks of four words are done for as long as all sources reach |
| Bitop.AppliedBytes | redis/src/redis-5.0.2/src/bitops.c:677-726 | a word operation is the byte operation on each of its bytes |
| Bitop.Sources | redis/src/redis-5.0.2/src/bitops.c:627-654 | the loop over the keys finds the greatest and smallest length, a missing key counting as empty |
| SlotKeys.KeyHashSlot | redis/src/redis-5.0.2/src/cluster.c:662-681 | the two loops find the hash tag, or the whole key if there is none or it is empty |
| SlotKeys.KeySpace.SlotToKeyUpdate | redis/src/redis-5.0.2/src/db.c:1470-1487 | index and count of exactly one slot change |
| SlotKeys.KeySpace.Add | redis/src/redis-5.0.2/src/db.c:173-182 | adds a key; index and counts remain the keyspace grouped by slot |
| SlotKeys.KeySpace.Overwrite | redis/src/redis-5.0.2/src/db.c:189-206 | replaces a value, deadline and index stay |
| SlotKeys.KeySpace.Delete | redis/src/redis-5.0.2/src/db.c:271-281 | removes key and deadline, reports whether the key existed, index kept |
| SlotKeys.KeySpace.ExpireIfNeeded | redis/src/redis-5.0.2/src/db.c:1130-1187 | removes a key past its deadline, except on a replica |
| SlotKeys.KeySpace.SetKey | redis/src/redis-5.0.2/src/db.c:216-225 | sets the value and removes the deadline whether or not the old value had expired, index kept |
| SlotKeys.KeySpace.RemoveExpire | redis/src/redis-5.0.2/src/db.c:1065-1070 | removes the deadline |
| SlotKeys.KeySpace.SetExpire | redis/src/redis-5.0.2/src/db.c:1076-1088 | only existing keys get deadlines |
| SlotKeys.KeySpace.GetExpire | redis/src/redis-5.0.2/src/db.c:1092-1103 | -1 without a deadline; the safety check never fails |
| SlotKeys.KeySpace.Rename | redis/src/redis-5.0.2/src/db.c:869-909 | all exits, expired source and destination included; value and deadline move, the destination's old deadline is gone, index kept |
| SlotKeys.KeySpace.Flush | redis/src/redis-5.0.2/src/db.c:1497-1502 | empties the index with the keyspace |
| SlotKeys.KeySpace.GetKeysInSlot | redis/src/redis-5.0.2/src/db.c:1507-1522 | returns only keys of the slot, each once, and as many as there are up to the limit |
| SlotKeys.KeySpace.DelKeysInSlot | redis/src/redis-5.0.2/src/db.c:1526-1545 | ends, removes exactly the keys of the slot and returns their number |
| SlotKeys.LeastIsInSlot | redis/src/redis-5.0.2/src/db.c:1507-1545 | the first entry from a slot's prefix on belongs to the slot if and only if the slot has one |
| LinkedList.List.AddHead | redis/src/redis-5.0.2/src/adlist.c:88-106 | puts an element in front of the sequence; links, acyclicity and length kept |
| LinkedList.List.AddTail | redis/src/redis-5.0.2/src/adlist.c:114-132 | puts an element at the end |
| LinkedList.List.Insert | redis/src/redis-5.0.2/src/adlist.c:134-161 | inserts before or after the given node |
| LinkedList.List.Delete | redis/src/redis-5.0.2/src/adlist.c:167-180 | removes exactly the given node |
| LinkedList.List.Empty | redis/src/redis-5.0.2/src/adlist.c:56-71 | the walk over len nodes frees every node exactly once, in order, and leaves the empty sequence |
| LinkedList.List.Rotate | redis/src/redis-5.0.2/src/adlist.c:330-343 | the last element becomes the first |
| LinkedList.List.Join | redis/src/redis-5.0.2/src/adlist.c:347-362 | concatenates, the other list is empty and valid |
| LinkedList.List.Search | redis/src/redis-5.0.2/src/adlist.c:290-308 | the first match from the head, or nothing if there is none |
| LinkedList.List.Index | redis/src/redis-5.0.2/src/adlist.c:315-327 | positive and negative indexes, null out of range |
| LinkedList.List.Dup | redis/src/redis-5.0.2/src/adlist.c:250-279 | a fresh list of the copied values, or nothing exactly if a copy fails |
| LinkedList.List.DeleteWhere | redis/src/redis-5.0.2/src/adlist.c:215-240 | iterating while deleting the current node visits every original element once in order, and leaves exactly those not chosen |
| LinkedList.List.DeleteWhereBackwards | redis/src/redis-5.0.2/src/adlist.c:215-240 | the same from the tail, in reverse order |

## Left out

- Epochs, deadlines and lengths are unbounded: 64-bit wrap-around is modelled only in BITFIELD.
- Cluster handshake, gossip about addresses and failure reports, replica migration, manual-failover timing, MIGRATE, administrative commands and nodes.conf: not modelled; failure flags are set by an arbitrary step, and nodes neither restart nor reset.
- The module flag that switches redirections off is not modelled.
- ElectionSafety.OneWinnerPerEpoch: membership that changes within an epoch is outside its hypotheses.
- EpochCollision.CollisionsResolve: runs of pings only; elections, updates and manual bumps can make new collisions at any time, and Overtaken.ElectionLeavesStuckCollision shows one that pings do not resolve.
- ClusterServer.Server.DelNode: failure reports are not modelled.
- ClusterServer.Server.UpdateSlotsConfigWith: the deletion of keys in lost slots is only reported, as the slots to delete from; SlotKeys.KeySpace.DelKeysInSlot is the deletion itself. A server that stops there goes on in ClusterProtocol, whose results hold of every run that goes further.
- Failed writes of the rewriting child and of rio are the child's failure as a whole; fsync is not modelled.
- The RDB preamble, streams, modules, Lua, lazy freeing and floating-point formatting of scores: scores are their printed text, deletion is synchronous.
- Object encodings (ziplist, intset, quicklist): collections are their contents in any iteration order.
- AofLoader.ReadOne: counts are read as plain decimal digits; blanks and signs that atoi and strtol accept are not modelled.
- AofLoader.LoadAppendOnlyFile: a command name the server does not know ends the load in the source; here every command has some effect.
- SET options are compared as byte strings, not up to an embedded zero byte; an option word in the last position is followed by nothing.
- AofProtocol.LogHoldsDataset: takes the clock read when a command is fed to be the one read when it is executed; AofFeed.FeedReplays states the difference otherwise.
- AofProtocol.LogHoldsDataset: a rewrite is started only on databases without empty collections and without deadlines of -1, which AofRewrite.RewritePreserves shows to be needed.
- AofProtocol.StepKeepsInv: a transaction that itself starts a rewrite or switches the log on or off is not modelled, and a restart takes place only where RestartExactly allows it.
- Streams and WAIT in blocked.c: clients blocked for them are only counted and unblocked; timeouts and replies to timed-out clients are not modelled.
- BlockedServer.BlockedServer.HandleClientsBlockedOnKeys: stream keys are not served.
- BlockedServer.BlockedServer.ProcessUnblockedClients: the commands a client executes between two turns are not modelled.
- Blocking keys are pairs of database and name; the effect of serving on replication and keyspace events is not modelled.
- Bitfield.GetField: at width 64 the code shifts a word by its whole size, which C leaves undefined; the model takes the result to be 0. A machine that takes the count modulo 64 would read every negative 64-bit field as -1.
- Bitfield.CheckIncrement: the same shift under WRAP at width 64.
- Parsing of BITFIELD, BITOP and BITPOS arguments, and ranges of BITCOUNT and BITPOS.
- The 256-entry table of redisPopcount is taken to hold the bit counts of the bytes.
- crc16 is any function; the radix tree is an ordered set.
- Memory allocation failures of the list functions, reference counts, logging and statistics.
- The Node.js application around the vendored Redis.
