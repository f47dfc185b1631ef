# RedisPipe, verified

Dafny models and proofs for the core of RedisPipe, an implicitly pipelined Redis client in Go with a
cluster layer. `dafny verify dfyconfig.toml` checks the whole project.

Five parts, hardest first.

1. **The pipelined connection** (`Pipeline`, `PipelineInvariant`, `PipelineTheorems`, `PipelineHistory`,
   `PipelineCauses`, `PipelineProgress`, `Connection`). Senders, any number of socket writers and readers (old ones
   stay alive beside the new one), dialling, reconnecting and closing are steps of one state machine; whatever the
   network does is a parameter of a step. One invariant is kept by every step, and the theorems speak about every
   reachable state: each future is at exactly one place and is resolved once, replies match requests by wire position,
   a batch is never split, not-sent errors tell the truth, no wake-up is lost, and the connection can always be
   brought to rest with every future resolved. `PipelineHistory` and `PipelineCauses` trace a state back to its run:
   which call stands where on the wire, and which step an error, a phase or a dropped queue goes back to. The class
   `Connections.Connection` is the imperative form; each method is proved to take the state to that of the
   corresponding steps.
2. **Retries and redirects** (`Retry`, `Handles`, `Composition`). Requests and transactions are machines over
   budgets of redirects and hard errors. Over any finite set of connections they are bounded, a run reaches the
   bound, they deliver once, and, composed with part 1 under the assumption that a server does not execute a command
   it answers with MOVED, ASK, LOADING, TRYAGAIN or EXECABORT, a write is executed at most once. `DropLocks` shows
   that retrying while the queue mutex is held cannot deadlock: waits only lead to droppers that published later,
   and from every reachable state each mutex can be brought free. `NodeWait` shows that callbacks waiting for a new
   connection run exactly once. What the Resolve functions decide is also stated as tables over every outcome.
3. **The cluster map** (`Rng`, `Selection`, `SlotTable`, `Mapping`, `Nodes`, `ParseSlots`, `Bits`). The generator
   behind the selection loops has full period, so the loops end; selection is sound and complete; the bit-packed
   slot table refines a plain map; reloads keep the configuration well formed; node reference counts equal the
   number of generations that hold the node.
4. **The wire codec** (`Decimal`, `Resp`, `Writer`, `Replies`). Printer and reader over machine integers are inverse,
   requests are framed exactly, and the routing key is the key on the wire. `Replies` goes from the bytes of an error
   reply to what becomes of its request.
5. **Fast forms of simple things** (`Crc16`, `Slots`, `CommandSet`, `ZeroHash`, `CtxBatch`). Table-driven CRC
   against long division of polynomials, linear probing against set membership, the lock-free batch collector over
   all interleavings.

Code and documentation disagree, or the code does less than one may expect, in these places; the model follows the code.

- A host with more than 32 connections: round robin keeps its candidates in a 32-bit mask and considers the first 32
  only (`Selection.RoundRobinCompleteIff`, `Selection.OverlookingSearch`).
- The hard-error counter is a uint8: with a limit of 256 or more it wraps, and only the number of connections bounds
  the retries. The ceiling by the limit holds exactly when the limit is at most 255 or there are no more connections
  than one more than the limit (`Retry.DocumentedCeilingIff`).
- A batch of 2^32 or more requests never closes the collector's channel (`CtxBatch.ClosedInTheEndIff`,
  `CtxBatch.LargeBatchNeverClosed`).
- A command whose hash is zero counts as a member of every set: the hash test is set membership exactly for other
  names, and for sets with such a name (`CommandSet.MemberIsHashIff`, `ZeroHash.ZeroNameIsEverywhere`).
- BatchSlot counts a RANDOMKEY request with a random slot, BatchKey skips it (`Slots.BatchLoopsAgreeIff`).
- The port check in ParseSlotsInfo adds in int64 and lets the last 10000 values through
  (`ParseSlots.PortPassesIff`); overlapping ranges are accepted (`ParseSlots.ParsedGoodIff`,
  `ParseSlots.OverlapAccepted`).
- A command is said to contain a single space; AppendRequest cuts it at its first space and sends the rest, further
  spaces included, as one argument (`Writer.FindSpace`).
- After an ASK the scan of an aborted transaction accepts other replies and waits before it resends; after a MOVED
  it gives up (`Retry.AbortRedirectsIff`).

## Model

| member | source | states |
|---|---|---|
| PipelineInvariant.StepKeepsInv | redisconn/conn.go:351-888 | Every atomic step of senders, writers, readers, dials, reconnects and close keeps the connection invariant: who holds each future, wire order, one resolution each, no lost wake-up |
| PipelineInvariant.RunKeepsInv | redisconn/conn.go:351-888 | The invariant holds after every legal interleaving of steps |
| PipelineTheorems.EveryFutureAtOnePlace | redisconn/conn.go:647-692 | Conservation: a future is somewhere exactly when it was submitted, and then at exactly one index of exactly one of: queue, writer batch, channel, reader remainder, log of resolutions |
| PipelineTheorems.ResolvedAtMostOnce | redisconn/conn.go:839-888 | No future is resolved twice in any run |
| PipelineTheorems.QuiescentResolvedAll | redisconn/conn.go:754-888 | When the queue is empty and all pairs have ended, exactly the submitted futures have been resolved |
| PipelineTheorems.FinishedPairResolvedAll | redisconn/conn.go:761-768 | Once the reader of a pair is done nothing its writer took is unresolved |
| PipelineTheorems.ReadIsDelivered | redisconn/conn.go:839-850 | The history of answers read on a socket is what the reads of the run delivered, in order |
| PipelineTheorems.WireOrderMatchesAnswers | redisconn/conn.go:839-888 | The j-th request passed to Write that is resolved gets the j-th answer read from that socket, past the last answer the error that broke it; at most one answer read is not handed out |
| PipelineTheorems.DeliveredAnswersMatch | redisconn/conn.go:839-873 | The same told by the run alone: the j-th request on the wire gets the j-th answer the socket delivered |
| PipelineTheorems.AnswersComeFromTheWire | redisconn/conn.go:839-873 | An answer held by a future is the one read at its own wire position |
| PipelineTheorems.SubmissionWholeOnWire | redisconn/conn.go:411-444 | A batch with any future on the wire stands there whole and unbroken: ASKING, MULTI, requests, EXEC |
| PipelineHistory.SubmitEffect | redisconn/conn.go:351-446 | What one call does, for every state and check: either all of it joins the queue as ASKING, MULTI, the requests and EXEC, each header only if its flag is on, or each callback is told in order, the malformed request its own fault and every other one the reason of the refusal; nothing else changes |
| PipelineHistory.WireHoldsWholeCalls | redisconn/conn.go:411-444 | After any run, request q of the run's b-th call stands on the wire with exactly that call around it: q places before it the first request, directly before that MULTI if the call is a transaction, before that ASKING if it asks, after the last request EXEC, and nothing of the call elsewhere |
| PipelineCauses.FailureIsFirstBreak | redisconn/conn.go:718-733 | After any run a pair's error is the one of the first step that broke it: a failed write, or what was read instead of an answer |
| PipelineCauses.FailedWriteIsLast | redisconn/conn.go:804-809 | After a failed write nothing is ever written to that socket again, and the batch counts as written |
| PipelineCauses.PhaseIsLastPublished | redisconn/conn.go:598-681 | After any run the phase that senders look at is the one the run published last |
| PipelineCauses.DropTellsCause | redisconn/conn.go:619-692 | From the publication of a failed dial, a lost socket or a shutdown on, in every interleaving, nothing joins the queue until it is dropped, and what is left is told that very cause, in order, each future once |
| PipelineCauses.OneWakePerArming | redisconn/conn.go:434-443 | A consumed wake token wakes no other writer before a new call |
| PipelineTheorems.EarlierResolvedBefore | redisconn/conn.go:861-888 | Futures of one batch are resolved in index order, EXEC last, replies and errors mixed or not |
| PipelineTheorems.NotSentNeverWritten | redis/error.go:18-29 | An error with the not-sent trait, a LOADING reply aside, reaches only futures of which no byte was passed to Write on any socket |
| PipelineTheorems.NotSentForever | redisconn/conn.go:619-625 | No continuation of the run writes such a future either |
| PipelineTheorems.LogOnlyGrowsRun | redisconn/conn.go:839-888 | Resolutions are never taken back or changed by later steps |
| PipelineTheorems.NoLostWakeup | redisconn/conn.go:305-318 | Queued futures always have a wake token or a woken writer; the closed signal channel is never used |
| PipelineTheorems.BrokenPairCanMove | redisconn/conn.go:761-768 | Writer and reader of a broken pair cannot block each other on the bounded channel: one of them can move until the reader ends |
| PipelineTheorems.QueueMovesOn | redisconn/conn.go:770-821 | With a connected, unbroken current pair and a non-empty queue a woken writer can take the queue or the current writer can go on; only a full channel holds it up, and then the reader can go on or waits for the socket |
| PipelineProgress.CanEndPair | redisconn/conn.go:754-888 | On a closed connection the writer and the reader of a pair, however far behind, can be brought to their end by their own steps |
| PipelineProgress.CanQuiesce | redisconn/conn.go:665-692 | From every reachable state some run without new submissions brings the connection to rest, with exactly the futures submitted so far resolved |
| Connections.Connection.Line | redisconn/conn.go:411-430 | Builds the futures of one call in the order of the code: ASKING, MULTI, requests, EXEC, each header only if its flag is on |
| Connections.Connection.Enqueue | redisconn/conn.go:386-446 | Appends those futures in one piece after what is queued, and arms the wake token if the queue was empty |
| Connections.Connection.Refuse | redisconn/conn.go:366-383 | Every callback of a refused call is resolved once, in order, with the error due to its index, EXEC last |
| Connections.Connection.SendBatchFlags | redisconn/conn.go:351-446 | The whole call: accepted, its futures join the queue in the order of PipelineHistory.SubmitEffect; refused, every callback is told its own reason; the state is that of the Submit step and keeps the invariant |
| Connections.Connection.TakeQueue | redisconn/conn.go:784-787 | The writer takes the whole queue and leaves it empty |
| Connections.Connection.WriteBatch | redisconn/conn.go:806-819 | The batch goes to Write whole, then to the channel, or breaks the pair |
| Connections.Connection.CloseWriter | redisconn/conn.go:761-768 | On exit the last batch is handed over before the channel is closed |
| Connections.Connection.ReadReply | redisconn/conn.go:839-873 | A reply resolves the next future of the batch in hand; anything else breaks the pair |
| Connections.Connection.FetchBatch | redisconn/conn.go:851-873 | An exhausted batch is replaced by the next from the channel, whose first future gets the reply |
| Connections.Connection.DrainNext | redisconn/conn.go:876-887 | After a break the rest of the batch and of the channel is resolved with the pair's error, one future each turn |
| Connections.Connection.CloseConnection | redisconn/conn.go:665-681 | The unhealthy state is published before the queue is touched |
| Connections.Connection.DropFutures | redisconn/conn.go:647-692 | The wake token is cleared and the whole queue is resolved with the error, in order |
| Connections.Connection.ResolveQueue | redisconn/conn.go:658-662 | The loop of dropFutures resolves each queued future exactly once, in order |
| Connections.Connection.BeginDial | redisconn/conn.go:598-607 | Requests are accepted from the moment dialling starts |
| Connections.Connection.InstallSocket | redisconn/conn.go:574-596 | A new socket comes with a fresh writer and reader pair beside the old ones |
| Connections.Connection.PublishDial | redisconn/conn.go:608-625 | A successful dial is published; a failed one is published as disconnected before the queue is dropped |
| Retry.SendsBounded | rediscluster/cluster.go:548-620 | A run of moves makes at most (MovedRetries+1)*(retries+1) sends while the uint8 counters reach their limits |
| Retry.SendsWithinPool | rediscluster/cluster.go:572-583 | Over any finite pool of connections, whatever the retry limit, sends are bounded because no connection is tried twice between redirects |
| Retry.OneDelivery | rediscluster/cluster.go:527-620 | Sends and the one delivery balance the outcomes: a run that cannot go on has called the user exactly once |
| Retry.DocumentedCeilingIff | rediscluster/cluster.go:548-620 | Every run keeps to (MovedRetries+1)*(retries+1) sends exactly when the retry limit fits the uint8 counter or there are at most retries+1 connections |
| Retry.CeilingReached | rediscluster/cluster.go:548-605 | For every command and pool of connections some run of outcomes makes exactly as many sends as the ceiling of Retry.RunsTerminate |
| Retry.TriedDistinct | rediscluster/cluster.go:572-583 | Between two redirects the command goes to pairwise distinct connections |
| Retry.RetryOnlyIfSafe | rediscluster/cluster.go:394-413 | A command may be retried after an I/O error exactly when it is replica-safe, or its replica policy was forced and its slot is not marked as migrating |
| Retry.ReplicaPolicyIff | rediscluster/cluster.go:394-413 | For every policy, slot mark and command: PreferSlaves results exactly if the slot is not migrating and it was forced, or chosen for a replica-safe command; the same for MasterAndSlaves; otherwise MasterOnly |
| Retry.RequestDecides | rediscluster/cluster.go:527-620 | A decision table over every outcome, told by error kind: values are delivered unchanged; not-sent errors and repeatable I/O errors go to the next connection while hard errors are left; MOVED and ASK go to their own address, with ASKING exactly for ASK; every other error is delivered unchanged |
| Retry.TransactionDecides | rediscluster/cluster.go:725-846 | The same for EXEC: TRYAGAIN waits and goes to the same connection, with ASKING exactly if ASKING was ever used; MOVED goes to its own address without; EXECABORT by Retry.AbortDecides; I/O errors and all others are delivered unchanged |
| Retry.AbortDecides | rediscluster/cluster.go:779-840 | EXECABORT follows exactly what the partial replies agree on, all MOVED or ASK up to the first other reply, to the last address, waiting exactly if some reply was no redirect |
| Retry.MovesAllowed | rediscluster/cluster.go:527-846 | Both Resolve functions stay within the guards of the budget in every branch |
| Retry.AbortRedirectsIff | rediscluster/cluster.go:779-840 | An aborted transaction with redirects left follows its partial replies exactly when they agree on MOVED, or on ASK up to the first other reply; it goes to the address of the last redirect, with ASKING exactly after ASK, and waits exactly if some reply was no redirect |
| Retry.RunsTerminate | rediscluster/cluster.go:527-859 | Any run of a request or transaction sends at most MovedRetries+1 times the smaller of retries+1 and the number of connections, never repeats a connection between redirects, and delivers exactly once when it stops |
| Retry.ResendMeansNotExecuted | rediscluster/cluster.go:548-583 | A write is sent again only after an outcome that proves it was not executed |
| Retry.ExecutedAtMostOnce | rediscluster/cluster.go:719-846 | Over any run of a write or transaction only the last attempt can have been executed |
| Handles.RequestHandle.Resolve | rediscluster/cluster.go:527-620 | For every outcome the move is the one the decision table demands; then either the handle lives on with the budget of that move, or the callback is called once and the handle is given back |
| Handles.RequestHandle.Finish | rediscluster/cluster.go:505-516 | One call of the callback, all counters cleared, the handle back in its pool |
| Handles.ScanReplies | rediscluster/cluster.go:786-799 | The loop over the partial replies finds what the declarative scan says: address, MOVED seen, ASK seen, no exception |
| Handles.TransactionHandle.ResolvePartial | rediscluster/cluster.go:719-723 | The reply array stays exactly the latest outcomes of this attempt, now with this one, and nothing is decided |
| Handles.TransactionHandle.ResolveExec | rediscluster/cluster.go:725-846 | With every outcome of this attempt present, the move is the one the decision table demands of those outcomes; a resend carries none over, a delivery calls the callback once and gives the handle back |
| Handles.TransactionHandle.FollowScan | rediscluster/cluster.go:811-844 | A redirect is followed exactly if the scan agrees and redirects are left; the wait, ASKING and counters are those of the move |
| Handles.TransactionHandle.Send | rediscluster/cluster.go:701-709 | Every attempt starts from an empty reply array: no outcome of an earlier attempt is left |
| Composition.ConnectionKeepsPromise | redisconn/conn.go:619-692 | Every reachable state of a connection keeps the promise the retry logic is built on |
| Composition.WriteExecutedAtMostOnce | rediscluster/cluster.go:548-583 | End to end over connections and retries: a write is executed at most once, and then by its last try |
| Composition.TransactionSeesAllReplies | rediscluster/cluster.go:779-800 | When EXEC's outcome arrives every request of the transaction has an outcome of the same try |
| Composition.DeliverAttempt | rediscluster/cluster.go:719-800 | Fed by a connection in any reachable state, the handle decides on the outcomes of all requests of this very try |
| Composition.NothingAfterExec | rediscluster/cluster.go:687-727 | After EXEC's outcome no resolution of that try reaches the pooled handle |
| Composition.SingleRequestResolvedOnce | rediscluster/cluster.go:505-516 | A request handle is called once for each try |
| Rng.EveryStateVisited | rediscluster/mapping.go:342-346 | v -> v*0x12345+1 mod 2^32 reaches every state from every state in fewer than 2^32 steps |
| Rng.MixInvolutive | rediscluster/mapping.go:342-346 | v ^ v>>16 is its own inverse on uint32, so it loses no state |
| Rng.EveryResidueComesUp | rediscluster/mapping.go:342-346 | Every residue of every modulus that is a uint32 comes up from every seed |
| Selection.Node.FirstUsable | rediscluster/mapping.go:309-317 | Returns the first unseen healthy connection, and none exactly if there is none |
| Selection.Node.RoundRobinUsable | rediscluster/mapping.go:318-335 | The loop ends from every counter value; the result is unseen and healthy, none means that no considered connection is, and the connection whose turn it is by the counter is used if it can be |
| Selection.Node.ConcreteNeed | rediscluster/mapping.go:307-340 | Sound and complete for both host policies |
| Selection.Node.GetConn | rediscluster/mapping.go:287-305 | Sound and complete, and an established connection is preferred when asked for |
| Selection.RoundRobinCompleteIff | rediscluster/mapping.go:318-335 | "None" of the round-robin search means that no connection is usable, for every health, liveness and seen list, exactly when the host has at most 32 connections |
| Selection.OverlookingSearch | rediscluster/mapping.go:318-335 | For more than 32 connections, and the health in which only the 33rd is connected, the search returns none |
| Selection.ReplicaWeights | rediscluster/mapping.go:217-230 | Each replica is chosen by three residues, all of them within the modulus; under PreferSlaves the master by one only |
| Selection.NextHit | rediscluster/mapping.go:228-234 | From every generator state some residue selects a set bit of a non-empty mask |
| Selection.PickReplica | rediscluster/mapping.go:227-242 | One pass over the mask ends; its result is offered by a healthy replica, none means that no healthy replica has a usable connection, and the replica that the seed chooses is used if it can be |
| Selection.ConnForSlot | rediscluster/mapping.go:197-255 | The result is unseen, may be connected and belongs to the slot's shard; an error means there is no such connection |
| Selection.Route | rediscluster/cluster.go:447-474 | Policy, connection and retry mark of a command: it goes to the master of its slot unless the slot is not migrating and replicas were forced or chosen for a replica-safe command, then to an address held healthy; an error means that no such connection is up or coming up; it may be repeated exactly if replica-safe or forced |
| Selection.UpdatesKeepMask | rediscluster/slotrange.go:181-195 | In every interleaving of the load and CAS steps the master bit stays set and no bit beyond the address list appears |
| Selection.UpdateTakesEffect | rediscluster/slotrange.go:181-195 | The step that ends an update leaves its own bit as the reply says and all other bits as they are at that moment |
| Selection.InitialMask | rediscluster/slotrange.go:117-120 | The mask of a new shard has exactly the bits of its addresses, up to 32 |
| SlotTable.Uint16 | rediscluster/slotrange.go:90 | uint16 of a number that fits keeps the number |
| SlotTable.StoredReads | rediscluster/mapping.go:159-170 | With the code's masks and shifts on 32-bit words: a stored number reads back, the mark of its slot is cleared, the other slot of the word is as it was |
| SlotTable.FlaggedReads | rediscluster/mapping.go:172-181 | With the code's or: the slot's asking bit is set and nothing else changes |
| SlotTable.Table.PutWord | rediscluster/mapping.go:165-169 | Replacing a word that differs in one slot changes that slot of the abstract map only |
| SlotTable.Table.ShardOf | rediscluster/mapping.go:151-156 | Reads the shard of the abstract map |
| SlotTable.Table.IsAsking | rediscluster/mapping.go:183-188 | Reads the mark of the abstract map |
| SlotTable.Table.SetShard | rediscluster/mapping.go:159-170 | Afterwards the slot reads the given shard, its mark survives exactly if it read that shard before, and every other slot is as it was |
| SlotTable.Table.MarkAsking | rediscluster/mapping.go:172-181 | Sets the mark of one slot of the abstract map |
| Mapping.ListsAreRanges | rediscluster/slotrange.go:50-53 | Each address list kept is that of a range, under its master, and each range's master has one |
| Mapping.LastListCounts | rediscluster/slotrange.go:50-53 | Of several ranges with one master the last one gives the shard its address list |
| Mapping.ShardNumbersFit | rediscluster/slotrange.go:89-90 | Disjoint ranges give at most 16384 shards, which the 14-bit field holds |
| Mapping.InstallMasters | rediscluster/slotrange.go:85-124 | In whatever order masters are visited, shards are numbered 0..n-1 and masters is the inverse of the master address |
| Mapping.BuildShards | rediscluster/slotrange.go:85-124 | The shard part carries a shard over, health included, exactly if its master and its address list are unchanged, and starts every other with a full mask |
| Mapping.CarriedHealth | rediscluster/slotrange.go:89-124 | A shard whose address list the previous configuration had keeps that shard's health, any other starts with all its addresses, up to 32, held healthy |
| Mapping.PackedIn | rediscluster/slotrange.go:146-151 | The word packed from two halves reads as each half's number and mark |
| Mapping.FillSlots | rediscluster/slotrange.go:132-151 | For any ranges every slot gets an installed shard and the mark exactly if forced; sorted disjoint ranges give each covered slot its range's shard |
| Mapping.NewConfigOk | rediscluster/slotrange.go:49-153 | What non-empty ranges produce is a well-formed configuration |
| Mapping.BuildConfig | rediscluster/slotrange.go:49-153 | The whole of updateMappings but the nodes establishes it |
| Mapping.Config.UpdateMappings | rediscluster/slotrange.go:49-153 | A reload keeps the configuration well formed for any ranges, gives each shard its master's last address list and the health that list had before, and owes every slot of sorted disjoint ranges its range's master, every other an installed shard, and the mark exactly if it is forced |
| Mapping.Config.Moved | rediscluster/cluster.go:359-386 | Afterwards the slot reads the shard whose master has the address, its mark surviving only if it did before, and every other slot is as it was; nothing changes for an unknown address |
| Mapping.Config.Asking | rediscluster/cluster.go:387-389 | An asking command sets one mark and keeps the configuration well formed |
| Mapping.Config.AddNode | rediscluster/mapping.go:125-148 | A new address joins the nodes and the configuration stays well formed |
| Nodes.CountsAreHolders | rediscluster/slotrange.go:65-83 | After any run of reloads, additions and node-by-node delayed releases each count is the number of generations holding the node; nodes are closed exactly at zero; no node of the current or previous map is closed; those maps agree on shared addresses |
| Nodes.ReleaseNeverUnderflows | rediscluster/slotrange.go:155-159 | The uint32 decrement never finds a zero, in any interleaving of the delayed loops |
| Nodes.ReloadSkipsClosed | rediscluster/slotrange.go:72-83 | A closed node is never installed again |
| Nodes.ReloadGets | rediscluster/slotrange.go:72-83 | A reload has a node for exactly its addresses: the current one, failing that the previous one, and only failing both one never counted before |
| Nodes.AddGets | rediscluster/mapping.go:118-148 | The same for addNode, which leaves every other address its node |
| Nodes.GatherNodes | rediscluster/slotrange.go:72-83 | The loop over the new addresses, in any order, installs the current, previous or a new node for each and raises each count once |
| Nodes.NodeRegistry.ReleaseNode | rediscluster/slotrange.go:157-164 | One turn of the delayed loop: one holder less, and a close at zero; it keeps the counting invariant |
| Nodes.NodeRegistry.UpdateNodes | rediscluster/slotrange.go:65-83 | The node part of a reload gives each address the node it is owed, shifts the generations and keeps the counting invariant |
| Nodes.NodeRegistry.AddAddress | rediscluster/mapping.go:118-148 | addNode gives the address the node it is owed, changes no other, and keeps the counting invariant |
| Nodes.NodeRegistry.ReleaseOld | rediscluster/slotrange.go:155-166 | The delayed loop, undisturbed, lowers each count once and closes exactly the nodes that reach zero |
| ParseSlots.ParseSlotsInfo | rediscluster/redisclusterutil/cluster.go:30-93 | Accepts exactly the well-formed replies, and returns their ranges, all of them, sorted by first slot |
| ParseSlots.ParseElem | rediscluster/redisclusterutil/cluster.go:53-88 | Keeps bounds and addresses of an element, the master first and the replicas sorted |
| ParseSlots.GoodElemIff | rediscluster/redisclusterutil/cluster.go:53-85 | An element is accepted exactly if it has two slots in order below 16384 and after them only addresses of a host and an admitted port, at least one |
| ParseSlots.TextLEIff | rediscluster/redisclusterutil/cluster.go:86 | Replicas are sorted in dictionary order |
| ParseSlots.PortPassesIff | rediscluster/redisclusterutil/cluster.go:78-84 | The port check admits 1..55535 and, because the sum wraps, the last 10000 int64 values |
| ParseSlots.ParsedGoodIff | rediscluster/redisclusterutil/cluster.go:89-92 | Accepted ranges are sorted, bounded and disjoint exactly when no two elements of the reply share a slot, which is not checked |
| ParseSlots.OverlapAccepted | rediscluster/redisclusterutil/cluster.go:52-92 | An accepted reply with two masters, a:6379 and b:6379, for one slot |
| ParseSlots.ParsedInstalls | rediscluster/slotrange.go:49-53 | Replies whose elements share no slot give ranges that updateMappings can install |
| Decimal.ParseIntLoop | redis/reader.go:104-125 | The loop is the wrapping accumulation, with both errors |
| Decimal.ParseNoneIff | redis/reader.go:104-125 | parseInt fails exactly on the empty text and on any byte that is no digit after an optional minus sign |
| Decimal.ParseIntText | redis/reader.go:104-125 | parseInt inverts appendInt on every int64, the minimum included |
| Decimal.DigitsLength | redis/request_writer.go:108-122 | Digit counts against powers of ten, which justify buffer and header sizes |
| Decimal.FillDigits | redis/request_writer.go:113-120 | Filling from the end leaves exactly the canonical digits |
| Decimal.AppendUint | redis/request_writer.go:108-122 | Appends the canonical digits of every uint64; 20 bytes suffice |
| Decimal.AppendInt | redis/request_writer.go:93-106 | Appends the canonical text of every int64, through the wrapping negation |
| Resp.ReadLineOf | redis/reader.go:14 | A line ended by CRLF is read without its end, up to the buffer size |
| Resp.Read | redis/reader.go:13-102 | The recursive reader computes the value and the rest of the input that the model names |
| Resp.ReadArray | redis/reader.go:83-99 | The item loop stops at the first fault and otherwise returns all items |
| Resp.LineReplies | redis/reader.go:29-33 | A line that starts with '+' is a status of the rest of the line, one that starts with '-' an error |
| Resp.ErrorClasses | redis/reader.go:51-60 | An error line that is no redirect is of class LOADING, EXECABORT or TRYAGAIN exactly if it starts with that word, and a plain error otherwise |
| Resp.NumberReplies | redis/reader.go:61-92 | ':' gives the number, and a negative length or count after '$' or '*' the null reply, for every int64 |
| Resp.BulkReply | redis/reader.go:67-82 | '$', a length, that many bytes and CRLF give those bytes |
| Resp.ArrayReply | redis/reader.go:83-98 | '*', a count and that many values give those values |
| Resp.Faults | redis/reader.go:14-26 | What is no reply: the end of the input, a line too long for the buffer, an empty one, an unknown first byte, a number that is none |
| Resp.BulkFaults | redis/reader.go:75-82 | A bulk string is cut short, not ended by CRLF, or read, exactly by the bytes that follow its length |
| Resp.RedirectFaults | redis/reader.go:35-46 | MOVED and ASK without slot and address, or with a slot that is no number, are no replies |
| Resp.RoundTrip | redis/reader.go:13-102 | Reading an encoded value followed by anything gives the value back and leaves exactly what follows |
| Resp.RoundTripAll | redis/reader.go:83-99 | The same for values one after another |
| Resp.MovedReads | redis/reader.go:31-52 | Slot and address of a MOVED line arrive as the server wrote them, for every int64 slot and address without a space |
| Resp.AskReads | redis/reader.go:31-52 | The same for ASK |
| Replies.OnlyBrokenRepliesBreak | redisconn/conn.go:843-850 | Whatever bytes come, the reader can take them for a reply, and they break the pair exactly if the reader of replies finds a fault: error replies of every class are handed on |
| Replies.RedirectLine | rediscluster/cluster.go:584-614 | From bytes to decision: "-ASK slot address" sends a request to that address with ASKING, "-MOVED slot address" without |
| Replies.LoadingLine | rediscluster/cluster.go:556-583 | "-LOADING" sends a request or a transaction to the next connection, even one that must not be repeated |
| Replies.TryAgainLine | rediscluster/cluster.go:801-810 | "-TRYAGAIN" makes a transaction wait and go to the same connection again, asking if it ever asked, and fails a single request |
| Replies.AbortLine | rediscluster/cluster.go:779-840 | "-EXECABORT" makes it follow the redirect its partial replies agree on |
| Writer.FindSpace | redis/request_writer.go:17-23 | Finds the first space; the command parts are the text before and after it |
| Writer.ArgText | redis/request_writer.go:174-216 | The text of an argument by its kind: texts unchanged, "1" and "0" for the flags, nothing for nil, for every integer the digits that parse back to it; none exactly for an unsupported one |
| Writer.AppendHead | redis/request_writer.go:124-131 | Appends one header line |
| Writer.PatchHeader | redis/request_writer.go:139-148 | The digits patched into the reserved header are the payload's decimal length |
| Writer.AppendBulkInt | redis/request_writer.go:133-150 | For every int64 the header reserved by comparing the value has exactly the width its text needs |
| Writer.AppendBulkUint | redis/request_writer.go:152-169 | The same for every uint64 |
| Writer.AppendArg | redis/request_writer.go:38-89 | Each supported argument is appended as the bulk string of its ArgToString text |
| Writer.AppendRequest | redis/request_writer.go:15-91 | Appends the request's array after the buffer; fails exactly on an unsupported argument, at the first one, with the buffer as it was |
| Writer.CheckRequest | redis/request_writer.go:220-236 | Passes exactly the requests that are not forbidden and that AppendRequest can write |
| Writer.WritePacket | redisconn/conn.go:796-803 | The packet is the concatenation of the requests' arrays, and the append never fails |
| Writer.PacketReads | redisconn/conn.go:796-803 | Reading a packet back gives every request's array in order and leaves exactly what follows |
| Writer.RequestReads | redis/request_writer.go:15-91 | A server that reads a request finds the command, cut at its first space, and then the text of every argument, each at its place |
| Writer.RoutingKeyIsWireKey | redis/request.go:38-55 | The key a request is routed by is the bulk string the server finds at the key's place: the fourth of EVAL and EVALSHA, the third of BITOP, otherwise the first after the command |
| Writer.KeyIsArgument | redis/request.go:38-55 | The key is the third argument of EVAL and EVALSHA, the second of BITOP and the first of all others; RANDOMKEY and requests too short have none |
| Crc16.TabRight | rediscluster/redisclusterutil/crc16.go:9-42 | Every table entry is its byte carried through eight shifts of the polynomial |
| Crc16.ShiftNPlus | rediscluster/redisclusterutil/crc16.go:51-54 | Shifting is linear, which is why bytes can be looked up |
| Crc16.Feed | rediscluster/redisclusterutil/crc16.go:48-56 | Dividing a message with zeros appended equals adding its bits at the top, whole groups at a time |
| Crc16.Crc16 | rediscluster/redisclusterutil/crc16.go:49-56 | For every byte string the table-driven loop returns the remainder of the message times x^16 under long division by x^16+x^12+x^5+1 |
| Slots.HashedTag | rediscluster/redisclusterutil/crc16.go:61-65 | A key with a non-empty first tag is hashed by the tag alone |
| Slots.HashedIsTag | rediscluster/redisclusterutil/crc16.go:61-65 | A part of a key is hashed only if it is that tag |
| Slots.SlotDivides | rediscluster/redisclusterutil/crc16.go:60-67 | The slot is the remainder modulo 16384 of the checksum of the tag, or of the whole key if it has none |
| Slots.TagDecidesSlot | rediscluster/redisclusterutil/crc16.go:60-67 | A tagged key lands in the slot of its tag |
| Slots.SameTagSameSlot | rediscluster/redisclusterutil/crc16.go:60-67 | Keys sharing a non-empty first tag share a slot |
| Slots.BatchSlot | rediscluster/redisclusterutil/slots.go:19-35 | Succeeds exactly when all requests with a slot share it, and returns it |
| Slots.BatchKey | rediscluster/redisclusterutil/slots.go:38-56 | Succeeds exactly when all keys share a slot, and returns the first key |
| Slots.BatchLoopsAgreeIff | rediscluster/redisclusterutil/slots.go:10-56 | The two succeed together on every random draw exactly when no request is RANDOMKEY or the keys conflict anyway |
| CommandSet.HashLoop | redis/command_type.go:6-13 | The loop computes the hash, in uint64 arithmetic |
| CommandSet.FoldedIff | redis/command_type.go:9 | Masking bit 5 identifies exactly the characters that differ in that bit |
| CommandSet.HashIgnoresCase | redis/command_type.go:6-13 | The hash is the same for names equal up to bit 5 of each character |
| CommandSet.SpellingsHashAlike | redis/command_type.go:6-13 | Spellings of a name that differ only in ASCII letter case have one hash |
| CommandSet.TableSize | redis/command_type.go:16-18 | The size is a power of two at least twice the number of names |
| CommandSet.FirstEmpty | redis/command_type.go:22-25 | Probing ends at the first empty cell |
| CommandSet.InsertKeeps | redis/command_type.go:22-26 | Filling that cell keeps every hash findable and makes the new one so |
| CommandSet.MakeSet | redis/command_type.go:15-29 | For any names the table holds exactly their non-zero hashes, each findable, and at least half of it is empty |
| CommandSet.CheckSet | redis/command_type.go:31-44 | Ends on every such table and is true exactly when some name has an equal hash, or the hash is zero |
| CommandSet.MemberIsHashIff | redis/command_type.go:31-44 | The answer is hash membership exactly when the name's hash is not zero or some name of the set hashes to zero |
| ZeroHash.ZeroNameIsEverywhere | redis/command_type.go:6-44 | A name of eleven bytes that hashes to zero and so is found in every set |
| CommandSet.ForbiddenCommand | redis/command_type.go:91-100 | Single threaded it refuses exactly the names with the hash of SUBSCRIBE or PSUBSCRIBE, otherwise also exactly those with the hash of a blocking command or the hash zero |
| CommandSet.BlockingRefused | redis/command_type.go:91-100 | A blocking command is refused however it is cased |
| CommandSet.SubscribeRefused | redis/command_type.go:91-95 | SUBSCRIBE and PSUBSCRIBE are refused in any casing and in every mode |
| CtxBatch.StepKeepsInv | redis/sync_context.go:162-169 | Each atomic operation of Resolve keeps: one winner and one store a slot, the counter, at most one closer |
| CtxBatch.ClosedOnceWhenComplete | redis/sync_context.go:162-169 | In every interleaving the channel is closed at most once, and by then each slot was stored once, by the call that claimed it |
| CtxBatch.ClosedIsFinal | redis/sync_context.go:65-78 | After the close no result changes any more |
| CtxBatch.ClosedInTheEndIff | redis/sync_context.go:65-78 | When every slot was resolved and all calls returned, the channel is closed exactly if the batch size is non-zero and fits the 32-bit counter |
| CtxBatch.SomeRunResolvesAll | redis/sync_context.go:65-78 | For every size some run resolves every slot and ends |
| CtxBatch.LargeBatchNeverClosed | redis/sync_context.go:162-169 | A finished run of 2^32 slots whose channel stays open |
| CtxBatch.Collector.CompareAndSwap | redis/sync_context.go:163 | The CAS is the model's step: it succeeds exactly on an unclaimed slot |
| CtxBatch.Collector.StoreResult | redis/sync_context.go:164 | The store of the claimed slot is the model's step and keeps the invariant |
| CtxBatch.Collector.AddOne | redis/sync_context.go:165 | The 32-bit add is the model's step; it calls for the close exactly if it shows the batch size |
| CtxBatch.Collector.CloseChannel | redis/sync_context.go:166 | The close is the first and only one |
| CtxBatch.Collector.Resolve | redis/sync_context.go:162-169 | An uninterrupted call claims its slot; the first result of a slot stays |
| CtxBatch.Collector.CancelAll | redis/sync_context.go:73-75 | The cancel loop gives the error to exactly the slots not yet taken and leaves none untaken |
| NodeWait.Waiters.Look | rediscluster/mapping.go:66-77 | A callback runs at once exactly if the address has a node, and otherwise nothing has run |
| NodeWait.Waiters.JoinQueue | rediscluster/mapping.go:79-94 | Under the lock the callback joins, last, the queue its address has in the current map, or starts one alone, and a goroutine with it |
| NodeWait.Waiters.Serve | rediscluster/mapping.go:102-109 | The goroutine deletes exactly its own promise and runs the callbacks of its queue, once each and in their order |
| NodeWait.Waiters.ReplacePromises | rediscluster/slotrange.go:126-128 | A swap leaves queues, callbacks and older maps as they are, and the new map has no promise |
| DropLocks.StepKeepsInv | redisconn/conn.go:619-692 | Locks, visits and publication times stay consistent under every step |
| DropLocks.WaitsForLater | redisconn/conn.go:665-691 | A dropper waits only for one that published later |
| DropLocks.NoWaitCycle | redisconn/conn.go:619-692 | In every reachable state, for any number of connections, the wait-for relation among queue holders has no cycle |
| DropLocks.NoDeadlock | rediscluster/cluster.go:574-583 | Every queue mutex can be brought free by steps of its present holders alone |
| NodeWait.StepKeepsInv | rediscluster/mapping.go:65-111 | Calls, goroutines and map swaps keep: every callback in one place, a promise leads to the one connecting queue of its map and address |
| NodeWait.CallbacksRunAtMostOnce | rediscluster/mapping.go:105-109 | No callback runs twice, whatever maps were swapped |
| NodeWait.CallbacksRunExactlyOnce | rediscluster/slotrange.go:126-128 | When all goroutines are through, every callback has run exactly once |
| NodeWait.RunningQueueIsFixed | rediscluster/mapping.go:102-109 | Nothing is appended to a queue whose callbacks are being run |

## Left out

- Sockets, timeouts, deadlines, the dial handshake, DNS, logging and error properties: foreign code and I/O; Write and
  ReadResponse have any outcome, and errors are a datatype of kinds and traits.
- The synchronous first dial runs without `conn.mutex`; it is modelled as the asynchronous one, under the mutex.
- Slice recycling through `futpool`, the `cap(packet)` check, and the WritePause timer: the timer shares the wake
  token of the signal channel, and a stale tick is a step of its own.
- SendMany's split into chunks of 16, and the Sync wrappers: each chunk is one submission of the model.
- The value or index delivered when a cluster context is closed (`r.off`) or a transaction is cancelled
  (`off+len(reqs)`): that exactly one delivery happens is proved, not which value or index it carries.
- User callbacks that call back into the same connection during dropFutures, and nil futures passed to
  `Connection.SendTransaction`.
- DropLocks.NoDeadlock: speaks of the queue mutexes only; `conn.mutex` is taken by nobody who holds a queue mutex, and
  that a drop has finitely many futures and retries to go through is `Retry.RunsTerminate`.
- DropLocks.StepKeepsInv: locks, phases and times are a state machine on values, not objects; what is resolved under a
  lock appears only as the visits it causes.
- CtxBatch.ClosedInTheEndIff: a safety statement about states in which all calls have returned; that the scheduler
  lets them return is assumed.
- Survival of asking marks and moved remaps across concurrent stores or configuration copies: the code accepts lost
  updates. Each operation of `SlotTable` is atomic in the model.
- Nodes.CountsAreHolders: counts are unbounded naturals when raised, so 2^32 holders of one node are not
  modelled; the decrement does wrap. The increments of one reload, made under the cluster's mutex, are one step;
  delayed releases go node by node.
- Mapping.Config.UpdateMappings: demands at least one range, as ParseSlotsInfo guarantees, and no more masters than
  the 14-bit shard field can number.
- Retry.RunsTerminate: assumes at most 255 redirects; NewCluster clamps MovedRetries to 10. Connections added while a
  command is under way count as part of its finite pool.
- Resp.RoundTrip: is about values a server can send; lines that end without CR, and the last one without any line
  end, are read by the model but stated of nothing. Lengths for which `v+2` overflows or that cannot be allocated
  are not modelled, nor is the recursion depth.
- Writer.AppendRequest: assumes that lengths fit an int, as Go guarantees; float formatting is an uninterpreted text
  shared by the two printers.
- ParseSlots.ParseSlotsInfo: the library sorts are stood for by insertion sorts; for equal first slots the order is that
  of one sort, and the contract only says sorted.
- CommandSet.MakeSet: up to 2^61 names; the concrete lists of replica-safe and blocking commands are parameters.
- The hash of a key is proved for the division by the polynomial; no claim about its distribution.
- `InstanceInfos.MergeWith`, whose tail copy reads the wrong slice, `ParseClusterNodes`, scanners, `PolicyMan`,
  loggers, `redisdumb`, `testbed`, and the timer throttling of `Cluster.control`: thin, test-only or timing-based.
- The "moved" and "asking" commands that the Resolve functions send to the control goroutine: `Mapping.Config` has the
  commands themselves, the sending is not part of a move.
- The state of the connection that an ensureConnForAddress callback receives: `NodeWait` counts callbacks, not outcomes.
