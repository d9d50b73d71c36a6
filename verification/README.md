# Tuple space server and fault-tolerant matrix multiplication

A Dafny model of two components and proofs about them.

**The tuple space server** (`tsh/tsh.c`, `tsh/tsh.h`) keeps a doubly linked list of uniquely
named tuples, a doubly linked queue of waiting READ and GET requests, and a list with the last
tuple each process consumed. It handles one connection at a time, so a connection is one atomic
step. Outcomes of writes, call-backs and checked allocations are parameters of the step, and so
is the regular expression match (`Matcher`). The server is modelled twice: on values
(`TupleSpace`) and on linked nodes (`TshServer`), where every method is proved to refine the
step on values.

**The matrix multiplication** (`tsh/matrix.c`, `tsh/matrixrun.c`) is a master/worker protocol on
top of that server. `MatrixProtocol` is a transition system: a schedule is a sequence of actions
(parent, worker exchange, kill, timeout, late exchange, reaping with respawn), so statements about
all schedules cover every interleaving and every fault pattern. Lookup of a matrix key is an
unanchored search, so `A_1_1` also matches `A_1_10`; most of the work is about why this is, or is
not, harmless. The exact answers, for every size and number of workers that `main` accepts:

- In all runs the master stores only right values if and only if the configuration is *safe*:
  N <= 11, or one worker, or five workers and N <= 13 (`ProtocolConverse.SafetyIff`). In every other
  configuration a run without any fault stores a wrong C[0][1] (`ProtocolConverse.WrongResult`).
- Complete passes of all workers always let the master end if and only if the configuration is safe
  and N is even (`Finishing.CompletionIff`). In an unsafe configuration the wrong GET takes another
  cell's tuple and leaves that of cell (0, 1) in the space for ever, so the master comes to wait for a
  tuple it has already taken; in matrixrun nothing can then help (`Starvation.MatrixRunStarves`).
- While the parent waits, all passes can still be completed if and only if no more indices are lost
  (nobody has passed, nobody is running) than successors will be forked (`Respawn.RecoveryIff`); then,
  without another kill, a run in a safe configuration of even N ends with the product
  (`Respawn.Recovery`).
- The chaos monkey can never do lasting harm if and only if there is one worker
  (`ChaosMonkey.MonkeyHarmlessIff`): the parent counts deaths of any kind, so with two workers one
  kill can be enough to make the run endless (`ChaosMonkey.OneKillTooMany`).
- Some run ends if and only if N is even (`Finishing.FinishesIff`), and then some run without faults
  ends with the right product, also in unsafe configurations (`Finishing.EvenFinishes`).

Every run of the transition system is a run of the server, on values and on the heap
(`EndToEnd.RunServed`, `EndToEnd.RunOnHeap`).

| file | contents |
|---|---|
| TupleSpace, Waiting, ServerInvariants | the server on values, what an offer to waiting requests means, invariants over all runs |
| OperationMeaning | what each operation does, in the fields of a connection |
| TshNodes, Tsh | the server on linked nodes and payload buffers |
| Keys, Tiling, Products | key and number formats, the strided block assignment, the inner products |
| MatrixProtocol, KeyedSpace, ProtocolBase, ProtocolOrder, KeyCount | the transition system and its invariants |
| ProtocolTheorems, MatrixRun | what holds of all runs |
| ProtocolConverse, BlockOrder, Starvation, Finishing | runs that show where it fails, and the exact conditions |
| Respawn, ChaosMonkey | the respawning parent: what is recovered after kills, and what cannot be |
| EndToEnd, WorkerSteps | the runs on the server, and the exchanges of one worker |
| WorkerLoops, ClientBuffer, Collection | the loops of `initializeMatrix`, `worker_compute` and `master_collect`, and the client's buffers |
| RobustCollection | the retrying wrappers and the bounded collection of `tsh/matrixold.c` |
| Framing | `readn` and `writen` of `netlib/netlib.c` |

`dafny verify dfyconfig.toml` checks everything.

Modelling decisions:

- The comments at `findTuple` and `match` speak of wildcards `*` and `?`; the code calls `regcomp`
  with flags 0 and no anchors (`tsh/tsh.c:885-901`). The model follows the code: any predicate for
  the server, substring search for matrix keys, which consist of ordinary characters (section 9.3.2
  of the Base Definitions of IEEE Std 1003.1-2017).
- `consumeTuple` reads the host and process id of a request after `deleteRequest` has released it
  (`tsh/tsh.c:467-511`). The model reads these fields before unlinking.
- `consumeTuple` and `deleteTuple` contain the same code for the backup list; it is modelled once
  (`CaptureTuple`). Both leak the tuple node when the process already has a backup entry
  (`tsh/tsh.c:484`, `tsh/tsh.c:668`), so the ownership results are about payload buffers.
- A negative requested length is compared as a huge unsigned number (`tsh/tsh.c:332`), so it does
  not truncate the reply.
- The client leaves `len` and `proc_id` of a request unset (`tsh/tshlib.c:105-139`). The server
  results hold for all values; in the matrix runs they are 0.
- Numbers in the matrix runs are mathematical integers. By `Products.FitsInt` they are those of a
  32-bit int exactly up to N = 972.
- A shell operation puts the output of its command into the space like a PUT; the output is a
  parameter. The exit operation ends the server, so it comes after a sequence of other connections
  (`TshServer.StartAndExit`).
- `Naturals` defines multiplication, division and remainder by repeated addition for use in proofs;
  the results about runs are stated with the built-in operators, and `Tiling.CellByDivision` does the
  same for the block assignment.
- A kill may hit any worker process. The chaos monkey's table is filled once, before it is forked
  (`tsh/matrix.c:257-264`), so it hits first incarnations only; results that say what it can break
  use such kills only (`ChaosMonkey.MonkeyOnly`).
- `block_size` is 2 in both programs. The tiling and loop results hold for every block size.

## Model

| member | source | states |
|---|---|---|
| TupleSpace.Find | tsh/tsh.c:615-628 | the result is a match of maximal priority, leftmost among those, and none exactly if nothing matches |
| TupleSpace.IndexOf | tsh/tsh.c:570-584 | the first tuple of a given name, and none exactly if there is no such tuple |
| Waiting.ConsumeMeaning | tsh/tsh.c:455-520 | for every pattern of send outcomes: exactly the matching requests up to the first GET whose own send succeeds are served and dropped, in queue order; every other request stays in order; there is a winner iff such a GET exists |
| Waiting.ConsumeStep | tsh/tsh.c:462-517 | one round of the delete-while-scanning loop equals the first step of the one-pass form on the shortened queue |
| Waiting.ConsumeLog | tsh/tsh.c:464-517 | of the attempts for one tuple only the last can hand it over, and it does exactly when the offer has a winner |
| ServerInvariants.PutInv | tsh/tsh.c:233-281 | an accepted PUT keeps unique names, no missed wake-up, one owner per buffer, exactly-once consumption and the faithful backup list |
| ServerInvariants.GetInv | tsh/tsh.c:299-344 | so does a READ or GET, for every length, allocation outcome and write outcome |
| ServerInvariants.HandleInv | tsh/tsh.c:54-76 | so does every connection but the exit operation, including shell operations and unreadable or unknown ones |
| ServerInvariants.ServeInv | tsh/tsh.c:54-76 | all invariants hold after every sequence of connections up to an exit operation, for every matcher |
| ServerInvariants.PutWakes | tsh/tsh.c:273-274 | after a PUT no queued request matches any stored tuple |
| ServerInvariants.PutToStoredName | tsh/tsh.c:570-581 | in every reachable state a PUT to a stored name reaches no waiting request: it overwrites in place and releases the old buffer |
| ServerInvariants.HandedAtMostOnce | tsh/tsh.c:327-343 | over a whole run a PUT instance is handed to at most one GET, and is sent to nobody afterwards |
| ServerInvariants.FailedDeliveryLosesNothing | tsh/tsh.c:327-340 | a tuple that was sent in a step is still stored after it unless a GET obtained it |
| ServerInvariants.FreedOnce | tsh/tsh.c:573-580 | in every reachable state each accepted buffer is exactly once a stored tuple's, a backup's or freed |
| ServerInvariants.OwnersApart | tsh/tsh.c:653-688 | no stored tuple and no backup uses a freed buffer or each other's |
| ServerInvariants.FaithfulAfter | tsh/tsh.c:469-513 | the backup list stays a map from each process to what it last obtained by a successful GET, by either path, with fault 0 |
| ServerInvariants.NeverGuarded | tsh/tsh.c:941-953 | guardf refuses nobody in any reachable state |
| OperationMeaning.MissingTuple | tsh/tsh.c:313-325 | a READ or GET that finds nothing is queued last, with expression, host, port, cidport and process id of its header and its operation, unless its length is -1 or there is no memory; what the client is told in each case |
| OperationMeaning.FailedReply | tsh/tsh.c:327-340 | if any of the three writes of a direct reply fails, space, queue, backups and freed buffers stay as they were and the client has no tuple |
| OperationMeaning.FullReply | tsh/tsh.c:331-339 | if all three succeed the client has name, priority and the first len characters of the data if 0 < len < its length, else all of it |
| OperationMeaning.FullRead | tsh/tsh.c:339-343 | then a READ changes nothing but the history |
| OperationMeaning.FullGet | tsh/tsh.c:341-343 | then a GET removes exactly that tuple, which becomes the backup of the process and address in the header, and releases the buffer of the process' last backup |
| OperationMeaning.RefusedGet | tsh/tsh.c:303-312 | a READ or GET without a readable header or of a faulty process changes nothing and is not answered |
| OperationMeaning.DeliveredToAsker | tsh/tsh.c:706-722 | over a whole run every tuple sent, directly or by call-back, goes to host and port of the header of a connection that arrived, for its expression and operation |
| OperationMeaning.BackupOfAsker | tsh/tsh.c:653-688 | over a whole run every backup entry holds the tuple of a successful GET and the address that GET came from |
| OperationMeaning.AcceptedPut | tsh/tsh.c:266-280 | the tuple has name, priority and data that arrived; unless a waiting GET takes it, it overwrites its name in place and OVERRT is told, or it goes to the end and NOERROR is told |
| OperationMeaning.PutTold | tsh/tsh.c:570-597 | in every reachable state an accepted PUT is told OVERRT exactly if its name was stored |
| OperationMeaning.TakenPut | tsh/tsh.c:460-513 | the first waiting GET that can be reached gets the tuple as its backup with its own address, the requests served before it are dropped, all others stay |
| OperationMeaning.RefusedPut | tsh/tsh.c:239-270 | a PUT that fails on the way changes nothing, and only a failed allocation is told |
| OperationMeaning.AcceptedShell | tsh/tsh.c:118-152 | a shell operation is the PUT of the command's output with a NUL under the name and priority of its header |
| OperationMeaning.RefusedShell | tsh/tsh.c:84-153 | any other shell operation changes nothing and is not told as a success |
| TshNodes.SpaceUnlinked | tsh/tsh.c:646-651 | a tuple list linked around one node is well formed without it: next and prev inverse, null at both ends |
| TshNodes.QueueUnlinked | tsh/tsh.c:787-795 | the same for the queue with its head and tail |
| TshServer.Tsh.FindTuple | tsh/tsh.c:615-628 | the pointer walk returns the node of Find's position |
| TshServer.Tsh.StoreTuple | tsh/tsh.c:566-598 | the pointer code refines Store: overwrite keeps the position and releases the old buffer, else the node goes to the end; lists stay well formed |
| TshServer.Tsh.TakeOut | tsh/tsh.c:646-651 | unlinking removes exactly that tuple and keeps a well formed list |
| TshServer.Tsh.DeleteTuple | tsh/tsh.c:642-689 | refines removal from the space plus capture as the process' backup |
| TshServer.Tsh.FindBackupNode | tsh/tsh.c:654-671 | finds the entry of a process, or null exactly if it has none |
| TshServer.Tsh.CaptureTuple | tsh/tsh.c:653-688 | refines Capture: the payload changes owner, and the buffer of a replaced entry is released once |
| TshServer.Tsh.Guardf | tsh/tsh.c:941-953 | changes nothing and returns whether an entry of the process is marked faulty |
| TshServer.Tsh.FindRequest | tsh/tsh.c:756-769 | the first waiting request that matches the name |
| TshServer.Tsh.DeleteRequest | tsh/tsh.c:785-798 | removes exactly that request and keeps the queue well formed with head and tail |
| TshServer.Tsh.StoreRequest | tsh/tsh.c:818-839 | appends at the tail, or changes nothing when there is no memory |
| TshServer.Tsh.TryWaiting | tsh/tsh.c:460-517 | the scanning loop terminates with the queue length as measure and drops what the one-pass form drops |
| TshServer.Tsh.ConsumeTuple | tsh/tsh.c:455-520 | refines Offer and returns whether a GET consumed the tuple, for every pattern of send outcomes |
| TshServer.Tsh.OpPut | tsh/tsh.c:233-281 | refines Handle and gives its reply, with every error branch |
| TshServer.Tsh.OpShell | tsh/tsh.c:78-154 | refines Handle and gives its reply, with every error branch, for any output of the command |
| TshServer.Tsh.SendFound | tsh/tsh.c:326-340 | the direct reply carries the stored name and priority and the requested prefix of a buffer that is live |
| TshServer.Tsh.OpGet | tsh/tsh.c:299-344 | refines Handle and gives its reply, with every error branch |
| TshServer.Tsh.DeleteSpace | tsh/tsh.c:389-408 | every buffer ever accepted has been released, each exactly once |
| TshServer.Tsh.DeleteQueue | tsh/tsh.c:424-433 | exactly the waiting requests are released, each once, and the queue head ends null |
| TshServer.Tsh.OpExit | tsh/tsh.c:361-373 | both lists and the queue end empty and every buffer ever accepted is released once |
| TshServer.Start | tsh/tsh.c:54-76 | for every sequence of connections up to an exit operation the heap server represents exactly the state on values and sends exactly its replies |
| TshServer.StartAndExit | tsh/tsh.c:54-76 | with the exit operation at the end, the same replies, and no buffer accepted on the way is left |
| Keys.AtoiFormat | tsh/matrix.c:57 | atoi of a buffer with a number written by %d, a NUL and anything after it is that number, for every integer |
| Keys.FitsBuffers | tsh/matrix.c:15-16 | names and values of 32-bit numbers fit their buffers with the NUL |
| Keys.PrefixSmaller | tsh/matrix.c:58 | a numeral that is a proper prefix of another denotes a smaller number |
| Keys.OccursIff | tsh/tsh.c:885-901 | a key is found in another key's name iff matrix and row agree and its column numeral is a prefix |
| Keys.NameInjective | tsh/matrix.c:83 | different cells have different names |
| Keys.ConfusedColumns | tsh/matrix.c:138 | which columns a search confuses below 12, and that hits lie to the right |
| Tiling.CellByDivision | tsh/matrix.c:127-134 | the assignment used in the proofs is that of the loops, in their division and remainder |
| Tiling.ExactTiling | tsh/matrix.c:121-134 | for all N, block sizes and worker counts each cell of the tiled square is visited exactly once over all workers and turns, and no other cell is |
| Tiling.SquareIsWhole | tsh/matrix.c:121-122 | the square is the whole matrix iff the block size divides N |
| Tiling.RowOrder | tsh/matrix.c:127-134 | a worker goes through each row from left to right |
| Products.ClosedForm | tsh/matrix.c:135-159 | the accumulated sum equals N(1+i)(2+j) + (3+i+j)N(N-1)/2 + (N-1)N(2N-1)/6, times six |
| Products.LargestCell | tsh/matrix.c:225-226 | the last cell is (7N^3 - N)/3 |
| Products.FitsInt | tsh/matrix.c:135-159 | every partial sum of every cell fits a signed 32-bit int iff N <= 972 |
| KeyCount.KeysBounded | tsh/tsh.c:570-591 | a run never has more than 3 N^2 tuples: A, B and at most one per result |
| KeyedSpace.FindIsFirstHit | tsh/tsh.c:615-628 | with equal priorities a search takes the leftmost name that contains the key |
| ProtocolBase.StepBase | tsh/matrix.c:192-310 | every action keeps: A and B in row-major order at the front of the list, only right results behind them, only the master ever waiting, every worker's partial sum right |
| ProtocolBase.ReadHitsExactly | tsh/matrix.c:136-156 | the first hit of a search for a cell of A or B is that cell |
| ProtocolBase.PutOutcomes | tsh/tsh.c:266-279 | a PUT goes to the waiting GET that its name contains, or is stored; nothing else changes |
| ProtocolBase.RunBase | tsh/matrix.c:192-310 | the invariant of StepBase along every schedule |
| ProtocolOrder.EarlierPublished | tsh/matrix.c:127-134 | when a worker comes to a cell, the cells to its left that a search confuses with it are published or collected |
| ProtocolOrder.HandedToItsCell | tsh/tsh.c:460-517 | a result handed to the waiting master is the one it waits for, if confused cells share their owner |
| ProtocolOrder.GetHitsExactly | tsh/tsh.c:615-628 | the first hit of the master's GET is the cell it asks for, if results are listed in order |
| ProtocolOrder.StepOrdered | tsh/matrix.c:118-310 | every action keeps progress of every incarnation and abandoned PUT, column order among confused results, and correctness of what is stored |
| ProtocolTheorems.SafeIffSeparate | tsh/matrix.c:121-134 | the checkable condition on N and the number of workers holds iff confused cells always share their owner |
| ProtocolTheorems.Safety | tsh/matrix.c:51-176 | in a safe configuration every value the master stores is the inner product of its cell, in every run with any kills, timeouts, late exchanges, failed call-backs and respawns |
| ProtocolTheorems.ReadsAreExact | tsh/matrix.c:136-156 | for every N: after the initializations a READ of a cell of A or B is answered, in every reachable state, with that cell's name and its numeral followed by a NUL |
| ProtocolTheorems.ResultsAreRight | tsh/matrix.c:161-170 | for every N: no worker is ever stuck in a READ, and every listed result is the right numeral followed by a NUL |
| ProtocolTheorems.Completion | tsh/matrix.c:275-310 | in a safe configuration with even N: if every index has had one complete pass and call-backs succeed, the master's remaining GETs are all answered and it ends with the whole product |
| ProtocolTheorems.ReExecution | tsh/matrix.c:277-304 | any two runs with complete passes, whatever was killed and redone, leave the same names with the same values |
| ProtocolConverse.WrongResult | tsh/matrix.c:80-100 | in every configuration that is not safe some run without kills, timeouts or failed call-backs stores a wrong value for cell (0, 1) |
| ProtocolConverse.SafetyIff | tsh/matrix.c:192-310 | the master stores only right values in all runs iff the configuration is safe |
| BlockOrder.CollectInOrder | tsh/matrix.c:127-134 | for every size and number of workers some run without faults lists each row of C from left to right |
| Starvation.MasterStarves | tsh/matrix.c:80-103 | in every unsafe configuration some run without faults comes to the collection with every pass complete, and no number of the master's steps ends it |
| Starvation.MatrixRunStarves | tsh/matrixrun.c:136-140 | in matrixrun, after such a run, no schedule at all ends |
| Finishing.OddNeverFinishes | tsh/matrix.c:80-103 | for odd N the master never gets past the first row, in any run of either program |
| Finishing.EvenFinishes | tsh/matrix.c:275-310 | for even N and any number of workers some run without faults ends with the whole product |
| Finishing.FinishesIff | tsh/matrix.c:121-122 | some run ends iff N is even |
| Finishing.CompletionIff | tsh/matrix.c:275-310 | complete passes and delivered call-backs always let the master end iff the configuration is safe and N is even |
| Respawn.ReapRespawns | tsh/matrix.c:277-304 | a wait() that returns meets a dead process not waited for, counts to_wait down and, in matrix.c only, adds exactly one process of the same index at its first cell; any other wait() changes nothing |
| Respawn.RunOneEach | tsh/matrix.c:283-303 | in every run of matrix.c every index has exactly one process that was not waited for, and the parent has forked one process per wait() besides the workers |
| Respawn.LostForGood | tsh/matrix.c:276-304 | if more indices are lost than successors will be forked, no schedule completes the passes |
| Respawn.LostAreUnburied | tsh/matrix.c:276-304 | no more indices are lost than there are killed processes that were not waited for |
| Respawn.RecoveryIff | tsh/matrix.c:276-304 | from every reachable state of the waiting parent some continuation completes all passes, and then one without kills does, iff no more indices are lost than successors will be forked |
| Respawn.Recovery | tsh/matrix.c:276-310 | if the parent has a successor for every killed process not waited for, some continuation without kills completes all passes and the waiting, and in a safe configuration of even N ends with the whole product |
| ChaosMonkey.OneKillTooMany | tsh/matrix.c:276-304 | for every size and two or more workers: one kill of the first worker, with the other processes waited for first, and no schedule ever completes the passes, ends or gets a value |
| ChaosMonkey.MonkeyHarmlessIff | tsh/matrix.c:179-190 | kills of first incarnations always leave a waiting parent from which all passes can be completed iff there is one worker |
| EndToEnd.RetrySeenTwice | tsh/matrix.c:139-146 | after a timeout the server sees the same call twice and the worker goes on once |
| EndToEnd.LastCallSeen | tsh/matrix.c:179-190 | the call of a worker killed in an exchange is still seen once |
| WorkerSteps.WorkerSends | tsh/matrix.c:136-170 | in round k a worker READs A_i_k, then B_k_j, and after the last round PUTs its sum with a NUL and priority 1, one connection each |
| WorkerSteps.FirstRead | tsh/matrix.c:137-146 | in every reachable state the first READ of a round gives the worker 1 + i + k and changes no other process |
| WorkerSteps.SecondRead | tsh/matrix.c:148-158 | the second one completes the round with the sum of the first k + 1 products |
| WorkerSteps.SumIsProduct | tsh/matrix.c:135-163 | what a worker puts is the inner product of its cell |
| WorkerSteps.LastPut | tsh/matrix.c:161-171 | after the PUT the worker begins its next cell with an empty sum |
| WorkerSteps.LastExit | tsh/matrix.c:127-176 | a worker without a cell left exits and sends nothing |
| EndToEnd.RunServed | tsh/tshlib.c:22-37 | the server's state in every run is that after a sequence of client connections |
| EndToEnd.RunOnHeap | tsh/tshlib.c:22-37 | the heap server, given these connections, comes to the same state and gives the same replies |
| MatrixRun.MatrixRunCollects | tsh/matrixrun.c:122-140 | in matrixrun all GETs are answered at once and the result is the product, for one worker and every even N, and for the other safe configurations |
| MatrixRun.SingleWorkerList | tsh/matrix.c:127-171 | with one worker any two runs with a complete pass leave the very same list, name by name |
| WorkerLoops.InitializeMatrix | tsh/matrix.c:51-62 | fills the matrix and publishes every cell once, in row-major order, as its numeral and a NUL |
| WorkerLoops.InitializationIsInitial | tsh/matrix.c:225-226 | the transition system's parent makes exactly the PUTs of the two calls, and the server is as they leave it |
| WorkerLoops.ReadWithRetry | tsh/matrix.c:137-146 | the value is that of the last READ, one or two exchanges later |
| WorkerLoops.InnerProduct | tsh/matrix.c:135-159 | the loop computes the cell of the product from what the READs leave in buffers with any old contents, for any timeouts |
| WorkerLoops.WorkerCompute | tsh/matrix.c:118-176 | for every block size and any timeouts the PUTs of the nested strided loops are the worker's cells in the order of its turns, with the numerals of their products and a NUL, none missing, and what is sent repeats them only |
| ClientBuffer.CopyValue | tsh/tshlib.c:175-184 | a numeral with its NUL, copied over any buffer it fits in, is what the buffer then holds, and atoi gives its number |
| ClientBuffer.WithoutNul | tsh/matrix.c:59 | without its NUL, 1 copied over 10 reads as 10 |
| ClientBuffer.ValBufIsRoomy | tsh/matrix.c:15-16 | 32 characters are room for every value read, for N below 2^30 |
| ClientBuffer.RunAnswers | tsh/tshlib.c:175-184 | in every run, whatever happens between the READs and whatever the buffers held, the buffer after a READ of a cell of A or B holds that cell's value |
| ClientBuffer.WorkerOfRun | tsh/matrix.c:118-176 | worker_compute with its READs answered by the server of a run puts exactly its cells with their products |
| Collection.IsRedundant | tsh/matrix.c:87-93 | true iff the key is in the table |
| Collection.CollectCell | tsh/matrix.c:83-100 | the key of the next cell is never in the table, so the duplicate branch is not taken |
| Collection.MasterCollect | tsh/matrix.c:65-108 | exactly N^2 GETs for distinct keys in one pass; each answer is entered once with its row-major rank and stored in its cell |
| RobustCollection.RobustGet | tsh/matrixold.c:278-313 | at most MAX_RETRIES + 1 calls, all but the last timed out, and which of the three results follows from the last |
| RobustCollection.RobustReadOrPut | tsh/matrixold.c:110-189 | the same for the wrappers of READ and PUT, where both failures give -1 |
| RobustCollection.TrackTries | tsh/matrixold.c:355-368 | whether some GET failed can be read off the log of calls: an error that is no timeout, or MAX_RETRIES + 1 timeouts in a row |
| RobustCollection.FullCount | tsh/matrixold.c:391 | the count reaches N^2 iff every cell is marked, and never exceeds it |
| RobustCollection.CollectCell | tsh/matrixold.c:351-371 | a cell is marked, counted and filled only by a successful call for its own key |
| RobustCollection.MasterCollect | tsh/matrixold.c:318-412 | for every pattern of results and timeouts: the count is the number of processed cells, each of these holds the value of a successful call for its own key, the result is true iff all cells were received, no call failed for good and workers_ok; without such a failure all cells are received, with successful calls only in N^2 calls; cells are missing only after an error without timeout (which is the last call), after max_attempts passes, or after a pass without success when workers_ok is false; every complete pass asks for every cell still missing at its end; the number of calls is bounded |
| RobustCollection.CallLimit | tsh/matrixold.c:342-347 | the bound is max_attempts * N^2 * (MAX_RETRIES + 1) |
| Framing.Readn | netlib/netlib.c:164-178 | what was taken from the channel is at the front of the buffer and nothing else is touched; 1 iff exactly nbytes were stored; succeeds if no call fails and enough arrives |
| Framing.Writen | netlib/netlib.c:196-210 | a prefix of the buffer enters the channel, in order; 1 iff all nbytes did |
| Framing.Unframe | netlib/netlib.c:164-178 | with the sender's counts equal bytes mean equal messages |
| Framing.RoundTrip | netlib/netlib.c:164-210 | for all chunk sizes and failures the receiver gets a prefix of the messages byte for byte, and all of them if nothing fails |

## Left out

- The execution of shell commands, sockets, ports, signals, fork, exec, wait statuses and process ids; their effects are actions and outcomes of the model.
- A regular expression engine: a matcher for the server, substring search for matrix keys.
- Unchecked allocation failures, byte order conversion and layout of C structs, the limits of the fixed name arrays and of the shell response.
- Release of tuple, backup and request nodes: only payload buffers are tracked as live or freed, and released nodes stay allocated in the model.
- TshServer.Tsh.SendTuple: connecting and both writes are one outcome, because the server treats all their failures alike.
- TshServer.Tsh.DeleteQueue: the tail pointer keeps pointing to a released node, as in the source; the process exits next.
- ServerInvariants.HandleInv: the exit operation is not a connection, because no state of the server follows it; `TshServer.StartAndExit` has it at the end of a run.
- storeTuple with f != 0, which has no caller.
- The exchanges of tshlib are atomic in the matrix runs. An exchange whose worker timed out or was killed is handled later or never; an exchange that a live worker waits for succeeds, so a live worker that goes on after a failed READ (tshlib returns 0 and matrix.c ignores it) is not modelled.
- ProtocolTheorems.Completion: it takes completed passes for granted; when the respawning parent can get them is `Respawn.RecoveryIff`.
- Which schedules are fair: the results about what can still happen name a continuation, they do not say that the scheduler takes it.
- ClientBuffer.RunAnswers: a value longer than the caller's buffer overruns it in the source; by `ClientBuffer.ValBufIsRoomy` that does not happen for N below 2^30.
- Starvation.MasterStarves: in matrix.c a respawned worker that still runs during the collection may publish the missing tuple again; the lemma speaks of the master's own steps. `Starvation.MatrixRunStarves` covers all schedules of matrixrun, which has no respawned workers.
- The collection loop of matrixrun.c as a loop; its GETs are those of the transition system.
- initializeMatrix, worker_compute and main of matrixold.c beyond the wrappers they call, the second program in that file and its commented-out code.
- RobustCollection.MasterCollect: the results of tshlib are arbitrary integers here and not tied to the server, because the wrappers take tshlib's failure value 0 as success.
- demo, tshtest.c, launch.c, printing, wall clock and build scripts.
