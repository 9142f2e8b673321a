# deltasync: a verified model

deltasync synchronises one large file block by block. The server streams a hash for each block of its
copy, the client compares it with its own and sends back only the blocks that differ, and the server
writes them into the very file its workers are still hashing. Everything overlaps: strided hash
workers, an ordered channel, lent buffers, byte-level I/O that `select!` may cancel at any await, two
bounded transport directions, concurrent disk writes.

This project models that machinery in Dafny and proves what it is for. `dafny verify dfyconfig.toml`
checks all of it.

## Layers

| files | what they hold |
|---|---|
| `Wire`, `Geometry` | big-endian headers, string and block frames, the value-level frame reader, block and stride arithmetic |
| `Transport` | byte streams and a file under an adversary that decides how many bytes each call moves and which calls are left pending |
| `StringReader` | `ResumableReadString` on values, from every state a call can leave behind |
| `Resumable` | the resumable readers and writers as classes with the source's fields and loops, over that transport |
| `ChannelState`, `OrderedChannel` | the ordered channel for arbitrary senders, with cancelled receives; its critical sections as a class |
| `HashPipeline*`, `HashWorker`, `ChannelRefinement` | W strided workers, their loans and the channel as one step system; its invariant, its progress, its shutdown; one worker's loop as a class; every run of it is a run of the ordered channel |
| `Session`, `SessionInvariant` | both event loops, both pipelines, both pipes and the destination file as one step system, with cuts and disk errors, and its inductive invariant |
| `SessionClientSteps`, `SessionServerSteps` | every step keeps the invariant |
| `SessionTheorems`, `SessionProgress`, `SessionTermination`, `SessionShutdown`, `SessionFaults` | the results about whole runs |
| `LoopRuns`, `EventLoops` | the two loops as classes over the resumable objects, each `select!` branch proved to make a run of the session model |
| `Handshake` | the three messages and replies, the resize of the destination, the agreement a session starts from |

## Main results

- **End to end** (`EndToEnd`): in every run that was not cut and met no disk error, for any interleaving, chunking and
  cancellation, once the server is done the destination equals the source *if and only if* no compared pair of
  differing blocks shares a hash. `EndToEndWithFaults` is the same for all runs: add that every differing block arrived
  and none was torn by a failed disk write.
- **Termination without deadlock** (`SessionTerminates`): for transport directions of any capacity, the length of
  every run, cut or not, is bounded by a work measure plus its spurious wake-ups, and a run that cannot go on has
  stopped on both sides; an uncut one with both loops done and every thread of both sides exited.
- **Hash before write** (`HashBeforeWrite`): every hash the server emits is that of the block as it stood before the
  session wrote anything.
- **Interruption** (`InterruptionSafety`, `RetriesReachEquality`, `DeliveredIsNotResent`): wherever the connection is
  cut, the server leaves every block wholly old or wholly new, a prefix of the differing ones; after any number of such
  sessions, with any workers and capacities, a complete one reaches equality, and no block is sent twice.
- **Loans** (`LoanConservation`, `LoanBound`): the buffer of each worker is always in exactly one place, and the client
  never holds more blocks than it has workers.
- **Parallel equals sequential** (`ParallelRefinesSequential`), **ordered delivery under cancellation**
  (`OrderedDelivery`, and `PipelineIsChannelRun`, which makes it a fact about the pipeline), **no lost wake-up and no
  blocking under the lock** (`NoLostWakeup`), **exactly the differing blocks** (`ExactlyDifferingBlocksSent`),
  **idempotence** (`SecondRunSendsNothing`).
- **Codecs**: `CallRefinesReadString` with `ResumableReadString.ReadOn`: a call answers what `read_string` answers on
  the whole stream, under any chunking and cancellation; `SendBlocks` and `ReceiveBlocks` round-trip any list of frames
  though no length is sent. A call is cancelled only when a read or write was itself left pending, so a schedule with a
  call for every byte completes all of them; `HeaderBytes` and `HeaderValue` give the wire format byte by byte.
- **Handshake** (`HandshakeAgreement`): how every handshake ends, with the reason the client is told;
  `SecretReplies`, `VersionReplies` and `RequestReplies` give the server's reply byte, or its silence, for every message.
- **The code's loops run the model** (`EventLoops`): each branch of either loop, one call of a resumable object with any
  number of reads or writes, is a run of the session model from the state the object represents to the one it represents
  then, with the labels fixed by what was read, written, compared or met; `FileAtEnd` is the end-to-end result about the
  file that the object has written.

## Where a promise fails, and exactly when

- *Joins at shutdown.* `HashStream::drop` closes the channel and joins its workers, but an item left in the channel's
  slot is only dropped after the joins, and its worker waits for that buffer. The joins complete if and only if the slot
  is empty when the channel is closed (`JoinCompletesIffSlotEmpty`, `ServerJoinIffSlotEmpty`). That always holds for
  uncut sessions. For every configuration `CutCanHangServer` gives an interrupted run where it does not: a worker fills
  the slot of an outstanding receive, and the biased `select!` sees the end of the stream before it polls the receive
  again. The comments in src/sync.rs (the buffer is "always" empty) and docs/architecture.md (dropping the receiver
  unblocks all senders) promise more; the model follows the code.
- *Reuse of the string reader.* Once a call has returned, the next call answers what `read_string` answers, on every
  continuation of the stream, if and only if the header just read was incomplete or announced no more than the maximum
  (`ReusableIffHeaderInBounds`). After the too-long error the length is still set and the buffer still has the eight
  places of the header, so the next call skips the header: it returns the rejected bytes filled up with header bytes
  (`TooLongThenGarbage`, `TooLongExample`) or, for strings longer than eight bytes, reports a closed connection on an
  open stream (`TooLongThenClosed`), or returns the header at once if the length wraps (`TooLongThenHeader`). The client
  stops reading hashes after any error, so it never makes that call.
- *The client after a cut.* From the moment its hash stream has ended, the client finishes if and only if every hash had
  reached it (`ClientFinishesIffHashesArrived`). Otherwise it waits for ever: the progress timer keeps `else => break`
  from being reached (`CutCanStarveClient`).
- *What a finished client has achieved.* Failed writes are ignored, so a client may finish although none of its blocks
  arrived (`FinishedClientProvesNothing`, for every configuration). Its blocks all arrived if and only if the connection
  swallowed nothing (`EndToEndWithFaults`).
- *Ignored disk errors.* A failed disk write is taken for a finished one. For every configuration there is an uncut run
  in which both sides end as after a success and the destination is unchanged (`DiskErrorsCanLoseEverything`). The
  errors do no harm if and only if every byte that did not reach the disk was there already (`EndToEndWithFaults`).

## How the code is modelled

- A `select!` loop is modelled by letting any ready branch fire, one `read` or `write` call per step. The biased order
  of the source picks one of these runs, so what holds for all runs holds for it, and a ready branch exists whenever the
  model has a step. Cancellation is a step of another branch; the state a resumable object keeps is its pending bytes,
  which `EventLoops` and `Resumable` prove to be what the source's fields represent.
- Each critical section of the channel's mutex, each `read` of a worker and each `Loan::drop` is one atomic action.
  A `recv` that is cancelled changes nothing beyond its first critical section.
- Transport is a reliable bounded FIFO; the step `Cut(k, j)` lets k of the bytes in transit through to the server and j
  to the client and then ends both streams. Both sides go on: what they write is lost, at once or when a write fails,
  and they ignore the failure as the source does.
- A schedule has one entry per read or write: 0 leaves it pending, so that the caller is cancelled, n lets it move at most
  n bytes. A read into an empty slice returns 0 bytes or waits, as `read` may; a read into room returns 0 only at the end
  of the stream.
- What the runs range over is stated too: `CutAtAnyByte`, `WritesMayFail`, `SchedulesAreFree`.
- The hash, and UTF-8 validity, are arbitrary functions; hash strings have at most 256 bytes and are valid UTF-8.
- Block starts are defined by repeated addition and the owner of a block by repeated subtraction; `StartIsProduct` and
  `OwnerIsModulo` tie them to multiplication and modulo. Unsigned arithmetic wraps where it can, as in a release build:
  the remaining length behind the end of the file, and the end of a rejected string.
- The branches the client never takes (end of the hash stream while the connection is alive, early end of its own
  pipeline) are not steps of the model; `ClientStreamsNeverEndEarly` proves that their guards are false in every
  reachable state.

## Model

| member | source | states |
|---|---|---|
| SessionTheorems.EndToEnd | src/server.rs:100-158 | every uncut run without disk errors that the server completes leaves the destination equal to the source iff no differing pair of blocks shares a hash; the frames received are exactly the differing blocks |
| SessionTheorems.EndToEndWithFaults | src/server.rs:119-136 | in every run, cut or with ignored disk errors, the final destination equals the source iff no differing pair shares a hash, every differing block arrived and none was torn; a finished client's blocks all arrived iff the connection swallowed nothing |
| SessionTheorems.HashBeforeWrite | src/server.rs:126-149 | in every reachable state the hashes taken by the server are those of the original blocks, and no block changes before its hash is taken |
| SessionTheorems.ExactlyDifferingBlocksSent | src/client.rs:106-138 | when the client has finished, cut or not, the bytes it wrote are the frames of exactly the blocks whose hashes differ, once each, in increasing offset order, and nothing is queued |
| SessionTheorems.LoanBound | src/client.rs:127-130 | the send queue plus the block being written never exceed the worker count, and their indices are distinct modulo it |
| SessionTheorems.LoanConservation | src/hash_file.rs:106-114 | in every reachable state each client worker's buffer is in exactly one of worker, slot, queue or writer, and each server worker's is lent iff it is in the slot |
| SessionTheorems.InterruptionSafety | src/server.rs:126-136 | whenever the server has left its loop without disk errors, cut or not, each block is wholly the source's or wholly the original one, and those replaced are a prefix of the differing ones |
| SessionTheorems.RetriesReachEquality | src/server.rs:56-77 | after any number of interrupted sessions, each with its own workers, capacities and schedule, a complete one reaches equality |
| SessionTheorems.DeliveredIsNotResent | src/client.rs:127-131 | a block that one session delivered is the source's at the start of every later one, which does not send it |
| SessionTheorems.Idempotence | src/client.rs:124-138 | synchronising equal files sends no byte and never changes the destination, in any run |
| SessionTheorems.SecondRunSendsNothing | src/client.rs:124-138 | after a completed run a second one, with any workers and schedule, sends nothing and changes nothing |
| SessionTheorems.DoubleBuffer | src/server.rs:119-131 | while a disk write is pending the reader is at a frame boundary, the position is block offset plus bytes written, and every other block is split only where its own write ended, whole without disk errors |
| SessionTheorems.DestWhenFinished | src/server.rs:132-158 | once the server has left its loop, the received frames are a prefix of the differing ones, a received block holds source bytes as far as they reached the disk and original bytes behind, every other block is as it was |
| SessionProgress.DeadlockFreedom | src/client.rs:91-142 | every state satisfying the invariant, cut or not, in which not both sides have stopped has an enabled step of the programs, for all capacities |
| SessionProgress.ClientProgress | src/client.rs:106-138 | a running client that is not starved of hashes can always write, be drained by the server, advance its pipeline, or be given a hash |
| SessionProgress.ServerDrains | src/server.rs:119-136 | a server with a pending disk write, bytes to read or a closed stream always has a step |
| SessionProgress.HashProgress | src/server.rs:138-149 | while hashes are missing on a live connection, one can be read, sent or produced |
| SessionProgress.ClientPipelineProgress | src/client.rs:124-130 | with an idle writer no buffer is lent out, so the client's pipeline can bring the next block |
| SessionProgress.JoinProgress | src/hash_file.rs:155-163 | after close, with no buffer lent out, a thread that has not exited can step |
| SessionTermination.EveryStepLowersWork | src/client.rs:91-142 | every step of both programs but a spurious wake-up, faults included, lowers the work measure |
| SessionTermination.RunLengthBounded | src/server.rs:100-153 | the length of every run is bounded by the work of its first state, its wake-ups and one cut |
| SessionTermination.SessionTerminates | src/client.rs:91-142 | every session terminates; a run that cannot go on has stopped on both sides, its client finished iff every hash arrived; uncut it is final with the end-to-end result |
| SessionShutdown.ServerJoinIffSlotEmpty | src/hash_file.rs:155-163 | once the server has closed its hash stream its joins can complete iff the slot is empty, which uncut runs guarantee |
| SessionShutdown.CutCanHangServer | src/server.rs:126-136 | for every configuration an interrupted run exists after which the server's joins never complete |
| SessionShutdown.ClientStreamsNeverEndEarly | src/client.rs:118-125 | while a client runs, its own pipeline does not end before the last comparison, and on a live connection its hash stream neither ends nor fails |
| SessionFaults.CutAtAnyByte | src/server.rs:132-135 | a live connection may be cut at any byte of either direction; what comes before arrives, the rest is lost, nothing else changes |
| SessionFaults.WritesMayFail | src/server.rs:119-122 | a disk write may fail at any byte, and a write to a dead connection at any time, and the loop goes on as if it had succeeded |
| SessionFaults.HashesRun | src/client.rs:118-127 | hashes received are never forgotten, and their number is fixed once the hash stream has ended |
| SessionFaults.ClientFinishesIffHashesArrived | src/client.rs:101-140 | after the end of the hash stream the client finishes, in every continuation that cannot go on, iff every hash had arrived; if one is missing it finishes in none |
| SessionFaults.CutCanStarveClient | src/client.rs:101-140 | for every configuration a cut before the first hash leaves a client that never finishes |
| SessionFaults.FinishedClientProvesNothing | src/client.rs:106-115 | for every configuration an interrupted run exists whose client finishes although the destination is unchanged |
| SessionFaults.DiskErrorsCanLoseEverything | src/server.rs:119-122 | for every configuration an uncut run exists whose disk writes all fail unnoticed: both sides end, the destination is unchanged |
| SessionServerSteps.SessionStepInv | src/server.rs:116-152 | every step of every participant and a cut keep the session invariant |
| SessionServerSteps.RunInv | src/server.rs:100-153 | every reachable state satisfies the session invariant |
| SessionServerSteps.NotYetWritten | src/server.rs:126-131 | blocks not yet taken from the server's pipeline still hold their original bytes |
| SessionServerSteps.ServerThreadInv | src/hash_file.rs:78-128 | a worker reading the file while it is overwritten keeps the invariant |
| SessionServerSteps.ServerTakePipeline | src/server.rs:143-146 | the server takes the next original hash in order and returns the buffer at once |
| SessionServerSteps.ServerTakeInv | src/server.rs:143-146 | taking a hash and starting to write it keeps the invariant |
| SessionServerSteps.ServerNoneInv | src/server.rs:147 | the end of the hash stream comes only after the last block |
| SessionServerSteps.ServerHashWritesInv | src/server.rs:138-140 | writing any part of a hash keeps the invariant |
| SessionServerSteps.BlockArrives | src/server.rs:126-131 | any chunk read from the client yields more of, or exactly, the next differing block |
| SessionServerSteps.BlockStartsWriting | src/server.rs:127-131 | a whole frame starts its disk write in front of the block's original bytes |
| SessionServerSteps.DiskKeepsDest | src/server.rs:119-122 | a partial disk write changes only the current block, and only to source bytes |
| SessionServerSteps.DiskEndKeepsDest | src/server.rs:120-122 | when a disk write ends, completed or failed, exactly what it wrote stays of the block |
| SessionServerSteps.ServerReadsInv | src/server.rs:126-131 | reading any chunk of a block keeps the invariant |
| SessionServerSteps.ServerEofInv | src/server.rs:132-135 | at the end of an uncut stream every differing block has been received |
| SessionServerSteps.CutInv | src/server.rs:132-135 | cutting the connection at any byte of either direction keeps the invariant |
| SessionClientSteps.ClientTakeInv | src/client.rs:124-138 | comparing a block, queueing it, counting it and possibly leaving the loop keep the invariant |
| SessionClientSteps.ComparedHash | src/client.rs:125-127 | the compared pair is the source block's hash and the original destination block's hash |
| SessionClientSteps.ClientWroteInv | src/client.rs:107-115 | finishing a block returns its loan, prepares the next one or ends the loop, and keeps the invariant |
| SessionClientSteps.ClientWritesInv | src/client.rs:92-96 | writing any part of a block, to a live or a dead connection, keeps the invariant |
| SessionClientSteps.ClientWriteFailsInv | src/client.rs:107-115 | a failed write that is taken for a finished one keeps the invariant |
| SessionClientSteps.ClientReadsInv | src/client.rs:118-121 | reading any chunk of a hash keeps the invariant |
| SessionClientSteps.HashArrives | src/client.rs:118-121 | any chunk read from the server yields more of, or exactly, the next original hash, never an error |
| SessionClientSteps.ClientWantInv | src/sync.rs:168-179 | asking for the next local block keeps the invariant |
| SessionClientSteps.ClientThreadInv | src/hash_file.rs:78-128 | every step of a client worker keeps the invariant |
| SessionClientSteps.PrepareKeeps | src/client.rs:149-164 | preparing the next block changes neither the bytes to send nor the loans held, and an idle writer means an empty queue |
| SessionClientSteps.LoansTake | src/client.rs:127-130 | a taken item's buffer moves from the slot to the loans the client holds |
| SessionClientSteps.LoansRemove | src/sync.rs:35-43 | dropping a held loan returns exactly that worker's buffer and keeps every other loan accounted for |
| SessionInvariant.InitInv | src/client.rs:75-85 | the initial state of both loops satisfies the invariant |
| SessionInvariant.DiffMembership | src/client.rs:127-131 | a block's frame is among the differing frames of the first n blocks iff it is one of them and its hashes differ |
| SessionInvariant.DiffFramesFacts | src/client.rs:124-131 | differing frames are valid on the wire and have strictly increasing offsets |
| HashPipelineTheorems.ParallelRefinesSequential | src/hash_file.rs:53-131 | for all worker counts and schedules the received items are a prefix of one sequential pass, of the length the shared state fixes, and None comes only after all of it |
| HashPipelineTheorems.NoLostWakeup | src/sync.rs:117-142 | nobody sleeps whose index is wanted or whose channel is closed, a full slot means an outstanding receive for it, no sender blocks holding the lock |
| HashPipelineTheorems.SchedulesAreFree | src/hash_file.rs:78-128 | in every reachable state short reads of any length, spurious wake-ups and I/O errors are possible; an error closes the channel and stops every worker at its next look |
| HashPipelineTheorems.StrideArithmetic | src/hash_file.rs:58-128 | workers keep their residue class, offsets are index times block size, readers are positioned in their block, and offsets stay within 64 bits |
| HashPipelineProofs.StepInv | src/hash_file.rs:78-128 | every action of workers and receiver keeps the pipeline invariant, even while other blocks of the file change |
| HashPipelineProofs.NeverBlocksUnderLock | src/sync.rs:123-129 | a sender that may place its item finds the slot empty and a receiver waiting for that index |
| HashPipelineProofs.SendInv | src/sync.rs:117-135 | one locked pass of send keeps the invariant in all three outcomes |
| HashPipelineProofs.WantInv | src/sync.rs:168-179 | asking for the next index and waking all senders keeps the invariant |
| HashPipelineProofs.TakeInv | src/sync.rs:186-191 | receiving the slot's item advances the count by one and keeps the invariant |
| HashPipelineProofs.CloseInv | src/sync.rs:202-209 | closing and waking all senders keeps the invariant |
| HashPipelineProofs.FailInv | src/hash_file.rs:93-101 | a failing worker that closes the channel keeps the invariant |
| HashPipelineProofs.ReadInv | src/hash_file.rs:85-104 | any partial read, and the hashing of a full buffer, keep the invariant |
| HashPipelineProofs.ReclaimInv | src/hash_file.rs:114-127 | reclaiming the buffer and advancing by the stride keep the invariant, also after a short last block |
| HashPipelineProofs.DropInv | src/sync.rs:35-43 | dropping a received loan returns the block's buffer to its worker |
| HashPipelineProgress.WorkDecreases | src/hash_file.rs:78-128 | every action but a wake-up or a failure lowers the pipeline's work |
| HashPipelineProgress.NextBlockProgress | src/sync.rs:117-192 | while blocks remain, the receiver or the worker of the next block can act unless that worker's buffer is lent out |
| HashPipelineProgress.NoneMeansAllTaken | src/sync.rs:186 | with all senders gone, the slot empty and the channel open, every block has been taken |
| HashPipelineProgress.JoinsComplete | src/hash_file.rs:155-163 | with an empty slot at close, thread steps are bounded and stop only with all threads exited |
| HashPipelineProgress.JoinsHang | src/hash_file.rs:155-163 | with a full slot at close, no continuation lets all threads exit |
| HashPipelineProgress.JoinCompletesIffSlotEmpty | src/hash_file.rs:155-163 | the joins can complete iff the slot is empty |
| HashWorker.WorkerThread.constructor | src/hash_file.rs:58-76 | a worker starts positioned at its own first block |
| HashWorker.WorkerThread.HashBlock | src/hash_file.rs:85-108 | any sequence of short reads ends in the hash and bytes of the worker's block |
| HashWorker.WorkerThread.Advance | src/hash_file.rs:116-127 | seek and stride make the model's transition and keep the worker aligned |
| HashWorker.WorkerThread.Pass | src/hash_file.rs:78-128 | one pass sends the worker's block unless an error was seen, the read failed or the channel was closed, goes on only if all went well, and closes the channel exactly on its own I/O errors |
| HashWorker.WorkerThread.Run | src/hash_file.rs:78-128 | whatever happens to each pass, the items sent are the first blocks of the residue class in order, up to the end of the file or the first pass that fails, and the channel is closed exactly on an own I/O error |
| HashWorker.StridePartition | src/hash_file.rs:58-59 | block k is item k / w of worker k mod w and of no other |
| OrderedChannel.EventKeeps | src/sync.rs:117-209 | every event of any senders and a receiver that may cancel keeps the channel invariant |
| OrderedChannel.OrderedDelivery | src/sync.rs:117-192 | values are received at exactly their index, none lost or duplicated, under any interleaving and any cancelled receives; nobody sleeps wrongly |
| OrderedChannel.ReceivedWasSent | src/sync.rs:168-192 | every received value was sent with its position as index |
| ChannelRefinement.ActionIsChannelEvents | src/sync.rs:117-192 | every action of workers and receiver is a sequence of events of the ordered channel |
| ChannelRefinement.PipelineIsChannelRun | src/hash_file.rs:106-112 | every run of the pipeline is a run of the ordered channel with the same shared state, slot and received items, each sent with its position as index |
| OrderedChannel.SharedChannel.constructor | src/sync.rs:67-89 | the object represents a new channel |
| OrderedChannel.SharedChannel.SendPass | src/sync.rs:120-132 | one pass of send is the channel's event: the call is rejected, delivered or asleep as the outcome says |
| OrderedChannel.SharedChannel.RecvEnter | src/sync.rs:170-179 | the first critical section of recv is the channel's event: the next index is wanted once, however often the call is cancelled, and senders are notified exactly then |
| OrderedChannel.SharedChannel.RecvComplete | src/sync.rs:186-191 | the end of recv is the channel's event: its value is the next received one |
| OrderedChannel.SharedChannel.Close | src/sync.rs:202-209 | close is the channel's event although only the first one notifies |
| LoopRuns.ServerReadsRun | src/server.rs:126-131 | the reads of one call of the block reader, of any sizes, are steps of the server |
| LoopRuns.ClientReadsRun | src/client.rs:118-121 | the reads of one call of the hash reader, of any sizes, are steps of the client |
| EventLoops.ClientLoop.constructor | src/client.rs:75-85 | the loop variables represent the client of every initial session |
| EventLoops.ClientLoop.PrepareNextWriteBlock | src/client.rs:149-164 | the oldest queued block becomes the writer, at idx * block_size, unless a block is being written |
| EventLoops.ClientLoop.BlockWritten | src/client.rs:107-115 | the branch takes the model's transition: drop the writer, leave the loop or prepare the next block |
| EventLoops.ClientLoop.WriteBlock | src/client.rs:92-115 | the branch puts a prefix of the block on the wire, stops short only if a write was left pending, and is the run of exactly these writes; at the end of the block the next one is prepared or the loop ends |
| EventLoops.ClientLoop.ReadRemoteHash | src/client.rs:118-121 | the branch is a run of one step per read that got bytes; unless a read was left pending, read_string's answer on the stream decides whether a hash is queued or the reading ends |
| EventLoops.ClientLoop.CompareLocalHash | src/client.rs:124-138 | the branch is exactly the step ClientTake: the oldest hash is used up, the block counted and added to what is to be sent iff the hashes differ, the last comparison detected |
| EventLoops.ServerLoop.constructor | src/server.rs:85-99 | the loop variables represent the server of every initial session |
| EventLoops.ServerLoop.WriteDisk | src/server.rs:105-122 | the branch writes the same bytes to the same place as the run of its writes, stops short only if a write was left pending, and is over iff the block is written |
| EventLoops.ServerLoop.ReadBlock | src/server.rs:126-136 | the branch is a run of one step per read that got bytes; a whole frame starts its disk write, and the loop ends iff a read that was not left pending found the stream ended |
| EventLoops.ServerLoop.NextHash | src/server.rs:143-147 | the branch is exactly the step ServerTake, which starts to write that hash, or ServerNone, which ends the hashing |
| EventLoops.ServerLoop.WriteHash | src/server.rs:138-140 | the branch puts a prefix of the hash on the wire, stops short only if a write was left pending, and is over iff the hash is written |
| EventLoops.OthersKeepServer | src/server.rs:116-152 | what the client does leaves a server loop representing the session |
| EventLoops.FileAtEnd | src/server.rs:100-158 | the file a server loop has written in an uncut session without disk errors equals the source iff no differing pair shares a hash |
| Resumable.ShiftIn | src/common.rs:103-106 | the shift loop computes the value of eight bytes, the most significant first, byte by byte, without losing a bit |
| Resumable.ShiftOut | src/common.rs:144-148 | the shift loop stores each of the eight bytes of the value, the most significant first |
| Resumable.ResumableReadString.constructor | src/common.rs:81-88 | a fresh reader has read nothing |
| Resumable.ResumableReadString.ReadHeader | src/common.rs:94-116 | the header is read under any chunking and stands where the model's call stands, over-long strings are rejected |
| Resumable.ResumableReadString.ReadPayload | src/common.rs:118-124 | the payload loop, over a string in bounds or a rejected one, stands where the model's call stands after the same reads |
| Resumable.ResumableReadString.ReadOn | src/common.rs:90-131 | from any state a call is the model's call; in step, a call that completes answers what read_string answers on the whole stream and leaves the same rest; it waits only if a read was left pending, and then loses nothing |
| Resumable.ResumableReadString.ViewIsValid | src/common.rs:90-131 | between calls the reader is in a state of the model |
| StringReader.CallRefinesReadString | src/common.rs:90-131 | however its reads are sized, a call loses no byte while it waits and answers what read_string answers on the whole stream, with the same rest |
| StringReader.ReusableIffHeaderInBounds | src/common.rs:107-131 | after a call has returned, every later call on every continuation answers what read_string answers iff the header just read was incomplete or announced no more than the maximum |
| StringReader.SpentNeverRejects | src/common.rs:118-124 | after a too-long error the next call reads no header and cannot find a string too long |
| StringReader.TooLongThenGarbage | src/common.rs:118-130 | after rejecting a string of at most eight bytes the next call returns its bytes filled up with header bytes |
| StringReader.TooLongThenClosed | src/common.rs:118-124 | after rejecting a longer string the next call reads eight bytes and reports a closed connection whatever follows |
| StringReader.TooLongThenHeader | src/common.rs:118-130 | after rejecting a length that the addition of 8 wraps the next call returns the header at once |
| StringReader.TooLongExample | src/common.rs:107-131 | the string "toolong" with maximum 3: what the two calls answer and what read_string answers |
| StringReader.CallIsFeeding | src/common.rs:90-131 | the reads of a call are the reads of the value-level frame reader |
| Resumable.ResumableWriteString.constructor | src/common.rs:141-155 | a new writer has exactly write_string's bytes to write |
| Resumable.ResumableWriteString.WriteTo | src/common.rs:157-167 | a call writes a prefix of what remains, reports completion iff nothing remains, and stops short only if a write was left pending |
| Resumable.ResumableWriteFileBlock.constructor | src/common.rs:182-191 | a new writer has exactly the frame's bytes to write |
| Resumable.ResumableWriteFileBlock.ShiftFront | src/common.rs:212-213 | the unwritten header bytes move to the front of the buffer |
| Resumable.ResumableWriteFileBlock.WriteOffset | src/common.rs:209-216 | the header is written out of its shifting buffer under any partial writes |
| Resumable.ResumableWriteFileBlock.WritePayload | src/common.rs:218-221 | the payload is written under any partial writes |
| Resumable.ResumableWriteFileBlock.WriteTo | src/common.rs:193-223 | a call writes a prefix of what remains of the frame, reports completion iff nothing remains, and stops short only if a write was left pending |
| Resumable.ResumableReadFileBlock.constructor | src/common.rs:234-241 | a fresh reader has read nothing, whatever its buffer holds |
| Resumable.ResumableReadFileBlock.ReadHeader | src/common.rs:248-273 | the offset is read under any chunking and the buffer gets the length it implies |
| Resumable.ResumableReadFileBlock.ReadPayload | src/common.rs:275-281 | the payload loop stands where the value-level reader stands after the same reads |
| Resumable.ResumableReadFileBlock.ReadOn | src/common.rs:243-290 | the reads of a call come to what the value-level reader makes of them: a call that completes has consumed exactly one frame of the implied length, one that waits had a read left pending and loses nothing, a failed one met the end of the stream |
| Resumable.ResumableAsyncWriteAll.WriteAll | src/common.rs:303-310 | a call writes a prefix of the remaining data at the file position and nowhere else, and stops short only if a write was left pending |
| Resumable.SendBlock | src/common.rs:193-223 | one block is written completely however often it is cancelled and resumed, unless the schedule ends; a write per byte suffices |
| Resumable.SendBlocks | src/common.rs:193-223 | a list of blocks puts exactly its frames on the wire under any schedule that does not end first; a write per byte suffices |
| Resumable.WholeFrameIsTaken | src/common.rs:243-290 | a call on a stream that starts with a whole frame is not left waiting if there is a read for each of its bytes |
| Resumable.ReceiveBlocks | src/common.rs:243-290 | the received list is a prefix of the sent one with the rest still to come, the whole list at the end of the stream; a read per byte and one for the end reach it |
| Resumable.ReceiveStrings | src/common.rs:90-131 | the received strings are a prefix of the sent ones with the rest still to come, all of them at the end of the stream, empty ones included; a read per byte and one for the end reach it |
| Resumable.FirstFrame | src/common.rs:243-290 | a stream of frames without lengths decomposes in only one way |
| Wire.HeaderBytes | src/common.rs:144-148 | the eight bytes of a header, each given by its place value, the most significant first |
| Wire.HeaderValue | src/common.rs:103-106 | the value of a header as the sum of its bytes times their place values |
| Wire.ImpliedLength | src/common.rs:263-270 | the length an offset implies: a full block or what is left of the file, with a wrapped difference behind its end |
| Wire.BigEndianRoundTrip | src/common.rs:141-148 | decoding an encoded header gives the value back |
| Wire.FromBigEndianInverse | src/common.rs:103-106 | encoding a decoded header gives the bytes back |
| Wire.Feed | src/common.rs:243-290 | one read leaves a proper part of a frame, completes exactly that frame, or rejects an over-long header |
| Wire.FeedAllIsJudge | src/common.rs:243-290 | the chunking does not matter: the outcome of any reads is that of all consumed bytes at once |
| Wire.FeedAllKeepsBytes | src/common.rs:243-290 | no sequence of reads loses or invents a byte, and only valid frames come out |
| Wire.FeedFromStream | src/common.rs:243-290 | a stream that starts with a valid frame yields that frame and leaves the rest, whatever the chunking |
| Wire.FlowRead | src/common.rs:243-290 | reading from the transport yields more of, or exactly, the first frame in flight |
| Wire.FlowDrained | src/common.rs:249-256 | nothing in transit and nothing to write means every frame was received |
| Wire.ReadStringInvertsWriteString | src/common.rs:21-42 | read_string inverts write_string and consumes exactly its bytes |
| Geometry.IndexInRange | src/client.rs:82 | an index is a block of the file iff it lies below the rounded-up quotient |
| Geometry.BlocksCoverFile | src/hash_file.rs:78-104 | files that agree on every block are equal |
| Geometry.BlocksDisjoint | src/hash_file.rs:86-90 | distinct blocks have disjoint ranges and distinct offsets |
| Geometry.SameOwnerWithinStride | src/hash_file.rs:126-127 | within one stride the worker determines the index |
| Geometry.StartOfStride | src/hash_file.rs:126-127 | advancing the index by the worker count advances the offset by workers times block size |
| Handshake.HandshakeAgreement | src/client.rs:31-66 | how every handshake ends: given up, refused with which status, connection lost, or started; then both sides hold the same parameters, the block size is in 1..2^30 and the destination has the source's size |
| Handshake.HandshakeStartsSession | src/server.rs:37-85 | a passed handshake gives a valid session configuration with equal block counts on both sides |
| Handshake.RequestOutcome | src/server.rs:37-77 | the server's reply byte, or silence, to whatever the client requests, and what an accepted request leaves both sides with |
| Handshake.RequestReplies | src/server.rs:37-77 | the reply to every message as a request: silence without a path or a complete message, 7 for a block size outside 1..2^30, 5 for an unknown algorithm, otherwise 0, 2, 3 or silence as the file decides |
| Handshake.RequestAccepted | src/server.rs:37-77 | which bytes of an accepted request become path, block size, file size, force flag and algorithm |
| Handshake.RequestFormat | src/client.rs:41-64 | the client's request byte by byte |
| Handshake.SecretReplies | src/server.rs:18-28 | the reply to every message as a secret: 0 iff it starts with the secret behind its length, silence if it ends too early, 1 otherwise |
| Handshake.SecretAccepted | src/server.rs:18-28 | between the two programs the reply is 0 iff the secrets are equal, and 1 otherwise |
| Handshake.VersionReplies | src/server.rs:30-35 | version 1 is answered with 0, any other with 6 |
| Handshake.ClientFollowsReplies | src/client.rs:31-66 | with any server the client sends secret, version 1 and request, goes on iff each reply is 0, and gives up a long secret or an empty source |
| Handshake.CheckedReplies | src/common.rs:52-70 | check_status passes only the byte 0, reports the status of bytes 1 to 7 and knows no other |
| Handshake.StatusRoundTrip | src/common.rs:8-19 | every status is told apart by its byte |
| Handshake.SetLen | src/server.rs:56-69 | the resized destination has exactly the announced size: a prefix of the old bytes, zeros behind |

## Left out

- src/remote_start.rs, src/utils.rs: SSH start-up and path clean-up, foreign calls only.
- src/main.rs: command line, daemon mode and accept loop; a single compare-exchange lets one client in at a time.
- CRC32C, MD5 and hex encoding: the hash is an arbitrary function.
- Tokio, mpsc, oneshot, condition variable and mutex internals: only their contracts are modelled; the one-place buffer, atomic critical sections, and cancellation only at awaits.
- Progress timer and printing: they change no modelled state.
- Socket errors on a live connection: an error ends the connection, which is a cut.
- Worker I/O errors in the session: they are actions of the pipeline (`Fail`) and of the worker's loop, whose results cover them, but not steps of the composed session, which they end with an error.
- Errors of `seek`, `flush` and `sync_data` on the destination: the server then ends with an error.
- OS durability, buffering inside tokio's file object, and TCP resets.
- Debug-build overflow panics: arithmetic is that of a release build. A string reader's maximum is below 2^63, since a larger buffer cannot be allocated.
- HashWorker.WorkerThread.Run: opening the file and the first seek are not part of it; interleaving with the channel is in `HashPipeline`.
- EventLoops.ClientLoop.WriteBlock: a call that writes several times while the server drains is modelled as one write, so the run is claimed for what fits into the transport at once.
- EventLoops.ServerLoop.WriteHash: the same, with the client draining.
- Identity of lent buffers: a loan is its bytes and the worker it returns to; the memory address of the `Vec` is not modelled.
