/**
 The parallel hashing pipeline: W strided worker threads (src/hash_file.rs) that lend their single
 buffer and hand their blocks to the receiver through the ordered channel (src/sync.rs).

 The pipeline is a step system. Every critical section of the channel's mutex, every `read` of a
 worker and every `Loan::drop` is one atomic action; actions of different threads interleave freely.
 A cancelled `recv` changes nothing beyond its first critical section, so it is the action `Want`
 that is not (yet) followed by `Take`; polling `recv` again while `receiving` is set is a no-op.
 */
module HashPipeline {
  import opened Wire
  import opened Geometry
  import opened ChannelState

  datatype Setup = Setup(layout: Layout, w: pos, hash: Bytes -> Bytes)

  /** A lent buffer; `owner` is the worker whose one-shot channel `Loan::drop` sends it back through. */
  datatype Loan = Loan(data: Bytes, owner: nat)

  datatype Item = Item(idx: nat, hash: Bytes, loan: Loan)

  datatype Phase =
    | LoopHead               // about to test `offset < file_size` and the error flag
    | Reading(buf: Bytes)    // inside `read_exact`
    | Sending(item: Item)    // in `send`, about to take the lock
    | Asleep(item: Item)     // in `send`, waiting on the condition variable
    | Lent                   // in `blocking_reclaim`, the loan is out
    | Returned(buf: Bytes)   // in `blocking_reclaim`, the loan has been dropped
    | Exited

  datatype Worker = Worker(offset: nat, blockIdx: nat, filePos: nat, phase: Phase)

  /** `slot` is the one-place mpsc buffer; `failed` is the error watch; `received` is history. */
  datatype Pipeline = Pipeline(
    workers: seq<Worker>, st: SharedState, slot: Option<Item>, failed: bool, received: seq<Item>)

  // ---------------------------------------------------------------- one worker

  function StartedWorker(l: Layout, i: nat): Worker {
    Worker(Start(l, i), i, Start(l, i), LoopHead)
  }

  function AfterLoopHead(l: Layout, failed: bool, wk: Worker): Worker {
    if wk.offset < l.size && !failed then wk.(phase := Reading([])) else wk.(phase := Exited)
  }

  /** One `read` inside `read_exact`; when the buffer is full the block is hashed and lent. */
  function AfterRead(s: Setup, w: nat, wk: Worker, chunk: Bytes): Worker
    requires wk.phase.Reading? && wk.offset <= s.layout.size
  {
    var buf := wk.phase.buf + chunk;
    wk.(filePos := wk.filePos + |chunk|,
        phase := if |buf| < LenAt(s.layout, wk.offset) then Reading(buf)
                 else Sending(Item(wk.blockIdx, s.hash(buf), Loan(buf, w))))
  }

  /** Buffer reclaimed, seek over the other workers' blocks, next index of this worker. */
  function AfterReclaim(s: Setup, wk: Worker): Worker {
    Worker(wk.offset + Scale(s.layout.bs, s.w), wk.blockIdx + s.w,
           wk.filePos + Scale(s.layout.bs, s.w - 1), LoopHead)
  }

  function Woken(wk: Worker): Worker {
    if wk.phase.Asleep? then wk.(phase := Sending(wk.phase.item)) else wk
  }

  /** `notify_all`. */
  function WakeAll(ws: seq<Worker>): (r: seq<Worker>)
    ensures |r| == |ws|
    ensures forall i :: 0 <= i < |ws| ==> r[i] == Woken(ws[i])
  {
    seq(|ws|, i requires 0 <= i < |ws| => Woken(ws[i]))
  }

  // ---------------------------------------------------------------- actions

  datatype Action =
    | Loop(w: nat)            // worker: loop test
    | Read(w: nat, n: nat)    // worker: `read` returns n bytes
    | Send(w: nat)            // worker: one locked pass of `send`
    | Wake(w: nat)            // worker: spurious wake-up
    | Reclaim(w: nat)         // worker: `blocking_reclaim` returns
    | Fail(w: nat)            // worker: open, seek or read error, then `tx.close()`
    | Want                    // receiver: first poll of a `recv`
    | Take                    // receiver: a `recv` returns an item
    | Drop(w: nat)            // receiver: drops the loan of a received item
    | Close                   // receiver: `close`

  /** The actions of worker threads in a run without I/O errors. */
  predicate ThreadAction(a: Action) {
    a.Loop? || a.Read? || a.Send? || a.Wake? || a.Reclaim?
  }

  predicate PipelineInit(s: Setup, p: Pipeline) {
    && |p.workers| == s.w
    && (forall i :: 0 <= i < s.w ==> p.workers[i] == StartedWorker(s.layout, i))
    && p.st == SharedState(None, false, false)
    && p.slot == None && !p.failed && p.received == []
  }

  predicate AllExited(p: Pipeline) {
    forall w :: 0 <= w < |p.workers| ==> p.workers[w].phase.Exited?
  }

  /** `send` reaching `blocking_send` while the one-place buffer is full would block holding the lock. */
  predicate BlocksUnderLock(p: Pipeline, w: nat) {
    && w < |p.workers| && p.workers[w].phase.Sending?
    && SendOutcomeOf(p.st, p.workers[w].phase.item.idx) == Placed
    && p.slot.Some?
  }

  predicate Enabled(s: Setup, p: Pipeline, a: Action, file: Bytes) {
    match a
    case Loop(w) => w < |p.workers| && p.workers[w].phase.LoopHead?
    case Read(w, n) =>
      && w < |p.workers| && p.workers[w].phase.Reading?
      && p.workers[w].offset <= s.layout.size
      && 0 < n && |p.workers[w].phase.buf| + n <= LenAt(s.layout, p.workers[w].offset)
      && p.workers[w].filePos + n <= |file|
    case Send(w) => w < |p.workers| && p.workers[w].phase.Sending? && !BlocksUnderLock(p, w)
    case Wake(w) => w < |p.workers| && p.workers[w].phase.Asleep?
    case Reclaim(w) => w < |p.workers| && p.workers[w].phase.Returned?
    case Fail(w) =>
      && w < |p.workers|
      && (p.workers[w].phase.LoopHead? || p.workers[w].phase.Reading? || p.workers[w].phase.Returned?)
    case Want => !p.st.receiving
    case Take => p.st.receiving && p.slot.Some?
    case Drop(w) =>
      && w < |p.workers| && p.workers[w].phase.Lent?
      && p.workers[w].blockIdx < |p.received|
    case Close => !p.st.closed
  }

  function SetWorker(p: Pipeline, w: nat, wk: Worker): Pipeline
    requires w < |p.workers|
  {
    p.(workers := p.workers[w := wk])
  }

  function DoSend(p: Pipeline, w: nat): Pipeline
    requires w < |p.workers| && p.workers[w].phase.Sending?
  {
    var wk := p.workers[w];
    match SendOutcomeOf(p.st, wk.phase.item.idx)
    case Refused => SetWorker(p, w, wk.(phase := Exited))
    case Placed => SetWorker(p, w, wk.(phase := Lent)).(slot := Some(wk.phase.item))
    case MustWait => SetWorker(p, w, wk.(phase := Asleep(wk.phase.item)))
  }

  function DoWant(p: Pipeline): Pipeline {
    p.(workers := WakeAll(p.workers), st := WantNext(p.st))
  }

  function DoTake(p: Pipeline): Pipeline
    requires p.slot.Some?
  {
    p.(st := p.st.(receiving := false), slot := None, received := p.received + [p.slot.value])
  }

  /** The receiver drops the loan of the received item of worker w. */
  function DoDrop(p: Pipeline, w: nat): Pipeline
    requires w < |p.workers| && p.workers[w].blockIdx < |p.received|
  {
    SetWorker(p, w, p.workers[w].(phase := Returned(p.received[p.workers[w].blockIdx].loan.data)))
  }

  /** `Loan::drop`: the buffer goes back to the worker that lent it. */
  function ReturnLoan(p: Pipeline, loan: Loan): Pipeline {
    if loan.owner < |p.workers| then
      SetWorker(p, loan.owner, p.workers[loan.owner].(phase := Returned(loan.data)))
    else p
  }

  function DoClose(p: Pipeline): Pipeline {
    p.(workers := WakeAll(p.workers), st := p.st.(closed := true))
  }

  function Apply(s: Setup, p: Pipeline, a: Action, file: Bytes): Pipeline
    requires Enabled(s, p, a, file)
  {
    match a
    case Loop(w) => SetWorker(p, w, AfterLoopHead(s.layout, p.failed, p.workers[w]))
    case Read(w, n) =>
      SetWorker(p, w, AfterRead(s, w, p.workers[w], file[p.workers[w].filePos..p.workers[w].filePos + n]))
    case Send(w) => DoSend(p, w)
    case Wake(w) => SetWorker(p, w, Woken(p.workers[w]))
    case Reclaim(w) => SetWorker(p, w, AfterReclaim(s, p.workers[w]))
    case Fail(w) => DoClose(SetWorker(p, w, p.workers[w].(phase := Exited)).(failed := true))
    case Want => DoWant(p)
    case Take => DoTake(p)
    case Drop(w) => DoDrop(p, w)
    case Close => DoClose(p)
  }

  // ---------------------------------------------------------------- invariant

  /** The item a sequential pass over file `f` would produce for block k. */
  function ItemOf(s: Setup, f: Bytes, k: nat): Item
    requires |f| == s.layout.size && InRange(s.layout, k)
  {
    Item(k, s.hash(Block(s.layout, f, k)), Loan(Block(s.layout, f, k), Owner(s.w, k)))
  }

  /** Items taken by the receiver. */
  function Count(p: Pipeline): nat {
    |p.received|
  }

  /** Items sent so far: those taken and the one in the slot. */
  function Sent(p: Pipeline): nat {
    Count(p) + if p.slot.Some? then 1 else 0
  }

  ghost predicate WorkerOk(s: Setup, f: Bytes, wk: Worker, w: nat, count: nat, sent: nat, st: SharedState)
    requires |f| == s.layout.size
  {
    && Owner(s.w, wk.blockIdx) == w
    && wk.offset == Start(s.layout, wk.blockIdx)
    && wk.blockIdx < count + s.w
    && match wk.phase
       case LoopHead =>
         wk.blockIdx >= sent && (wk.offset < s.layout.size ==> wk.filePos == wk.offset)
       case Reading(buf) =>
         && wk.blockIdx >= sent && wk.offset < s.layout.size
         && |buf| < LenAt(s.layout, wk.offset)
         && wk.filePos == wk.offset + |buf|
         && buf == f[wk.offset..wk.filePos]
       case Sending(item) =>
         wk.blockIdx >= sent && FilledWorker(s, wk) && item == ItemOf(s, f, wk.blockIdx)
       case Asleep(item) =>
         && wk.blockIdx >= sent && FilledWorker(s, wk) && item == ItemOf(s, f, wk.blockIdx)
         && !st.closed && st.wanted != Some(wk.blockIdx)
       case Lent => wk.blockIdx < sent <= wk.blockIdx + s.w && FilledWorker(s, wk)
       case Returned(buf) =>
         && wk.blockIdx < count && sent <= wk.blockIdx + s.w && FilledWorker(s, wk)
         && buf == Block(s.layout, f, wk.blockIdx)
       case Exited => !st.closed ==> wk.blockIdx >= sent && wk.offset >= s.layout.size
  }

  predicate FilledWorker(s: Setup, wk: Worker) {
    && wk.offset == Start(s.layout, wk.blockIdx) < s.layout.size
    && wk.filePos == wk.offset + LenAt(s.layout, wk.offset)
  }

  ghost predicate ChannelOk(s: Setup, f: Bytes, p: Pipeline)
    requires |f| == s.layout.size && |p.workers| == s.w
  {
    && Count(p) == CountOf(p.st)
    && (p.st.wanted.None? ==> !p.st.receiving)
    && (p.slot.Some? ==>
          && p.st.receiving
          && InRange(s.layout, Count(p))
          && p.slot.value == ItemOf(s, f, Count(p))
          && p.workers[Owner(s.w, Count(p))].phase.Lent?
          && p.workers[Owner(s.w, Count(p))].blockIdx == Count(p))
    && (forall k :: 0 <= k < Count(p) ==> InRange(s.layout, k) && p.received[k] == ItemOf(s, f, k))
  }

  ghost predicate PipelineInv(s: Setup, f: Bytes, p: Pipeline) {
    && |f| == s.layout.size
    && |p.workers| == s.w
    && (forall w :: 0 <= w < |p.workers| ==> WorkerOk(s, f, p.workers[w], w, Count(p), Sent(p), p.st))
    && ChannelOk(s, f, p)
    && (p.failed ==> p.st.closed)
  }
}
