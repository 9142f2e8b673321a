/** Every action of the hashing pipeline keeps its invariant. */
module HashPipelineProofs {
  import opened Wire
  import opened Geometry
  import opened ChannelState
  import opened HashPipeline

  lemma PipelineInitInv(s: Setup, f: Bytes, p: Pipeline)
    requires |f| == s.layout.size && PipelineInit(s, p)
    ensures PipelineInv(s, f, p)
  {
  }

  /** No sender ever blocks in `blocking_send` while it holds the lock, and it sends to a waiting receiver. */
  lemma NeverBlocksUnderLock(s: Setup, f: Bytes, p: Pipeline, w: nat)
    requires PipelineInv(s, f, p) && w < |p.workers| && p.workers[w].phase.Sending?
    ensures !BlocksUnderLock(p, w)
    ensures SendOutcomeOf(p.st, p.workers[w].phase.item.idx) == Placed ==>
              p.st.receiving && p.slot.None? && p.workers[w].blockIdx == Count(p)
  {
    assert WorkerOk(s, f, p.workers[w], w, Count(p), Sent(p), p.st);
  }

  /** The file read by a worker may change under it as long as the worker's own block does not. */
  predicate ReadsAgree(s: Setup, f: Bytes, p: Pipeline, a: Action, file: Bytes) {
    (&& a.Read? && a.w < |p.workers| && |f| == |file| == s.layout.size
     && InRange(s.layout, p.workers[a.w].blockIdx))
    ==> AgreeOnBlock(s.layout, file, f, p.workers[a.w].blockIdx)
  }

  ghost predicate OwnsSlot(s: Setup, p: Pipeline, w: nat)
    requires w < |p.workers|
  {
    p.slot.Some? && w == Owner(s.w, Count(p)) && p.workers[w].blockIdx == Count(p) && p.workers[w].phase.Lent?
  }

  /** Replacing one worker that does not own the slot's item. */
  lemma UpdateInv(s: Setup, f: Bytes, p: Pipeline, w: nat, wk: Worker)
    requires PipelineInv(s, f, p) && w < |p.workers| && !OwnsSlot(s, p, w)
    requires WorkerOk(s, f, wk, w, Count(p), Sent(p), p.st)
    ensures PipelineInv(s, f, SetWorker(p, w, wk))
  {
    hide WorkerOk;
  }

  lemma LoopInv(s: Setup, f: Bytes, p: Pipeline, w: nat)
    requires PipelineInv(s, f, p) && w < |p.workers| && p.workers[w].phase.LoopHead?
    ensures PipelineInv(s, f, SetWorker(p, w, AfterLoopHead(s.layout, p.failed, p.workers[w])))
  {
    assert WorkerOk(s, f, p.workers[w], w, Count(p), Sent(p), p.st);
    UpdateInv(s, f, p, w, AfterLoopHead(s.layout, p.failed, p.workers[w]));
  }

  lemma ReadWorkerOk(s: Setup, f: Bytes, wk: Worker, w: nat, count: nat, sent: nat, st: SharedState, chunk: Bytes)
    requires |f| == s.layout.size && WorkerOk(s, f, wk, w, count, sent, st) && wk.phase.Reading?
    requires 0 < |chunk| && |wk.phase.buf| + |chunk| <= LenAt(s.layout, wk.offset)
    requires chunk == f[wk.filePos..wk.filePos + |chunk|]
    ensures WorkerOk(s, f, AfterRead(s, w, wk, chunk), w, count, sent, st)
  {
    var buf := wk.phase.buf + chunk;
    assert buf == f[wk.offset..wk.filePos + |chunk|];
    if |buf| == LenAt(s.layout, wk.offset) {
      assert buf == Block(s.layout, f, wk.blockIdx);
    }
  }

  lemma ReadInv(s: Setup, f: Bytes, p: Pipeline, w: nat, n: nat, file: Bytes)
    requires PipelineInv(s, f, p) && Enabled(s, p, Read(w, n), file)
    requires |file| == s.layout.size && ReadsAgree(s, f, p, Read(w, n), file)
    ensures PipelineInv(s, f, SetWorker(p, w, AfterRead(s, w, p.workers[w],
                                                file[p.workers[w].filePos..p.workers[w].filePos + n])))
  {
    var wk := p.workers[w];
    ReadNewWorkerOk(s, f, p, w, n, file);
    hide WorkerOk, ChannelOk, AfterRead;
    UpdateInv(s, f, p, w, AfterRead(s, w, wk, file[wk.filePos..wk.filePos + n]));
  }

  lemma ReadNewWorkerOk(s: Setup, f: Bytes, p: Pipeline, w: nat, n: nat, file: Bytes)
    requires PipelineInv(s, f, p) && Enabled(s, p, Read(w, n), file)
    requires |file| == s.layout.size && ReadsAgree(s, f, p, Read(w, n), file)
    ensures var wk := p.workers[w];
            WorkerOk(s, f, AfterRead(s, w, wk, file[wk.filePos..wk.filePos + n]), w, Count(p), Sent(p), p.st)
  {
    var wk := p.workers[w];
    assert WorkerOk(s, f, wk, w, Count(p), Sent(p), p.st);
    SameBytes(file, f, Start(s.layout, wk.blockIdx), End(s.layout, wk.blockIdx), wk.filePos, wk.filePos + n);
    ReadWorkerOk(s, f, wk, w, Count(p), Sent(p), p.st, file[wk.filePos..wk.filePos + n]);
  }

  lemma SameBytes(f: Bytes, g: Bytes, a: nat, b: nat, i: nat, j: nat)
    requires a <= i <= j <= b <= |f| && b <= |g| && Agree(f, g, a, b)
    ensures f[i..j] == g[i..j]
  {
  }

  /** A placed item: the sent count grows past this worker's index and no other worker owns that index. */
  lemma PlaceInv(s: Setup, f: Bytes, p: Pipeline, w: nat)
    requires PipelineInv(s, f, p) && w < |p.workers| && p.workers[w].phase.Sending?
    requires SendOutcomeOf(p.st, p.workers[w].phase.item.idx) == Placed
    ensures PipelineInv(s, f, DoSend(p, w))
  {
    var wk := p.workers[w];
    assert WorkerOk(s, f, wk, w, Count(p), Sent(p), p.st);
    NeverBlocksUnderLock(s, f, p, w);
    var p' := DoSend(p, w);
    forall v | 0 <= v < |p'.workers|
      ensures WorkerOk(s, f, p'.workers[v], v, Count(p'), Sent(p'), p'.st)
    {
      OtherWorkerAfterPlace(s, f, p, w, v);
    }
  }

  lemma OtherWorkerAfterPlace(s: Setup, f: Bytes, p: Pipeline, w: nat, v: nat)
    requires PipelineInv(s, f, p) && w < |p.workers| && p.workers[w].phase.Sending? && v < |p.workers|
    requires p.slot.None? && p.workers[w].blockIdx == Count(p)
    ensures WorkerOk(s, f, if v == w then p.workers[w].(phase := Lent) else p.workers[v], v, Count(p), Count(p) + 1, p.st)
  {
    assert WorkerOk(s, f, p.workers[v], v, Count(p), Sent(p), p.st);
    assert WorkerOk(s, f, p.workers[w], w, Count(p), Sent(p), p.st);
    assert v != w ==> p.workers[v].blockIdx + s.w != Count(p);
  }

  lemma SendInv(s: Setup, f: Bytes, p: Pipeline, w: nat)
    requires PipelineInv(s, f, p) && w < |p.workers| && p.workers[w].phase.Sending?
    ensures PipelineInv(s, f, DoSend(p, w))
  {
    var wk := p.workers[w];
    assert WorkerOk(s, f, wk, w, Count(p), Sent(p), p.st);
    match SendOutcomeOf(p.st, wk.phase.item.idx)
    case Refused => UpdateInv(s, f, p, w, wk.(phase := Exited));
    case Placed => PlaceInv(s, f, p, w);
    case MustWait => UpdateInv(s, f, p, w, wk.(phase := Asleep(wk.phase.item)));
  }

  lemma WakeInv(s: Setup, f: Bytes, p: Pipeline, w: nat)
    requires PipelineInv(s, f, p) && w < |p.workers| && p.workers[w].phase.Asleep?
    ensures PipelineInv(s, f, SetWorker(p, w, Woken(p.workers[w])))
  {
    assert WorkerOk(s, f, p.workers[w], w, Count(p), Sent(p), p.st);
    UpdateInv(s, f, p, w, Woken(p.workers[w]));
  }

  /** After a short last block the file position differs from the new offset, which then lies past the end. */
  lemma ReclaimWorkerOk(s: Setup, f: Bytes, wk: Worker, w: nat, count: nat, sent: nat, st: SharedState)
    requires |f| == s.layout.size && WorkerOk(s, f, wk, w, count, sent, st) && wk.phase.Returned?
    ensures WorkerOk(s, f, AfterReclaim(s, wk), w, count, sent, st)
  {
    ScaleAdd(s.layout.bs, wk.blockIdx, s.w);
    assert Owner(s.w, wk.blockIdx + s.w) == w;
  }

  lemma ReclaimInv(s: Setup, f: Bytes, p: Pipeline, w: nat)
    requires PipelineInv(s, f, p) && w < |p.workers| && p.workers[w].phase.Returned?
    ensures PipelineInv(s, f, SetWorker(p, w, AfterReclaim(s, p.workers[w])))
  {
    ReclaimWorkerOk(s, f, p.workers[w], w, Count(p), Sent(p), p.st);
    UpdateInv(s, f, p, w, AfterReclaim(s, p.workers[w]));
  }

  lemma WokenOk(s: Setup, f: Bytes, wk: Worker, w: nat, count: nat, sent: nat, st: SharedState, st': SharedState)
    requires |f| == s.layout.size && WorkerOk(s, f, wk, w, count, sent, st) && (st.closed ==> st'.closed)
    ensures WorkerOk(s, f, Woken(wk), w, count, sent, st')
  {
  }

  lemma CloseInv(s: Setup, f: Bytes, p: Pipeline)
    requires PipelineInv(s, f, p)
    ensures PipelineInv(s, f, DoClose(p))
  {
    forall v | 0 <= v < |p.workers|
      ensures WorkerOk(s, f, Woken(p.workers[v]), v, Count(p), Sent(p), DoClose(p).st)
    {
      WokenOk(s, f, p.workers[v], v, Count(p), Sent(p), p.st, DoClose(p).st);
    }
  }

  lemma ExitedOk(s: Setup, f: Bytes, wk: Worker, w: nat, count: nat, sent: nat, st: SharedState)
    requires |f| == s.layout.size && WorkerOk(s, f, wk, w, count, sent, st) && st.closed
    ensures WorkerOk(s, f, wk.(phase := Exited), w, count, sent, st)
  {
  }

  lemma FailInv(s: Setup, f: Bytes, p: Pipeline, w: nat)
    requires PipelineInv(s, f, p) && w < |p.workers| && !p.workers[w].phase.Lent?
    ensures PipelineInv(s, f, DoClose(SetWorker(p, w, p.workers[w].(phase := Exited)).(failed := true)))
  {
    hide WorkerOk;
    CloseInv(s, f, p);
    var q := DoClose(p);
    ExitedOk(s, f, q.workers[w], w, Count(q), Sent(q), q.st);
    UpdateInv(s, f, q, w, q.workers[w].(phase := Exited));
    assert WakeAll(p.workers[w := p.workers[w].(phase := Exited)]) == q.workers[w := q.workers[w].(phase := Exited)];
  }

  lemma WantInv(s: Setup, f: Bytes, p: Pipeline)
    requires PipelineInv(s, f, p) && !p.st.receiving
    ensures PipelineInv(s, f, DoWant(p))
  {
    forall v | 0 <= v < |p.workers|
      ensures WorkerOk(s, f, Woken(p.workers[v]), v, Count(p), Sent(p), DoWant(p).st)
    {
      WokenOk(s, f, p.workers[v], v, Count(p), Sent(p), p.st, DoWant(p).st);
    }
  }

  lemma TakeInv(s: Setup, f: Bytes, p: Pipeline)
    requires PipelineInv(s, f, p) && p.slot.Some?
    ensures PipelineInv(s, f, DoTake(p))
    ensures Count(DoTake(p)) == Count(p) + 1 && Sent(DoTake(p)) == Sent(p)
  {
    var p' := DoTake(p);
    forall v | 0 <= v < |p'.workers|
      ensures WorkerOk(s, f, p'.workers[v], v, Count(p'), Sent(p'), p'.st)
    {
      assert WorkerOk(s, f, p.workers[v], v, Count(p), Sent(p), p.st);
    }
  }

  lemma DropInv(s: Setup, f: Bytes, p: Pipeline, w: nat)
    requires PipelineInv(s, f, p) && w < |p.workers| && p.workers[w].phase.Lent? && p.workers[w].blockIdx < Count(p)
    ensures PipelineInv(s, f, DoDrop(p, w))
  {
    assert WorkerOk(s, f, p.workers[w], w, Count(p), Sent(p), p.st);
    assert p.received[p.workers[w].blockIdx] == ItemOf(s, f, p.workers[w].blockIdx);
    UpdateInv(s, f, p, w, p.workers[w].(phase := Returned(Block(s.layout, f, p.workers[w].blockIdx))));
  }

  /** Every action keeps the invariant, even while the file changes elsewhere. */
  lemma StepInv(s: Setup, f: Bytes, p: Pipeline, a: Action, file: Bytes)
    requires PipelineInv(s, f, p) && Enabled(s, p, a, file)
    requires |file| == s.layout.size && ReadsAgree(s, f, p, a, file)
    ensures PipelineInv(s, f, Apply(s, p, a, file))
  {
    match a
    case Loop(w) => LoopInv(s, f, p, w);
    case Read(w, n) => ReadInv(s, f, p, w, n, file);
    case Send(w) => SendInv(s, f, p, w);
    case Wake(w) => WakeInv(s, f, p, w);
    case Reclaim(w) => ReclaimInv(s, f, p, w);
    case Fail(w) => FailInv(s, f, p, w);
    case Want => WantInv(s, f, p);
    case Take => TakeInv(s, f, p);
    case Drop(w) => DropInv(s, f, p, w);
    case Close => CloseInv(s, f, p);
  }
}
