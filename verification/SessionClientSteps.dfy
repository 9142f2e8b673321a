/** Every step of the client's side keeps the session invariant. */
module SessionClientSteps {
  import opened Wire
  import opened Geometry
  import opened HashPipeline
  import opened HashPipelineProofs
  import opened Session
  import opened SessionInvariant

  // ---------------------------------------------------------------- pipeline facts

  /** What a thread's step leaves alone: received items, shared state and every lent buffer. */
  lemma ThreadFrame(s: Setup, f: Bytes, p: Pipeline, a: Action, file: Bytes)
    requires PipelineInv(s, f, p) && Enabled(s, p, a, file) && ThreadAction(a)
    ensures var p' := Apply(s, p, a, file);
            && p'.received == p.received && p'.st == p.st && p'.failed == p.failed && |p'.workers| == |p.workers|
            && (forall w :: 0 <= w < |p.workers| && p.workers[w].phase.Lent? ==> p'.workers[w] == p.workers[w])
            && (forall w :: 0 <= w < |p.workers| && p'.workers[w].phase.Lent? ==>
                  p'.workers[w] == p.workers[w] || (p'.slot.Some? && p'.workers[w].blockIdx == Count(p)))
            && (p.slot.Some? ==> p'.slot == p.slot)
  {
    if a.Send? {
      NeverBlocksUnderLock(s, f, p, a.w);
    }
  }

  lemma ReturnLoanInv(s: Setup, f: Bytes, p: Pipeline, loan: Loan, idx: nat)
    requires PipelineInv(s, f, p) && idx < Count(p) && InRange(s.layout, idx) && loan == ItemOf(s, f, idx).loan
    requires p.workers[loan.owner].phase.Lent? && p.workers[loan.owner].blockIdx == idx
    ensures PipelineInv(s, f, ReturnLoan(p, loan))
    ensures ReturnLoan(p, loan) == DoDrop(p, loan.owner)
  {
    assert p.received[idx] == ItemOf(s, f, idx);
    DropInv(s, f, p, loan.owner);
  }

  // ---------------------------------------------------------------- loans

  lemma LoansThread(c: Config, held: seq<Queued>, p: Pipeline, a: Action)
    requires ValidConfig(c) && PipelineInv(ClientSetup(c), c.src, p) && LoansOk(c, held, p)
    requires Enabled(ClientSetup(c), p, a, c.src) && ThreadAction(a)
    ensures LoansOk(c, held, Apply(ClientSetup(c), p, a, c.src))
  {
    ThreadFrame(ClientSetup(c), c.src, p, a, c.src);
  }

  lemma LoansWake(c: Config, held: seq<Queued>, p: Pipeline, p': Pipeline)
    requires |c.src| == c.layout.size && |p.workers| == c.clientWorkers && LoansOk(c, held, p)
    requires p'.workers == WakeAll(p.workers) && p'.received == p.received && p'.slot == p.slot
    ensures LoansOk(c, held, p')
  {
    forall i | 0 <= i < |held| ensures HeldLoan(c, p', held[i]) {
      assert HeldLoan(c, p, held[i]);
    }
    forall w | 0 <= w < |p'.workers| && p'.workers[w].phase.Lent?
      ensures (p'.slot.Some? && p'.workers[w].blockIdx == Count(p')) || HeldIdx(held, p'.workers[w].blockIdx)
    {
      assert p'.workers[w] == p.workers[w];
    }
  }

  /** Taking the slot's item moves its loan to the end of the held ones. */
  lemma LoansTake(c: Config, held: seq<Queued>, p: Pipeline)
    requires ValidConfig(c) && PipelineInv(ClientSetup(c), c.src, p) && LoansOk(c, held, p) && p.slot.Some?
    ensures LoansOk(c, held + [Queued(Count(p), p.slot.value.loan)], DoTake(p))
  {
    var held', p' := held + [Queued(Count(p), p.slot.value.loan)], DoTake(p);
    forall i | 0 <= i < |held'| ensures HeldLoan(c, p', held'[i]) {
      if i < |held| { assert HeldLoan(c, p, held[i]); }
    }
    forall w | 0 <= w < |p'.workers| && p'.workers[w].phase.Lent?
      ensures HeldIdx(held', p'.workers[w].blockIdx)
    {
      if HeldIdx(held, p.workers[w].blockIdx) {
        var i :| 0 <= i < |held| && held[i].idx == p.workers[w].blockIdx;
        assert held'[i].idx == p.workers[w].blockIdx;
      } else {
        assert held'[|held|].idx == p.workers[w].blockIdx;
      }
    }
  }

  /** Dropping a held loan returns the buffer and forgets the entry. */
  lemma LoansRemove(c: Config, held: seq<Queued>, p: Pipeline, x: nat)
    requires ValidConfig(c) && PipelineInv(ClientSetup(c), c.src, p) && LoansOk(c, held, p) && x < |held|
    ensures PipelineInv(ClientSetup(c), c.src, ReturnLoan(p, held[x].loan))
    ensures LoansOk(c, held[..x] + held[x + 1..], ReturnLoan(p, held[x].loan))
  {
    assert HeldLoan(c, p, held[x]);
    ReturnLoanInv(ClientSetup(c), c.src, p, held[x].loan, held[x].idx);
    var p', held' := ReturnLoan(p, held[x].loan), held[..x] + held[x + 1..];
    assert forall i :: 0 <= i < |held'| ==> held'[i] == held[if i < x then i else i + 1];
    forall i | 0 <= i < |held'| ensures HeldLoan(c, p', held'[i]) {
      assert HeldLoan(c, p, held'[i]);
    }
    forall w | 0 <= w < |p'.workers| && p'.workers[w].phase.Lent?
      ensures (p'.slot.Some? && p'.workers[w].blockIdx == Count(p')) || HeldIdx(held', p'.workers[w].blockIdx)
    {
      LentElsewhere(c, held, p, x, w);
    }
  }

  lemma WorkerOwnsBlock(s: Setup, f: Bytes, p: Pipeline, w: nat)
    requires PipelineInv(s, f, p) && w < |p.workers|
    ensures Owner(s.w, p.workers[w].blockIdx) == w
  {
    assert WorkerOk(s, f, p.workers[w], w, Count(p), Sent(p), p.st);
  }

  lemma LentElsewhere(c: Config, held: seq<Queued>, p: Pipeline, x: nat, w: nat)
    requires ValidConfig(c) && PipelineInv(ClientSetup(c), c.src, p) && LoansOk(c, held, p) && x < |held|
    requires w < |p.workers| && p.workers[w].phase.Lent? && w != held[x].loan.owner
    ensures (p.slot.Some? && p.workers[w].blockIdx == Count(p))
            || HeldIdx(held[..x] + held[x + 1..], p.workers[w].blockIdx)
  {
    WorkerOwnsBlock(ClientSetup(c), c.src, p, w);
    hide PipelineInv, LoansOk;
    if !(p.slot.Some? && p.workers[w].blockIdx == Count(p)) {
      var i := HolderOf(c, held, p, w);
      RemoveKeepsIdx(held, x, i);
    }
  }

  /** Which held loan worker w is waiting for. */
  lemma HolderOf(c: Config, held: seq<Queued>, p: Pipeline, w: nat) returns (i: nat)
    requires LoansOk(c, held, p) && w < |p.workers| && p.workers[w].phase.Lent?
    requires Owner(c.clientWorkers, p.workers[w].blockIdx) == w
    requires !(p.slot.Some? && p.workers[w].blockIdx == Count(p))
    ensures i < |held| && held[i].idx == p.workers[w].blockIdx && held[i].loan.owner == w
  {
    assert HeldIdx(held, p.workers[w].blockIdx);
    i :| 0 <= i < |held| && held[i].idx == p.workers[w].blockIdx;
    assert HeldLoan(c, p, held[i]);
  }

  lemma RemoveKeepsIdx(held: seq<Queued>, x: nat, i: nat)
    requires x < |held| && i < |held| && i != x
    ensures HeldIdx(held[..x] + held[x + 1..], held[i].idx)
  {
    var held' := held[..x] + held[x + 1..];
    assert held'[if i < x then i else i - 1] == held[i];
  }

  // ---------------------------------------------------------------- the send queue

  /** Preparing the next block moves it from the queue to the writer and changes neither the bytes to send
      nor the loans held. */
  lemma PrepareKeeps(l: Layout, cl: Client)
    ensures ClientRest(l, PrepareNext(l, cl)) == ClientRest(l, cl)
    ensures Held(PrepareNext(l, cl)) == Held(cl)
    ensures PrepareNext(l, cl).writer.None? ==> PrepareNext(l, cl).queue == []
  {
    if cl.writer.None? && cl.queue != [] {
      var fs := QueueFrames(l, cl.queue);
      assert fs[1..] == QueueFrames(l, cl.queue[1..]);
      assert Held(cl) == cl.queue;
      assert cl.queue == [cl.queue[0]] + cl.queue[1..];
    }
  }

  lemma QueueAppendRest(l: Layout, cl: Client, q: Queued)
    ensures ClientRest(l, cl.(queue := cl.queue + [q])) == ClientRest(l, cl) + Encode(QueuedFrame(l, q))
    ensures Held(cl.(queue := cl.queue + [q])) == Held(cl) + [q]
  {
    assert QueueFrames(l, cl.queue + [q]) == QueueFrames(l, cl.queue) + [QueuedFrame(l, q)];
    StreamAppend(QueueFrames(l, cl.queue), QueuedFrame(l, q));
  }

  // ---------------------------------------------------------------- steps

  lemma ClientThreadInv(c: Config, s: State, a: Action)
    requires Inv(c, s) && Enabled(ClientSetup(c), s.cp, a, c.src) && ThreadAction(a)
    ensures Inv(c, s.(cp := Apply(ClientSetup(c), s.cp, a, c.src)))
  {
    hide PipelineInv, LoansOk, ServerOk, DownOk, UpOk, DestOk, Enabled, Apply;
    StepInv(ClientSetup(c), c.src, s.cp, a, c.src);
    LoansThread(c, Held(s.cli), s.cp, a);
    ThreadFrame(ClientSetup(c), c.src, s.cp, a, c.src);
  }

  lemma WriterAdvances(l: Layout, cl: Client, n: nat)
    requires cl.writer.Some? && n <= |cl.writer.value.rest|
    ensures var wr := cl.writer.value;
            var cl' := cl.(writer := Some(wr.(rest := wr.rest[n..])));
            && Held(cl') == Held(cl) && ClientRest(l, cl) == wr.rest[..n] + ClientRest(l, cl')
  {
  }

  /** Bytes written to a live connection are in transit, bytes written to a dead one are lost. */
  lemma WriteMovesBytes(c: Config, pending: Bytes, up: Bytes, lost: Bytes, chunk: Bytes, rest: Bytes, frames: seq<Frame>, compared: nat)
    requires ValidConfig(c) && UpOk(c, pending, up, lost + (chunk + rest), frames, compared)
    ensures UpOk(c, pending, up, (lost + chunk) + rest, frames, compared)
    ensures lost == [] && |up| + |chunk| <= c.upCap ==> UpOk(c, pending, up + chunk, lost + rest, frames, compared)
  {
    assert lost + (chunk + rest) == (lost + chunk) + rest;
    if lost == [] {
      var fs := DiffFrames(c, compared)[|frames|..];
      assert lost + (chunk + rest) == chunk + rest && lost + rest == rest;
      assert up + (chunk + rest) == (up + chunk) + rest;
      FlowRegroup(UpFraming(c.layout), pending, up, chunk + rest, up + chunk, rest, fs);
    }
  }

  lemma ClientWritesInv(c: Config, s: State, n: nat)
    requires s.cli.writer.Some? && n <= |s.cli.writer.value.rest| && Inv(c, s) && ClientEnabled(c, s, ClientWrites(n))
    ensures Inv(c, DoClientWrites(s, n))
  {
    hide PipelineInv, LoansOk, ServerOk, DownOk, UpOk, DestOk, ClientRest, Held;
    var wr := s.cli.writer.value;
    WriterAdvances(c.layout, s.cli, n);
    WriteMovesBytes(c, s.srv.pending, s.up, s.lost, wr.rest[..n], ClientRest(c.layout, DoClientWrites(s, n).cli),
                    s.frames, s.cli.blockIdx);
  }

  lemma ClientWroteClient(c: Config, cl: Client, cp: Pipeline)
    requires ClientOk(c, cl, cp) && cl.writer.Some? && !cl.finished
    ensures ClientOk(c, OnBlockWritten(c.layout, cl), ReturnLoan(cp, cl.writer.value.loan))
  {
    hide ClientRest, Held, BlockCount, Encode;
    PrepareKeeps(c.layout, cl.(writer := None));
  }

  lemma ClientWroteSends(c: Config, cl: Client)
    requires cl.writer.Some? && cl.writer.value.rest == []
    ensures ClientRest(c.layout, OnBlockWritten(c.layout, cl)) == ClientRest(c.layout, cl)
    ensures Held(OnBlockWritten(c.layout, cl)) == Held(cl)[1..]
  {
    var cl1 := cl.(writer := None);
    DroppedWriter(c.layout, cl);
    PrepareKeeps(c.layout, cl1);
    SameSendState(c.layout, cl1, cl1.(finished := true));
    hide ClientRest, Held, PrepareNext;
  }

  lemma DroppedWriter(l: Layout, cl: Client)
    requires cl.writer.Some? && cl.writer.value.rest == []
    ensures ClientRest(l, cl.(writer := None)) == ClientRest(l, cl)
    ensures Held(cl.(writer := None)) == Held(cl)[1..]
  {
  }

  lemma ClientWroteInv(c: Config, s: State)
    requires s.cli.writer.Some? && Inv(c, s) && ClientEnabled(c, s, ClientWrote)
    ensures Inv(c, DoClientWrote(c, s))
  {
    hide PipelineInv, LoansOk, ServerOk, DownOk, UpOk, DestOk;
    ClientWroteClient(c, s.cli, s.cp);
    ClientWroteSends(c, s.cli);
    var held := Held(s.cli);
    LoansRemove(c, held, s.cp, 0);
    assert held[..0] + held[1..] == held[1..];
  }

  /** A failed write is a write of all that is left into the dead connection. */
  lemma ClientWriteFailsInv(c: Config, s: State)
    requires s.cli.writer.Some? && Inv(c, s) && ClientEnabled(c, s, ClientWriteFails)
    ensures Inv(c, DoClientWriteFails(c, s))
  {
    hide Inv;
    var n := |s.cli.writer.value.rest|;
    if n > 0 {
      ClientWritesInv(c, s, n);
      assert s.cli.writer.value.rest[n..] == [] && s.cli.writer.value.rest[..n] == s.cli.writer.value.rest;
      ClientWroteInv(c, DoClientWrites(s, n));
    } else {
      assert s.lost + [] == s.lost;
      ClientWroteInv(c, s);
    }
  }

  lemma ClientHashEndInv(c: Config, s: State)
    requires Inv(c, s) && s.cut
    ensures Inv(c, s.(cli := s.cli.(remoteDone := true)))
  {
    hide PipelineInv, LoansOk, ServerOk, DownOk, UpOk, DestOk;
    SameSendState(c.layout, s.cli, s.cli.(remoteDone := true));
  }

  lemma HashArrives(c: Config, pending: Bytes, remote: seq<Bytes>, compared: nat, down: Bytes, rest: Bytes, taken: nat, n: nat)
    requires ValidConfig(c) && DownOk(c, pending, remote, compared, down, rest, taken)
    requires 0 < n <= |down| && Partial(DownFraming(), pending) && n <= Room(DownFraming(), pending)
    requires taken > 0 ==> InRange(c.layout, taken - 1)
    ensures var fed := Feed(DownFraming(), pending, down[..n]);
            && !fed.Reject?
            && (fed.More? ==> DownOk(c, fed.pending, remote, compared, down[n..], rest, taken))
            && (fed.Got? ==>
                  && DownOk(c, [], remote + [fed.frame.payload], compared, down[n..], rest, taken)
                  && c.utf8(fed.frame.payload))
  {
    var m := compared + |remote|;
    hide Flow, Feed, Partial, Room, HashFrames;
    FlowRead(DownFraming(), pending, down, rest, HashFrames(c, taken)[m..], n);
    NextHashFrame(c, taken, m);
  }

  lemma NextHashFrame(c: Config, taken: nat, m: nat)
    requires ValidConfig(c) && m < |HashFrames(c, taken)| == taken && InRange(c.layout, taken - 1)
    ensures InRange(c.layout, m) && HashFrames(c, taken)[m..][0] == HashFrameAt(c, m)
    ensures HashFrames(c, taken)[m..][1..] == HashFrames(c, taken)[m + 1..]
    ensures c.utf8(HashFrameAt(c, m).payload)
  {
    HashFramesFacts(c, taken);
  }

  lemma TakenInRange(c: Config, s: State)
    requires Inv(c, s)
    ensures Count(s.sp) > 0 ==> InRange(c.layout, Count(s.sp) - 1)
    ensures s.cli.blockIdx > 0 ==> InRange(c.layout, s.cli.blockIdx - 1)
  {
    var last := Count(s.sp) - 1;
    assert last >= 0 ==> s.sp.received[last] == ItemOf(ServerSetup(c), c.dst0, last);
    var last' := Count(s.cp) - 1;
    assert last' >= 0 ==> s.cp.received[last'] == ItemOf(ClientSetup(c), c.src, last');
  }

  /** Reading a hash touches neither the comparison nor the send queue. */
  lemma RemoteReadKeeps(c: Config, cl: Client, cp: Pipeline, fed: Fed)
    requires ClientOk(c, cl, cp)
    ensures var cl' := OnRemoteRead(cl, fed, c.utf8);
            && ClientOk(c, cl', cp) && Held(cl') == Held(cl) && ClientRest(c.layout, cl') == ClientRest(c.layout, cl)
            && cl'.blockIdx == cl.blockIdx && cl'.endIdx == cl.endIdx && cl'.finished == cl.finished
  {
    hide BlockCount, QueueFrames;
  }

  lemma ClientReadsInv(c: Config, s: State, n: nat)
    requires Inv(c, s) && ClientEnabled(c, s, ClientReads(n))
    ensures Inv(c, DoClientReads(c, s, n))
  {
    hide PipelineInv, LoansOk, ClientOk, ServerOk, DownOk, UpOk, DestOk, ClientRest, Held, Feed;
    TakenInRange(c, s);
    HashArrives(c, s.cli.pending, s.cli.remote, s.cli.blockIdx, s.down, DownRest(s), Count(s.sp), n);
    RemoteReadKeeps(c, s.cli, s.cp, Feed(DownFraming(), s.cli.pending, s.down[..n]));
  }

  lemma ClientWantInv(c: Config, s: State)
    requires Inv(c, s) && ClientEnabled(c, s, ClientWant)
    ensures Inv(c, s.(cp := DoWant(s.cp)))
  {
    hide LoansOk, ServerOk, DownOk, UpOk, DestOk, ClientRest;
    WantInv(ClientSetup(c), c.src, s.cp);
    LoansWake(c, Held(s.cli), s.cp, DoWant(s.cp));
  }

  lemma ClientCloseInv(c: Config, s: State)
    requires Inv(c, s) && s.cli.finished
    ensures Inv(c, s.(cp := DoClose(s.cp)))
  {
    hide LoansOk, ServerOk, DownOk, UpOk, DestOk, ClientRest;
    CloseInv(ClientSetup(c), c.src, s.cp);
    LoansWake(c, Held(s.cli), s.cp, DoClose(s.cp));
  }

  // ---------------------------------------------------------------- comparing a block

  /** The compared hash is the one the destination block had when the session began. */
  lemma ComparedHash(c: Config, s: State)
    requires ValidConfig(c) && s.cp.slot.Some? && s.cli.remote != []
    requires Inv(c, s) && ClientEnabled(c, s, ClientTake)
    ensures InRange(c.layout, s.cli.blockIdx)
    ensures s.cp.slot.value == ItemOf(ClientSetup(c), c.src, s.cli.blockIdx)
    ensures s.cp.slot.value.hash != s.cli.remote[0] <==> HashesDiffer(c, s.cli.blockIdx)
  {
    var k := s.cli.blockIdx;
    assert StringFrame(s.cli.remote[k - k]) == HashFrameAt(c, k);
  }

  lemma CompareDown(c: Config, pending: Bytes, remote: seq<Bytes>, compared: nat, down: Bytes, rest: Bytes, taken: nat)
    requires ValidConfig(c) && DownOk(c, pending, remote, compared, down, rest, taken) && remote != []
    ensures DownOk(c, pending, remote[1..], compared + 1, down, rest, taken)
    ensures compared < taken
  {
  }

  lemma TakeUp(c: Config, k: nat, pending: Bytes, up: Bytes, rest: Bytes, frames: seq<Frame>)
    requires ValidConfig(c) && UpOk(c, pending, up, rest, frames, k) && InRange(c.layout, k)
    ensures UpOk(c, pending, up, if HashesDiffer(c, k) then rest + Encode(BlockFrameAt(c, k)) else rest, frames, k + 1)
  {
    var fs := DiffFrames(c, k)[|frames|..];
    if HashesDiffer(c, k) {
      BlockFrameValid(c, k);
      FlowAppend(UpFraming(c.layout), pending, up, rest, fs, BlockFrameAt(c, k));
      assert DiffFrames(c, k + 1)[|frames|..] == fs + [BlockFrameAt(c, k)];
    }
  }

  /** The effect of the comparison on the client's own variables. */
  lemma TakeClient(c: Config, cl: Client, item: Item)
    requires cl.remote != [] && !cl.over && (cl.writer.None? ==> cl.queue == [])
    ensures var cl' := OnLocalHash(c.layout, cl, item);
            var q := Queued(cl.blockIdx, item.loan);
            && cl'.remote == cl.remote[1..] && cl'.blockIdx == cl.blockIdx + 1 && cl'.endIdx == cl.endIdx
            && cl'.pending == cl.pending && cl'.remoteDone == cl.remoteDone
            && (cl'.writer.None? ==> cl'.queue == [])
            && cl'.over == (cl'.blockIdx == cl.endIdx)
            && cl'.finished == (if cl'.over then cl'.writer.None? else cl.finished)
            && Held(cl') == (if item.hash != cl.remote[0] then Held(cl) + [q] else Held(cl))
            && ClientRest(c.layout, cl')
               == (if item.hash != cl.remote[0] then ClientRest(c.layout, cl) + Encode(QueuedFrame(c.layout, q))
                   else ClientRest(c.layout, cl))
  {
    var q := Queued(cl.blockIdx, item.loan);
    var cl1 := cl.(remote := cl.remote[1..]);
    var cl1' := cl1.(queue := cl1.queue + [q]);
    SameSendState(c.layout, cl, cl1);
    QueueAppendRest(c.layout, cl1, q);
    PrepareKeeps(c.layout, cl1');
    var cl2 := if item.hash != cl.remote[0] then PrepareNext(c.layout, cl1') else cl1;
    SameSendState(c.layout, cl2, OnLocalHash(c.layout, cl, item));
    hide ClientRest, Held, Encode;
  }

  /** The bytes to send and the loans held depend only on the queue and the writer. */
  lemma SameSendState(l: Layout, cl: Client, cl': Client)
    requires cl'.queue == cl.queue && cl'.writer == cl.writer
    ensures Held(cl') == Held(cl) && ClientRest(l, cl') == ClientRest(l, cl)
  {
  }

  lemma TakeLoans(c: Config, held: seq<Queued>, p: Pipeline, differ: bool)
    requires ValidConfig(c) && PipelineInv(ClientSetup(c), c.src, p) && LoansOk(c, held, p) && p.slot.Some?
    ensures var q := Queued(Count(p), p.slot.value.loan);
            var p' := if differ then DoTake(p) else ReturnLoan(DoTake(p), p.slot.value.loan);
            && PipelineInv(ClientSetup(c), c.src, p')
            && LoansOk(c, if differ then held + [q] else held, p')
            && p'.st == DoTake(p).st && p'.received == DoTake(p).received && p'.failed == p.failed
  {
    var q := Queued(Count(p), p.slot.value.loan);
    TakeInv(ClientSetup(c), c.src, p);
    LoansTake(c, held, p);
    if !differ {
      LoansRemove(c, held + [q], DoTake(p), |held|);
      assert (held + [q])[..|held|] + (held + [q])[|held| + 1..] == held;
    }
  }

  lemma TakeClientOk(c: Config, cl: Client, cp: Pipeline, item: Item, cp': Pipeline)
    requires ClientOk(c, cl, cp) && !cl.finished && cl.remote != [] && !cl.over && cp.slot.Some?
    requires Count(cp') == Count(cp) + 1 && cp'.st == DoTake(cp).st && cp'.failed == cp.failed
    ensures ClientOk(c, OnLocalHash(c.layout, cl, item), cp')
  {
    TakeClient(c, cl, item);
    hide OnLocalHash, ClientRest, Held, BlockCount;
  }

  lemma ClientTakeClient(c: Config, s: State)
    requires s.cp.slot.Some? && s.cli.remote != [] && Inv(c, s) && ClientEnabled(c, s, ClientTake)
    ensures var s' := DoClientTake(c, s);
            && ClientOk(c, s'.cli, s'.cp)
            && PipelineInv(ClientSetup(c), c.src, s'.cp) && LoansOk(c, Held(s'.cli), s'.cp)
            && s'.cli.remoteDone == s.cli.remoteDone
  {
    var item := s.cp.slot.value;
    hide PipelineInv, LoansOk, ClientOk, ServerOk, DownOk, UpOk, DestOk, OnLocalHash, ClientRest, Held, ReturnLoan;
    ClientShape(c, s);
    TakeClient(c, s.cli, item);
    TakeLoans(c, Held(s.cli), s.cp, item.hash != s.cli.remote[0]);
    TakeClientOk(c, s.cli, s.cp, item, DoClientTake(c, s).cp);
  }

  lemma ClientShape(c: Config, s: State)
    requires Inv(c, s)
    ensures s.cli.writer.None? ==> s.cli.queue == []
    ensures s.cli.blockIdx == Count(s.cp)
  {
  }

  lemma CompareUp(c: Config, cl: Client, item: Item, pending: Bytes, up: Bytes, lost: Bytes, frames: seq<Frame>)
    requires ValidConfig(c) && cl.remote != [] && !cl.over && (cl.writer.None? ==> cl.queue == [])
    requires InRange(c.layout, cl.blockIdx) && item.loan.data == Block(c.layout, c.src, cl.blockIdx)
    requires item.hash != cl.remote[0] <==> HashesDiffer(c, cl.blockIdx)
    requires UpOk(c, pending, up, lost + ClientRest(c.layout, cl), frames, cl.blockIdx)
    ensures var cl' := OnLocalHash(c.layout, cl, item);
            UpOk(c, pending, up, lost + ClientRest(c.layout, cl'), frames, cl'.blockIdx)
  {
    hide UpOk, OnLocalHash, ClientRest, Held, Encode, HashesDiffer;
    TakeClient(c, cl, item);
    TakeUp(c, cl.blockIdx, pending, up, lost + ClientRest(c.layout, cl), frames);
    var f := BlockFrameAt(c, cl.blockIdx);
    assert QueuedFrame(c.layout, Queued(cl.blockIdx, item.loan)) == f;
    assert (lost + ClientRest(c.layout, cl)) + Encode(f) == lost + (ClientRest(c.layout, cl) + Encode(f));
  }

  lemma ClientTakeUp(c: Config, s: State)
    requires ValidConfig(c) && s.cp.slot.Some? && s.cli.remote != []
    requires Inv(c, s) && ClientEnabled(c, s, ClientTake)
    ensures var cl := OnLocalHash(c.layout, s.cli, s.cp.slot.value);
            UpOk(c, s.srv.pending, s.up, s.lost + ClientRest(c.layout, cl), s.frames, cl.blockIdx)
  {
    hide PipelineInv, LoansOk, ClientOk, ServerOk, DownOk, UpOk, DestOk, OnLocalHash, ClientRest, Held, HashesDiffer;
    ComparedHash(c, s);
    ClientShape(c, s);
    CompareUp(c, s.cli, s.cp.slot.value, s.srv.pending, s.up, s.lost, s.frames);
  }

  lemma ClientTakeDown(c: Config, s: State)
    requires ValidConfig(c) && s.cp.slot.Some? && s.cli.remote != []
    requires Inv(c, s) && ClientEnabled(c, s, ClientTake)
    ensures var cl := OnLocalHash(c.layout, s.cli, s.cp.slot.value);
            && DownOk(c, cl.pending, cl.remote, cl.blockIdx, s.down, DownRest(s), Count(s.sp))
            && cl.blockIdx <= Count(s.sp) && cl.endIdx == s.cli.endIdx
  {
    hide PipelineInv, LoansOk, ServerOk, DownOk, UpOk, DestOk, OnLocalHash, ClientRest, Held, Encode;
    TakeClient(c, s.cli, s.cp.slot.value);
    CompareDown(c, s.cli.pending, s.cli.remote, s.cli.blockIdx, s.down, DownRest(s), Count(s.sp));
  }

  /** Comparing a block keeps the invariant. */
  lemma ClientTakeInv(c: Config, s: State)
    requires s.cp.slot.Some? && s.cli.remote != []
    requires Inv(c, s) && ClientEnabled(c, s, ClientTake)
    ensures Inv(c, DoClientTake(c, s))
  {
    hide PipelineInv, LoansOk, ClientOk, ServerOk, DownOk, UpOk, DestOk, OnLocalHash, ClientRest, Held, ReturnLoan;
    ClientTakeClient(c, s);
    ClientTakeUp(c, s);
    ClientTakeDown(c, s);
  }
}
