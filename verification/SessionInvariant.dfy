/** The inductive invariant of a synchronisation session. */
module SessionInvariant {
  import opened Wire
  import opened Geometry
  import opened HashPipeline
  import opened Session

  // ---------------------------------------------------------------- what should travel

  /** The hash string of block k of the destination as it stood when the session began. */
  function HashFrameAt(c: Config, k: nat): Frame
    requires |c.dst0| == c.layout.size && InRange(c.layout, k)
  {
    StringFrame(c.hash(Block(c.layout, c.dst0, k)))
  }

  function BlockFrameAt(c: Config, k: nat): Frame
    requires |c.src| == c.layout.size && InRange(c.layout, k)
  {
    Frame(Start(c.layout, k), Block(c.layout, c.src, k))
  }

  predicate HashesDiffer(c: Config, k: nat)
    requires |c.src| == |c.dst0| == c.layout.size && InRange(c.layout, k)
  {
    c.hash(Block(c.layout, c.src, k)) != c.hash(Block(c.layout, c.dst0, k))
  }

  /** The hash frames of the first n blocks, in order. */
  function HashFrames(c: Config, n: nat): seq<Frame>
    requires |c.dst0| == c.layout.size
  {
    if n == 0 || !InRange(c.layout, n - 1) then [] else HashFrames(c, n - 1) + [HashFrameAt(c, n - 1)]
  }

  /** The frames of those among the first n blocks whose hashes differ, in order. */
  function DiffFrames(c: Config, n: nat): seq<Frame>
    requires |c.src| == |c.dst0| == c.layout.size
  {
    if n == 0 || !InRange(c.layout, n - 1) then []
    else if HashesDiffer(c, n - 1) then DiffFrames(c, n - 1) + [BlockFrameAt(c, n - 1)]
    else DiffFrames(c, n - 1)
  }

  /** n is the number of blocks. */
  predicate BlockCount(l: Layout, n: nat) {
    !InRange(l, n) && (n > 0 ==> InRange(l, n - 1))
  }

  // ---------------------------------------------------------------- client

  ghost predicate ClientOk(c: Config, cl: Client, cp: Pipeline) {
    && BlockCount(c.layout, cl.endIdx)
    && cl.blockIdx == Count(cp) <= cl.endIdx
    && (cl.over <==> cl.blockIdx == cl.endIdx)
    && (cl.over ==> !cp.st.receiving)
    && (cl.writer.None? ==> cl.queue == [])
    && (cl.finished ==> cl.over && cl.writer.None?)
    && (cl.over && !cl.finished ==> cl.writer.Some?)
    && (!cl.finished ==> !cp.st.closed)
    && !cp.failed
  }

  /** The loans the client's loop holds, oldest first. */
  function Held(cl: Client): seq<Queued> {
    (if cl.writer.Some? then [Queued(cl.writer.value.idx, cl.writer.value.loan)] else []) + cl.queue
  }

  /** A held loan is exactly the buffer that the worker of that block is waiting for. */
  ghost predicate HeldLoan(c: Config, cp: Pipeline, q: Queued)
    requires |c.src| == c.layout.size && |cp.workers| == c.clientWorkers
  {
    && q.idx < Count(cp) && InRange(c.layout, q.idx)
    && q.loan == ItemOf(ClientSetup(c), c.src, q.idx).loan
    && cp.workers[q.loan.owner].phase.Lent?
    && cp.workers[q.loan.owner].blockIdx == q.idx
  }

  predicate HeldIdx(held: seq<Queued>, idx: nat) {
    exists i :: 0 <= i < |held| && held[i].idx == idx
  }

  /** Every lent buffer of the client's pipeline is in the slot, in the queue or with the writer. */
  ghost predicate LoansOk(c: Config, held: seq<Queued>, cp: Pipeline) {
    && |c.src| == c.layout.size && |cp.workers| == c.clientWorkers
    && (forall i :: 0 <= i < |held| ==> HeldLoan(c, cp, held[i]))
    && (forall i, j :: 0 <= i < j < |held| ==> held[i].idx < held[j].idx)
    && (forall w :: 0 <= w < |cp.workers| && cp.workers[w].phase.Lent? ==>
          (cp.slot.Some? && cp.workers[w].blockIdx == Count(cp)) || HeldIdx(held, cp.workers[w].blockIdx))
  }

  // ---------------------------------------------------------------- server

  /** The server's loop keeps no loan, so only the slot's item can be lent out. */
  ghost predicate OnlySlotLent(sp: Pipeline) {
    forall w :: 0 <= w < |sp.workers| && sp.workers[w].phase.Lent? ==>
      sp.slot.Some? && sp.workers[w].blockIdx == Count(sp)
  }

  ghost predicate ServerOk(c: Config, sv: Server, sp: Pipeline) {
    && (sv.disk.Some? ==> sv.pending == [])
    && (sv.finished ==> sv.disk.None?)
    && (sv.hashingDone ==> !InRange(c.layout, Count(sp)))
    && (!sv.finished ==> !sp.st.closed)
    && !sp.failed
    && OnlySlotLent(sp)
  }

  // ---------------------------------------------------------------- the two streams

  function HashRest(sv: Server): Bytes {
    if sv.hashOut.Some? then sv.hashOut.value else []
  }

  /** The client has compared `compared` blocks and holds the next hashes in `remote`; the server has taken
      `taken` items from its pipeline. */
  ghost predicate DownOk(c: Config, pending: Bytes, remote: seq<Bytes>, compared: nat, down: Bytes, rest: Bytes, taken: nat)
    requires ValidConfig(c)
  {
    && |down| <= c.downCap
    && compared + |remote| <= taken == |HashFrames(c, taken)|
    && Flow(DownFraming(), pending, down, rest, HashFrames(c, taken)[compared + |remote|..])
    && RemoteOk(c, remote, compared)
  }

  ghost predicate RemoteOk(c: Config, remote: seq<Bytes>, compared: nat)
    requires ValidConfig(c)
  {
    forall k :: compared <= k < compared + |remote| ==>
      InRange(c.layout, k) && StringFrame(remote[k - compared]) == HashFrameAt(c, k)
  }

  ghost predicate UpOk(c: Config, pending: Bytes, up: Bytes, rest: Bytes, frames: seq<Frame>, compared: nat)
    requires ValidConfig(c)
  {
    && |up| <= c.upCap
    && frames <= DiffFrames(c, compared)
    && Flow(UpFraming(c.layout), pending, up, rest, DiffFrames(c, compared)[|frames|..])
  }

  /** What will not come out of the transport: bytes a cut has swallowed, then bytes still to be written. */
  function UpRest(c: Config, s: State): Bytes {
    s.lost + ClientRest(c.layout, s.cli)
  }

  function DownRest(s: State): Bytes {
    s.downLost + HashRest(s.srv)
  }

  // ---------------------------------------------------------------- the destination file

  /** Block k holds source bytes in front, n of them, and original bytes behind. */
  ghost predicate SplitAt(c: Config, dest: Bytes, k: nat, n: nat)
    requires ValidConfig(c) && |dest| == c.layout.size && InRange(c.layout, k)
  {
    && Start(c.layout, k) + n <= End(c.layout, k)
    && Agree(dest, c.src, Start(c.layout, k), Start(c.layout, k) + n)
    && Agree(dest, c.dst0, Start(c.layout, k) + n, End(c.layout, k))
  }

  /** n bytes of frame `f` have reached the file. */
  ghost predicate Landed(c: Config, dest: Bytes, f: Frame, n: nat)
    requires ValidConfig(c) && |dest| == c.layout.size
  {
    forall k: nat :: InRange(c.layout, k) && BlockFrameAt(c, k) == f ==> SplitAt(c, dest, k, n)
  }

  /** The frames whose disk write has ended. */
  function OnDisk(frames: seq<Frame>, disk: Option<DiskWrite>): seq<Frame> {
    if disk.Some? && frames != [] then frames[..|frames| - 1] else frames
  }

  /** The server is writing block k: its range holds new bytes up to the file position and old bytes after it. */
  ghost predicate Writing(c: Config, dest: Bytes, f: Frame, d: DiskWrite, filePos: nat, k: nat)
    requires ValidConfig(c) && |dest| == c.layout.size
  {
    && InRange(c.layout, k) && f == BlockFrameAt(c, k)
    && d.data == f.payload && d.written <= |d.data|
    && filePos == Start(c.layout, k) + d.written
    && SplitAt(c, dest, k, d.written)
  }

  ghost predicate WritingSome(c: Config, dest: Bytes, f: Frame, d: DiskWrite, filePos: nat)
    requires ValidConfig(c) && |dest| == c.layout.size
  {
    exists k: nat :: Writing(c, dest, f, d, filePos, k)
  }

  predicate Distinct(frames: seq<Frame>) {
    forall i, j :: 0 <= i < j < |frames| ==> frames[i] != frames[j]
  }

  ghost predicate DestOk(c: Config, dest: Bytes, frames: seq<Frame>, landed: seq<nat>, disk: Option<DiskWrite>, filePos: nat)
    requires ValidConfig(c)
  {
    && |dest| == c.layout.size
    && Distinct(frames)
    && |landed| == |OnDisk(frames, disk)|
    && (forall k: nat :: InRange(c.layout, k) && BlockFrameAt(c, k) !in frames ==> AgreeOnBlock(c.layout, dest, c.dst0, k))
    && (forall i :: 0 <= i < |landed| ==> Landed(c, dest, frames[i], landed[i]))
    && (disk.Some? ==>
          frames != [] && WritingSome(c, dest, frames[|frames| - 1], disk.value, filePos))
  }

  // ---------------------------------------------------------------- all together

  ghost predicate Glue(c: Config, s: State)
    requires ValidConfig(c)
  {
    && (s.upClosed <==> s.cli.finished || s.cut)
    && (!s.cut ==> !s.cli.remoteDone && s.lost == [] && s.downLost == [])
    && (s.srv.finished ==> s.up == [])
    && s.cli.blockIdx <= Count(s.sp)
    && (!s.cut && s.srv.finished ==> s.cli.finished && s.frames == DiffFrames(c, s.cli.endIdx) && Count(s.sp) >= s.cli.endIdx)
  }

  ghost predicate Inv(c: Config, s: State) {
    && ValidConfig(c)
    && PipelineInv(ClientSetup(c), c.src, s.cp)
    && PipelineInv(ServerSetup(c), c.dst0, s.sp)
    && ClientOk(c, s.cli, s.cp)
    && LoansOk(c, Held(s.cli), s.cp)
    && ServerOk(c, s.srv, s.sp)
    && DownOk(c, s.cli.pending, s.cli.remote, s.cli.blockIdx, s.down, DownRest(s), Count(s.sp))
    && UpOk(c, s.srv.pending, s.up, UpRest(c, s), s.frames, s.cli.blockIdx)
    && DestOk(c, s.dest, s.frames, s.landed, s.srv.disk, s.srv.filePos)
    && Glue(c, s)
  }

  // ---------------------------------------------------------------- facts about the frame lists

  lemma {:induction false} BlockCountRange(l: Layout, n: nat, k: nat)
    requires BlockCount(l, n)
    ensures k < n <==> InRange(l, k)
  {
    if k < n - 1 {
      StartMonotone(l, k, n - 1);
    } else if k > n {
      StartMonotone(l, n, k);
    }
  }

  lemma BlockCountIsNumBlocks(l: Layout)
    ensures BlockCount(l, NumBlocks(l))
    ensures forall n: nat :: BlockCount(l, n) ==> n == NumBlocks(l)
  {
    IndexInRange(l, NumBlocks(l));
    if NumBlocks(l) > 0 {
      IndexInRange(l, NumBlocks(l) - 1);
    }
    forall n: nat | BlockCount(l, n)
      ensures n == NumBlocks(l)
    {
      BlockCountRange(l, n, NumBlocks(l));
      IndexInRange(l, n);
    }
  }

  lemma EarlierInRange(l: Layout, j: nat, k: nat)
    requires InRange(l, k) && j <= k
    ensures InRange(l, j)
  {
    if j < k { StartMonotone(l, j, k); }
  }

  lemma {:induction false} HashFramesFacts(c: Config, n: nat)
    requires ValidConfig(c) && (n > 0 ==> InRange(c.layout, n - 1))
    ensures |HashFrames(c, n)| == n
    ensures forall k :: 0 <= k < n ==> InRange(c.layout, k) && HashFrames(c, n)[k] == HashFrameAt(c, k)
    ensures ValidFrames(DownFraming(), HashFrames(c, n))
  {
    if n > 0 {
      if n > 1 { EarlierInRange(c.layout, n - 2, n - 1); }
      HashFramesFacts(c, n - 1);
    }
  }

  lemma BlockFrameValid(c: Config, k: nat)
    requires ValidConfig(c) && InRange(c.layout, k)
    ensures ValidFrame(UpFraming(c.layout), BlockFrameAt(c, k))
  {
  }

  /** Every differing frame belongs to a block whose hashes differ. */
  lemma {:induction false} DiffFramesAreBlocks(c: Config, n: nat)
    requires ValidConfig(c)
    ensures forall i :: 0 <= i < |DiffFrames(c, n)| ==> IsDiffFrame(c, n, DiffFrames(c, n)[i])
  {
    if n > 0 && InRange(c.layout, n - 1) {
      DiffFramesAreBlocks(c, n - 1);
      var fs := DiffFrames(c, n - 1);
      forall i | 0 <= i < |fs|
        ensures IsDiffFrame(c, n, fs[i])
      {
        assert IsDiffFrame(c, n - 1, fs[i]);
        var k: nat :| k < n - 1 && InRange(c.layout, k) && HashesDiffer(c, k) && fs[i] == BlockFrameAt(c, k);
      }
      if HashesDiffer(c, n - 1) {
        assert IsDiffFrame(c, n, BlockFrameAt(c, n - 1));
      }
    }
  }

  lemma {:induction false} DiffFramesValid(c: Config, n: nat)
    requires ValidConfig(c)
    ensures ValidFrames(UpFraming(c.layout), DiffFrames(c, n))
  {
    if n > 0 && InRange(c.layout, n - 1) {
      DiffFramesValid(c, n - 1);
      BlockFrameValid(c, n - 1);
    }
  }

  lemma {:induction false} DiffFramesOrdered(c: Config, n: nat)
    requires ValidConfig(c)
    ensures forall i, j :: 0 <= i < j < |DiffFrames(c, n)| ==> DiffFrames(c, n)[i].v < DiffFrames(c, n)[j].v
  {
    if n > 0 && InRange(c.layout, n - 1) {
      DiffFramesOrdered(c, n - 1);
      DiffFramesAreBlocks(c, n - 1);
      var fs := DiffFrames(c, n - 1);
      forall i | 0 <= i < |fs|
        ensures fs[i].v < Start(c.layout, n - 1)
      {
        DiffFrameBefore(c, n - 1, fs[i]);
      }
    }
  }

  /** Differing frames are valid on the wire and come in increasing offset order. */
  lemma DiffFramesFacts(c: Config, n: nat)
    requires ValidConfig(c)
    ensures ValidFrames(UpFraming(c.layout), DiffFrames(c, n))
    ensures forall i :: 0 <= i < |DiffFrames(c, n)| ==> IsDiffFrame(c, n, DiffFrames(c, n)[i])
    ensures forall i, j :: 0 <= i < j < |DiffFrames(c, n)| ==> DiffFrames(c, n)[i].v < DiffFrames(c, n)[j].v
  {
    DiffFramesValid(c, n);
    DiffFramesAreBlocks(c, n);
    DiffFramesOrdered(c, n);
  }

  lemma DiffFrameBefore(c: Config, n: nat, f: Frame)
    requires ValidConfig(c) && IsDiffFrame(c, n, f)
    ensures f.v < Start(c.layout, n)
  {
    var k: nat :| k < n && InRange(c.layout, k) && HashesDiffer(c, k) && f == BlockFrameAt(c, k);
    StartMonotone(c.layout, k, n);
  }

  ghost predicate IsDiffFrame(c: Config, n: nat, f: Frame)
    requires ValidConfig(c)
  {
    exists k: nat :: k < n && InRange(c.layout, k) && HashesDiffer(c, k) && f == BlockFrameAt(c, k)
  }

  lemma {:induction false} DiffFramesComplete(c: Config, n: nat, k: nat)
    requires ValidConfig(c) && k < n && InRange(c.layout, n - 1) && InRange(c.layout, k) && HashesDiffer(c, k)
    ensures BlockFrameAt(c, k) in DiffFrames(c, n)
  {
    if k < n - 1 {
      EarlierInRange(c.layout, n - 2, n - 1);
      DiffFramesComplete(c, n - 1, k);
    }
  }

  lemma BlockFrameInjective(c: Config, j: nat, k: nat)
    requires ValidConfig(c) && InRange(c.layout, j) && InRange(c.layout, k)
    requires BlockFrameAt(c, j) == BlockFrameAt(c, k)
    ensures j == k
  {
    if j != k { BlocksDisjoint(c.layout, j, k); }
  }

  /** A block is among the first n differing frames exactly when it is one of the first n and its hashes differ. */
  lemma DiffMembership(c: Config, n: nat, k: nat)
    requires ValidConfig(c) && (n > 0 ==> InRange(c.layout, n - 1)) && InRange(c.layout, k)
    ensures BlockFrameAt(c, k) in DiffFrames(c, n) <==> k < n && HashesDiffer(c, k)
  {
    DiffFramesFacts(c, n);
    if BlockFrameAt(c, k) in DiffFrames(c, n) {
      var i :| 0 <= i < |DiffFrames(c, n)| && DiffFrames(c, n)[i] == BlockFrameAt(c, k);
      assert IsDiffFrame(c, n, DiffFrames(c, n)[i]);
      var j: nat :| j < n && InRange(c.layout, j) && HashesDiffer(c, j) && DiffFrames(c, n)[i] == BlockFrameAt(c, j);
      BlockFrameInjective(c, j, k);
    } else if k < n && HashesDiffer(c, k) {
      DiffFramesComplete(c, n, k);
    }
  }

  lemma InitInv(c: Config, s: State)
    requires ValidConfig(c) && Init(c, s)
    ensures Inv(c, s)
  {
    BlockCountIsNumBlocks(c.layout);
    assert Held(s.cli) == [];
    assert QueueFrames(c.layout, []) == [];
    assert Start(c.layout, 0) == 0;
  }
}
