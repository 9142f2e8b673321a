/** Every step of the server's side, and a cut of the connection, keeps the session invariant. */
module SessionServerSteps {
  import opened Wire
  import opened Geometry
  import opened HashPipeline
  import opened HashPipelineProofs
  import opened HashPipelineProgress
  import opened Session
  import opened SessionInvariant
  import opened SessionClientSteps

  // ---------------------------------------------------------------- hash before write

  /** Blocks that the server has not yet taken from its pipeline still hold their original bytes. */
  lemma NotYetWritten(c: Config, dest: Bytes, frames: seq<Frame>, landed: seq<nat>, disk: Option<DiskWrite>, filePos: nat, compared: nat, taken: nat)
    requires ValidConfig(c) && DestOk(c, dest, frames, landed, disk, filePos)
    requires frames <= DiffFrames(c, compared) && compared <= taken
    requires compared > 0 ==> InRange(c.layout, compared - 1)
    ensures FileAgrees(ServerSetup(c), c.dst0, taken, dest)
  {
    forall k: nat | taken <= k && InRange(c.layout, k)
      ensures AgreeOnBlock(c.layout, dest, c.dst0, k)
    {
      DiffMembership(c, compared, k);
      assert BlockFrameAt(c, k) !in frames;
    }
  }

  lemma ServerFileAgrees(c: Config, s: State)
    requires Inv(c, s)
    ensures FileAgrees(ServerSetup(c), c.dst0, Count(s.sp), s.dest) && |s.dest| == c.layout.size
  {
    TakenInRange(c, s);
    NotYetWritten(c, s.dest, s.frames, s.landed, s.srv.disk, s.srv.filePos, s.cli.blockIdx, Count(s.sp));
  }

  lemma ServerThreadInv(c: Config, s: State, a: Action)
    requires Inv(c, s) && ThreadAction(a) && Enabled(ServerSetup(c), s.sp, a, s.dest)
    ensures Inv(c, s.(sp := Apply(ServerSetup(c), s.sp, a, s.dest)))
  {
    hide PipelineInv, LoansOk, ClientOk, DownOk, UpOk, DestOk, Enabled, Apply, FileAgrees, ReadsAgree;
    ServerFileAgrees(c, s);
    FileAgreesForReads(ServerSetup(c), c.dst0, s.sp, a, s.dest);
    StepInv(ServerSetup(c), c.dst0, s.sp, a, s.dest);
    ThreadFrame(ServerSetup(c), c.dst0, s.sp, a, s.dest);
  }

  // ---------------------------------------------------------------- hash emission

  lemma ServerWantInv(c: Config, s: State)
    requires Inv(c, s) && !s.sp.st.receiving
    ensures Inv(c, s.(sp := DoWant(s.sp)))
  {
    hide PipelineInv, LoansOk, ClientOk, DownOk, UpOk, DestOk;
    WantInv(ServerSetup(c), c.dst0, s.sp);
  }

  lemma ServerCloseInv(c: Config, s: State)
    requires Inv(c, s) && s.srv.finished
    ensures Inv(c, s.(sp := DoClose(s.sp)))
  {
    hide PipelineInv, LoansOk, ClientOk, DownOk, UpOk, DestOk;
    CloseInv(ServerSetup(c), c.dst0, s.sp);
  }

  /** The server drops the loan as soon as it has the hash. */
  lemma ServerTakePipeline(c: Config, sp: Pipeline)
    requires ValidConfig(c) && PipelineInv(ServerSetup(c), c.dst0, sp) && OnlySlotLent(sp) && sp.slot.Some?
    ensures var sp' := ReturnLoan(DoTake(sp), sp.slot.value.loan);
            && PipelineInv(ServerSetup(c), c.dst0, sp') && OnlySlotLent(sp')
            && Count(sp') == Count(sp) + 1 && sp'.st == DoTake(sp).st && sp'.failed == sp.failed
    ensures InRange(c.layout, Count(sp))
    ensures sp.slot.value.hash == HashFrameAt(c, Count(sp)).payload
  {
    TakeInv(ServerSetup(c), c.dst0, sp);
    ReturnLoanInv(ServerSetup(c), c.dst0, DoTake(sp), sp.slot.value.loan, Count(sp));
    var sp' := ReturnLoan(DoTake(sp), sp.slot.value.loan);
    forall w | 0 <= w < |sp'.workers|
      ensures !sp'.workers[w].phase.Lent?
    {
      assert WorkerOk(ServerSetup(c), c.dst0, sp.workers[w], w, Count(sp), Sent(sp), sp.st);
    }
  }

  lemma HashTaken(c: Config, pending: Bytes, remote: seq<Bytes>, compared: nat, down: Bytes, rest: Bytes, taken: nat)
    requires ValidConfig(c) && DownOk(c, pending, remote, compared, down, rest, taken) && InRange(c.layout, taken)
    ensures DownOk(c, pending, remote, compared, down, rest + Encode(HashFrameAt(c, taken)), taken + 1)
  {
    var m := compared + |remote|;
    var fs := HashFrames(c, taken)[m..];
    HashFramesFacts(c, taken + 1);
    FlowAppend(DownFraming(), pending, down, rest, fs, HashFrameAt(c, taken));
    assert HashFrames(c, taken + 1)[m..] == fs + [HashFrameAt(c, taken)];
  }

  lemma ServerTakeInv(c: Config, s: State)
    requires s.sp.slot.Some? && s.srv.hashOut.None? && !s.srv.hashingDone && Inv(c, s)
    ensures Inv(c, DoServerTake(s))
  {
    hide PipelineInv, LoansOk, ClientOk, DownOk, UpOk, DestOk;
    ServerTakePipeline(c, s.sp);
    HashTaken(c, s.cli.pending, s.cli.remote, s.cli.blockIdx, s.down, DownRest(s), Count(s.sp));
    assert DownRest(s) == s.downLost;
  }

  lemma ServerNoneInv(c: Config, s: State)
    requires Inv(c, s) && ServerEnabled(c, s, ServerNone)
    ensures Inv(c, s.(srv := s.srv.(hashingDone := true)))
  {
    hide LoansOk, ClientOk, DownOk, UpOk, DestOk, PipelineInv, OnlySlotLent;
    NoneMeansAllTaken(ServerSetup(c), c.dst0, s.sp);
  }

  lemma HashSent(c: Config, pending: Bytes, remote: seq<Bytes>, compared: nat, down: Bytes, lost: Bytes, rest: Bytes, taken: nat, n: nat)
    requires ValidConfig(c) && DownOk(c, pending, remote, compared, down, lost + rest, taken) && n <= |rest|
    ensures DownOk(c, pending, remote, compared, down, (lost + rest[..n]) + rest[n..], taken)
    ensures lost == [] && |down| + n <= c.downCap ==>
              DownOk(c, pending, remote, compared, down + rest[..n], lost + rest[n..], taken)
  {
    assert (lost + rest[..n]) + rest[n..] == lost + rest;
    if lost == [] {
      assert lost + rest == rest && lost + rest[n..] == rest[n..];
      FlowWrite(DownFraming(), pending, down, rest, HashFrames(c, taken)[compared + |remote|..], n);
    }
  }

  lemma ServerHashWritesInv(c: Config, s: State, n: nat)
    requires s.srv.hashOut.Some? && n <= |s.srv.hashOut.value| && Accepts(s.cut, |s.down|, n, c.downCap) && Inv(c, s)
    ensures Inv(c, DoServerHashWrites(s, n))
  {
    hide PipelineInv, LoansOk, ClientOk, DownOk, UpOk, DestOk;
    HashSent(c, s.cli.pending, s.cli.remote, s.cli.blockIdx, s.down, s.downLost, HashRest(s.srv), Count(s.sp), n);
  }

  lemma ServerHashWroteInv(c: Config, s: State)
    requires Inv(c, s) && ServerEnabled(c, s, ServerHashWrote)
    ensures Inv(c, s.(srv := s.srv.(hashOut := None)))
  {
    hide PipelineInv, LoansOk, ClientOk, DownOk, UpOk, DestOk;
  }

  lemma ServerHashLostInv(c: Config, s: State)
    requires s.srv.hashOut.Some? && s.cut && Inv(c, s)
    ensures Inv(c, DoServerHashLost(s))
  {
    hide PipelineInv, LoansOk, ClientOk, DownOk, UpOk, DestOk;
    assert DownRest(DoServerHashLost(s)) == DownRest(s);
  }

  // ---------------------------------------------------------------- writing to disk

  /** Writing inside block k leaves every other block alone. */
  lemma WriteInsideBlock(c: Config, dest: Bytes, k: nat, at: nat, data: Bytes, j: nat)
    requires ValidConfig(c) && |dest| == c.layout.size && InRange(c.layout, k) && InRange(c.layout, j) && j != k
    requires Start(c.layout, k) <= at && at + |data| <= End(c.layout, k)
    ensures |WriteAt(dest, at, data)| == |dest|
    ensures Agree(WriteAt(dest, at, data), dest, Start(c.layout, j), End(c.layout, j))
  {
    BlocksDisjoint(c.layout, j, k);
  }

  lemma AgreementCarries(c: Config, dest: Bytes, dest': Bytes, j: nat)
    requires ValidConfig(c) && |dest| == |dest'| == c.layout.size && InRange(c.layout, j)
    requires Agree(dest', dest, Start(c.layout, j), End(c.layout, j))
    ensures AgreeOnBlock(c.layout, dest, c.dst0, j) ==> AgreeOnBlock(c.layout, dest', c.dst0, j)
    ensures forall n :: SplitAt(c, dest, j, n) ==> SplitAt(c, dest', j, n)
  {
  }

  lemma WriteAdvances(c: Config, dest: Bytes, f: Frame, d: DiskWrite, filePos: nat, k: nat, n: nat)
    requires ValidConfig(c) && |dest| == c.layout.size && Writing(c, dest, f, d, filePos, k)
    requires d.written + n <= |d.data|
    ensures var data := d.data[d.written..d.written + n];
            && filePos + n <= End(c.layout, k) && data == c.src[filePos..filePos + n]
            && Writing(c, WriteAt(dest, filePos, data), f, d.(written := d.written + n), filePos + n, k)
  {
    hide SplitAt, WriteAt, Start;
    SubBlock(c.src, Start(c.layout, k), End(c.layout, k), d.written, n);
    SplitAdvances(c, dest, k, d.written, n);
  }

  lemma SubBlock(f: Bytes, a: nat, b: nat, i: nat, n: nat)
    requires a + i + n <= b <= |f|
    ensures f[a..b][i..i + n] == f[a + i..a + i + n]
  {
    var x, y := f[a..b][i..i + n], f[a + i..a + i + n];
    forall j | 0 <= j < |x|
      ensures x[j] == y[j]
    {
      assert x[j] == f[a..b][i + j] == f[a + i + j];
    }
  }

  /** Writing the next n source bytes of block k moves its split forward. */
  lemma SplitAdvances(c: Config, dest: Bytes, k: nat, i: nat, n: nat)
    requires ValidConfig(c) && |dest| == c.layout.size && InRange(c.layout, k) && SplitAt(c, dest, k, i)
    requires Start(c.layout, k) + i + n <= End(c.layout, k)
    ensures var at := Start(c.layout, k) + i;
            var dest' := WriteAt(dest, at, c.src[at..at + n]);
            |dest'| == c.layout.size && SplitAt(c, dest', k, i + n)
  {
  }

  /** A change inside the last frame's block keeps what earlier frames and untouched blocks hold. */
  lemma OthersKeep(c: Config, dest: Bytes, dest': Bytes, frames: seq<Frame>, landed: seq<nat>, k: nat)
    requires ValidConfig(c) && |dest| == |dest'| == c.layout.size && InRange(c.layout, k)
    requires frames != [] && Distinct(frames) && frames[|frames| - 1] == BlockFrameAt(c, k) && |landed| < |frames|
    requires forall j: nat :: InRange(c.layout, j) && j != k ==> Agree(dest', dest, Start(c.layout, j), End(c.layout, j))
    requires forall j: nat :: InRange(c.layout, j) && BlockFrameAt(c, j) !in frames ==> AgreeOnBlock(c.layout, dest, c.dst0, j)
    requires forall i :: 0 <= i < |landed| ==> Landed(c, dest, frames[i], landed[i])
    ensures forall j: nat :: InRange(c.layout, j) && BlockFrameAt(c, j) !in frames ==> AgreeOnBlock(c.layout, dest', c.dst0, j)
    ensures forall i :: 0 <= i < |landed| ==> Landed(c, dest', frames[i], landed[i])
  {
    forall j: nat | InRange(c.layout, j) && BlockFrameAt(c, j) !in frames
      ensures AgreeOnBlock(c.layout, dest', c.dst0, j)
    {
      AgreementCarries(c, dest, dest', j);
    }
    forall i, j: nat | 0 <= i < |landed| && InRange(c.layout, j) && BlockFrameAt(c, j) == frames[i]
      ensures SplitAt(c, dest', j, landed[i])
    {
      assert Landed(c, dest, frames[i], landed[i]);
      AgreementCarries(c, dest, dest', j);
    }
  }

  lemma DiskKeepsDest(c: Config, dest: Bytes, frames: seq<Frame>, landed: seq<nat>, d: DiskWrite, filePos: nat, n: nat)
    requires ValidConfig(c) && DestOk(c, dest, frames, landed, Some(d), filePos) && d.written + n <= |d.data|
    ensures filePos + n <= |dest|
    ensures DestOk(c, WriteAt(dest, filePos, d.data[d.written..d.written + n]), frames, landed,
                   Some(d.(written := d.written + n)), filePos + n)
  {
    var f := frames[|frames| - 1];
    var k: nat :| Writing(c, dest, f, d, filePos, k);
    WriteAdvances(c, dest, f, d, filePos, k, n);
    var data := d.data[d.written..d.written + n];
    var dest' := WriteAt(dest, filePos, data);
    hide SplitAt, Landed, WriteAt;
    forall j: nat | InRange(c.layout, j) && j != k
      ensures Agree(dest', dest, Start(c.layout, j), End(c.layout, j))
    {
      WriteInsideBlock(c, dest, k, filePos, data, j);
    }
    OthersKeep(c, dest, dest', frames, landed, k);
  }

  lemma ServerDiskInv(c: Config, s: State, n: nat)
    requires Inv(c, s) && ServerEnabled(c, s, ServerDisk(n))
    ensures Inv(c, DoServerDisk(s, n))
  {
    hide PipelineInv, LoansOk, ClientOk, DownOk, UpOk, DestOk;
    DiskKeepsDest(c, s.dest, s.frames, s.landed, s.srv.disk.value, s.srv.filePos, n);
  }

  /** When a disk write ends, completed or not, what it wrote is what stays of the block. */
  lemma DiskEndKeepsDest(c: Config, dest: Bytes, frames: seq<Frame>, landed: seq<nat>, d: DiskWrite, filePos: nat)
    requires ValidConfig(c) && DestOk(c, dest, frames, landed, Some(d), filePos)
    ensures DestOk(c, dest, frames, landed + [d.written], None, filePos)
  {
    var last := |frames| - 1;
    var k: nat :| Writing(c, dest, frames[last], d, filePos, k);
    hide SplitAt;
    forall j: nat | InRange(c.layout, j) && BlockFrameAt(c, j) == frames[last]
      ensures SplitAt(c, dest, j, d.written)
    {
      BlockFrameInjective(c, j, k);
    }
  }

  lemma ServerDiskEndsInv(c: Config, s: State)
    requires Inv(c, s) && s.srv.disk.Some?
    ensures Inv(c, DoServerDiskEnds(s))
  {
    hide PipelineInv, LoansOk, ClientOk, DownOk, UpOk, DestOk;
    DiskEndKeepsDest(c, s.dest, s.frames, s.landed, s.srv.disk.value, s.srv.filePos);
  }

  // ---------------------------------------------------------------- reading blocks

  lemma BlockArrives(c: Config, pending: Bytes, up: Bytes, rest: Bytes, frames: seq<Frame>, compared: nat, n: nat)
    requires ValidConfig(c) && UpOk(c, pending, up, rest, frames, compared)
    requires 0 < n <= |up| && Partial(UpFraming(c.layout), pending) && n <= Room(UpFraming(c.layout), pending)
    ensures var fed := Feed(UpFraming(c.layout), pending, up[..n]);
            && !fed.Reject?
            && (fed.More? ==> UpOk(c, fed.pending, up[n..], rest, frames, compared))
            && (fed.Got? ==>
                  && UpOk(c, [], up[n..], rest, frames + [fed.frame], compared)
                  && |frames| < |DiffFrames(c, compared)| && fed.frame == DiffFrames(c, compared)[|frames|])
  {
    var fs := DiffFrames(c, compared)[|frames|..];
    FlowRead(UpFraming(c.layout), pending, up, rest, fs, n);
    assert fs[1..] == DiffFrames(c, compared)[|frames| + 1..];
  }

  lemma NewFrame(all: seq<Frame>, frames: seq<Frame>, f: Frame)
    requires frames + [f] <= all && forall i, j :: 0 <= i < j < |all| ==> all[i].v < all[j].v
    ensures f !in frames && Distinct(frames + [f])
  {
    var fs := frames + [f];
    assert forall i :: 0 <= i < |fs| ==> fs[i] == all[i];
    assert fs[|frames|] == f;
    assert forall i :: 0 <= i < |frames| ==> frames[i] == fs[i];
  }

  /** A frame that has arrived whole starts its disk write in front of the block's original bytes. */
  lemma BlockStartsWriting(c: Config, dest: Bytes, frames: seq<Frame>, landed: seq<nat>, filePos: nat, f: Frame, compared: nat)
    requires ValidConfig(c) && DestOk(c, dest, frames, landed, None, filePos)
    requires frames + [f] <= DiffFrames(c, compared)
    ensures DestOk(c, dest, frames + [f], landed, Some(DiskWrite(f.payload, 0)), f.v)
  {
    DiffFramesFacts(c, compared);
    var all := DiffFrames(c, compared);
    assert all[|frames|] == (frames + [f])[|frames|];
    assert IsDiffFrame(c, compared, all[|frames|]);
    var k: nat :| k < compared && InRange(c.layout, k) && f == BlockFrameAt(c, k);
    hide DiffFrames, IsDiffFrame, HashesDiffer, Landed;
    NewFrame(all, frames, f);
    assert AgreeOnBlock(c.layout, dest, c.dst0, k);
    assert (frames + [f])[|frames|] == f;
    assert Writing(c, dest, f, DiskWrite(f.payload, 0), f.v, k);
    assert OnDisk(frames + [f], Some(DiskWrite(f.payload, 0))) == frames;
  }

  lemma FramesArePrefix(c: Config, s: State)
    requires Inv(c, s)
    ensures s.frames <= DiffFrames(c, s.cli.blockIdx)
  {
  }

  lemma ServerReadsInv(c: Config, s: State, n: nat)
    requires Inv(c, s) && ServerEnabled(c, s, ServerReads(n))
    ensures Inv(c, DoServerReads(c, s, n))
  {
    hide PipelineInv, LoansOk, ClientOk, DownOk, UpOk, DestOk, Feed;
    FramesArePrefix(c, s);
    BlockArrives(c, s.srv.pending, s.up, UpRest(c, s), s.frames, s.cli.blockIdx, n);
    var fed := Feed(UpFraming(c.layout), s.srv.pending, s.up[..n]);
    if fed.Got? {
      assert s.frames + [fed.frame] <= DiffFrames(c, s.cli.blockIdx);
      BlockStartsWriting(c, s.dest, s.frames, s.landed, s.srv.filePos, fed.frame, s.cli.blockIdx);
    }
  }

  lemma AllReceived(c: Config, cl: Client, cp: Pipeline, pending: Bytes, frames: seq<Frame>)
    requires ValidConfig(c) && ClientOk(c, cl, cp) && cl.finished
    requires UpOk(c, pending, [], [] + ClientRest(c.layout, cl), frames, cl.blockIdx)
    ensures frames == DiffFrames(c, cl.endIdx) && cl.blockIdx == cl.endIdx
  {
    assert QueueFrames(c.layout, cl.queue) == [];
    assert [] + ClientRest(c.layout, cl) == [];
    FlowDrained(UpFraming(c.layout), pending, DiffFrames(c, cl.blockIdx)[|frames|..]);
  }

  /** End of stream: if the connection was not cut, every differing block has been received. */
  lemma ServerEofInv(c: Config, s: State)
    requires Inv(c, s) && ServerEnabled(c, s, ServerEof)
    ensures Inv(c, s.(srv := s.srv.(finished := true)))
  {
    hide PipelineInv, LoansOk, ClientOk, DownOk, UpOk, DestOk;
    if !s.cut {
      AllReceived(c, s.cli, s.cp, s.srv.pending, s.frames);
    }
  }

  lemma CutUp(c: Config, pending: Bytes, up: Bytes, lost: Bytes, rest: Bytes, frames: seq<Frame>, compared: nat, k: nat)
    requires ValidConfig(c) && UpOk(c, pending, up, lost + rest, frames, compared) && k <= |up| && lost == []
    ensures UpOk(c, pending, up[..k], (lost + up[k..]) + rest, frames, compared)
  {
    assert up[..k] + ((lost + up[k..]) + rest) == up + (lost + rest);
    FlowRegroup(UpFraming(c.layout), pending, up, lost + rest, up[..k], (lost + up[k..]) + rest,
                DiffFrames(c, compared)[|frames|..]);
  }

  lemma CutDown(c: Config, pending: Bytes, remote: seq<Bytes>, compared: nat, down: Bytes, lost: Bytes, rest: Bytes, taken: nat, j: nat)
    requires ValidConfig(c) && DownOk(c, pending, remote, compared, down, lost + rest, taken) && j <= |down| && lost == []
    ensures DownOk(c, pending, remote, compared, down[..j], (lost + down[j..]) + rest, taken)
  {
    assert down[..j] + ((lost + down[j..]) + rest) == down + (lost + rest);
    FlowRegroup(DownFraming(), pending, down, lost + rest, down[..j], (lost + down[j..]) + rest,
                HashFrames(c, taken)[compared + |remote|..]);
  }

  lemma CutInv(c: Config, s: State, k: nat, j: nat)
    requires !s.cut && k <= |s.up| && j <= |s.down| && Inv(c, s)
    ensures Inv(c, DoCut(s, k, j))
  {
    hide PipelineInv, LoansOk, ClientOk, DownOk, UpOk, DestOk, ClientRest;
    CutUp(c, s.srv.pending, s.up, s.lost, ClientRest(c.layout, s.cli), s.frames, s.cli.blockIdx, k);
    CutDown(c, s.cli.pending, s.cli.remote, s.cli.blockIdx, s.down, s.downLost, HashRest(s.srv), Count(s.sp), j);
  }

  // ---------------------------------------------------------------- every step

  lemma ClientStepInv(c: Config, s: State, lb: Label)
    requires ValidConfig(c) && Inv(c, s) && ClientEnabled(c, s, lb)
    ensures Inv(c, Step(c, s, lb))
  {
    hide Inv;
    match lb
    case ClientThread(a) => ClientThreadInv(c, s, a);
    case ClientWrites(n) => ClientWritesInv(c, s, n);
    case ClientWrote => ClientWroteInv(c, s);
    case ClientReads(n) => ClientReadsInv(c, s, n);
    case ClientWant => ClientWantInv(c, s);
    case ClientTake => ClientTakeInv(c, s);
    case ClientClose => ClientCloseInv(c, s);
    case ClientWriteFails => ClientWriteFailsInv(c, s);
    case ClientHashEnd => ClientHashEndInv(c, s);
  }

  lemma ServerStepInv(c: Config, s: State, lb: Label)
    requires ValidConfig(c) && Inv(c, s) && ServerEnabled(c, s, lb)
    ensures Inv(c, Step(c, s, lb))
  {
    hide Inv;
    match lb
    case ServerThread(a) => ServerThreadInv(c, s, a);
    case ServerDisk(n) => ServerDiskInv(c, s, n);
    case ServerDiskDone => ServerDiskEndsInv(c, s);
    case ServerDiskFails => ServerDiskEndsInv(c, s);
    case ServerReads(n) => ServerReadsInv(c, s, n);
    case ServerEof => ServerEofInv(c, s);
    case ServerHashWrites(n) => ServerHashWritesInv(c, s, n);
    case ServerHashWrote => ServerHashWroteInv(c, s);
    case ServerWant => ServerWantInv(c, s);
    case ServerTake => ServerTakeInv(c, s);
    case ServerNone => ServerNoneInv(c, s);
    case ServerClose => ServerCloseInv(c, s);
    case Cut(k, j) => CutInv(c, s, k, j);
    case ServerHashLost => ServerHashLostInv(c, s);
  }

  /** Every step of every participant keeps the invariant. */
  lemma SessionStepInv(c: Config, s: State, lb: Label)
    requires ValidConfig(c) && Inv(c, s) && CanStep(c, s, lb)
    ensures Inv(c, Step(c, s, lb))
  {
    hide Inv, ClientEnabled, ServerEnabled, Step;
    if ClientEnabled(c, s, lb) {
      ClientStepInv(c, s, lb);
    } else {
      ServerStepInv(c, s, lb);
    }
  }

  /** Every reachable state satisfies the invariant. */
  lemma {:induction false} RunInv(c: Config, s: State, labels: seq<Label>)
    requires Inv(c, s) && Runs(c, s, labels)
    ensures Inv(c, Exec(c, s, labels))
    decreases |labels|
  {
    if labels != [] {
      SessionStepInv(c, s, labels[0]);
      RunInv(c, Step(c, s, labels[0]), labels[1..]);
    }
  }
}
