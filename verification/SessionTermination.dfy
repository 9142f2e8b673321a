/** The work measure of a session and the termination of every run. */
module SessionTermination {
  import opened Wire
  import opened Geometry
  import opened HashPipeline
  import opened HashPipelineProofs
  import opened HashPipelineProgress
  import opened Session
  import opened SessionInvariant
  import opened SessionClientSteps
  import opened SessionServerSteps
  import opened SessionTheorems
  import opened SessionProgress

  function Left(n: nat, k: nat): nat {
    if k < n then n - k else 0
  }

  /** A hash frame has at most 8 + 256 bytes; each is written, carried and read. */
  function DownWork(left: nat, out: Option<Bytes>, down: nat, pending: nat): nat {
    Scale(1056, left) + (if out.Some? then 1 + 4 * |out.value| else 0) + 3 * down + 2 * pending
  }

  /** A block frame has at most 8 + bs bytes; each is queued, written, carried, read and put on disk. */
  function UpWork(bs: nat, left: nat, rest: nat, held: nat, up: nat, pending: nat, disk: Option<DiskWrite>): nat {
    Scale(5 * bs + 42, left) + 5 * rest + held + 4 * up + 3 * pending
    + (if disk.Some? then 1 + Left(|disk.value.data|, disk.value.written) else 0)
  }

  function Flags(s: State): nat {
    (if s.cli.finished then 0 else 1) + (if s.cli.remoteDone then 0 else 1)
    + (if s.srv.finished then 0 else 1) + (if s.srv.hashingDone then 0 else 1)
  }

  function DownWorkOf(s: State): nat {
    DownWork(Left(s.cli.endIdx, Count(s.sp)), s.srv.hashOut, |s.down|, |s.cli.pending|)
  }

  function UpWorkOf(c: Config, s: State): nat {
    UpWork(c.layout.bs, Left(s.cli.endIdx, s.cli.blockIdx), |ClientRest(c.layout, s.cli)|, |Held(s.cli)|,
           |s.up|, |s.srv.pending|, s.srv.disk)
  }

  function PipelinesWork(c: Config, n: nat, cp: Pipeline, sp: Pipeline): nat {
    Work(ClientSetup(c), n, cp) + Work(ServerSetup(c), n, sp)
  }

  function SessionWork(c: Config, s: State): nat {
    PipelinesWork(c, s.cli.endIdx, s.cp, s.sp) + DownWorkOf(s) + UpWorkOf(c, s) + Flags(s)
  }

  lemma EndIdxIsNumBlocks(c: Config, s: State)
    requires Inv(c, s)
    ensures s.cli.endIdx == NumBlocks(c.layout)
  {
    BlockCountIsNumBlocks(c.layout);
  }

  // ---------------------------------------------------------------- receivers

  lemma ReturnLowersWork(s: Setup, f: Bytes, p: Pipeline, loan: Loan, idx: nat)
    requires PipelineInv(s, f, p) && idx < Count(p) && InRange(s.layout, idx) && loan == ItemOf(s, f, idx).loan
    requires p.workers[loan.owner].phase.Lent? && p.workers[loan.owner].blockIdx == idx
    ensures Work(s, NumBlocks(s.layout), ReturnLoan(p, loan)) + 1 <= Work(s, NumBlocks(s.layout), p)
  {
    ReturnLoanInv(s, f, p, loan, idx);
    WorkDecreases(s, f, p, Drop(loan.owner), f);
  }

  lemma TakeLowersWork(s: Setup, n: nat, p: Pipeline)
    requires p.slot.Some?
    ensures Work(s, n, DoTake(p)) + 2 == Work(s, n, p)
  {
  }

  // ---------------------------------------------------------------- thread steps

  lemma ClientThreadWork(c: Config, s: State, a: Action)
    requires Inv(c, s) && ThreadAction(a) && !a.Wake? && Enabled(ClientSetup(c), s.cp, a, c.src)
    ensures SessionWork(c, s.(cp := Apply(ClientSetup(c), s.cp, a, c.src))) < SessionWork(c, s)
  {
    hide PipelineInv, LoansOk, ClientOk, ServerOk, DownOk, UpOk, DestOk, Work, UpWork, DownWork;
    EndIdxIsNumBlocks(c, s);
    WorkDecreases(ClientSetup(c), c.src, s.cp, a, c.src);
  }

  lemma ServerThreadWork(c: Config, s: State, a: Action)
    requires Inv(c, s) && ThreadAction(a) && !a.Wake? && Enabled(ServerSetup(c), s.sp, a, s.dest)
    ensures SessionWork(c, s.(sp := Apply(ServerSetup(c), s.sp, a, s.dest))) < SessionWork(c, s)
  {
    ThreadFrame(ServerSetup(c), c.dst0, s.sp, a, s.dest);
    hide PipelineInv, LoansOk, ClientOk, ServerOk, DownOk, UpOk, DestOk, Work, UpWork, DownWork;
    EndIdxIsNumBlocks(c, s);
    WorkDecreases(ServerSetup(c), c.dst0, s.sp, a, s.dest);
  }

  // ---------------------------------------------------------------- client steps

  lemma ClientWritesWork(c: Config, s: State, n: nat)
    requires s.cli.writer.Some? && 0 < n <= |s.cli.writer.value.rest|
    ensures SessionWork(c, DoClientWrites(s, n)) < SessionWork(c, s)
  {
    hide PipelinesWork, DownWork, Held, ClientRest;
    WriterAdvances(c.layout, s.cli, n);
  }

  lemma WriterHoldsLoan(c: Config, s: State)
    requires Inv(c, s) && s.cli.writer.Some?
    ensures HeldLoan(c, s.cp, Queued(s.cli.writer.value.idx, s.cli.writer.value.loan))
  {
    assert HeldLoan(c, s.cp, Held(s.cli)[0]);
  }

  lemma FinishedFlagFalls(l: Layout, cl: Client)
    ensures cl.finished ==> OnBlockWritten(l, cl).finished
    ensures OnBlockWritten(l, cl).endIdx == cl.endIdx && OnBlockWritten(l, cl).blockIdx == cl.blockIdx
    ensures OnBlockWritten(l, cl).pending == cl.pending
  {
  }

  lemma ClientWroteWork(c: Config, s: State)
    requires s.cli.writer.Some? && s.cli.writer.value.rest == [] && Inv(c, s)
    ensures SessionWork(c, DoClientWrote(c, s)) < SessionWork(c, s)
  {
    hide PipelineInv, LoansOk, ServerOk, DownOk, UpOk, DestOk, Work, DownWork, ClientRest, OnBlockWritten;
    ClientWroteSends(c, s.cli);
    FinishedFlagFalls(c.layout, s.cli);
    WriterHoldsLoan(c, s);
    EndIdxIsNumBlocks(c, s);
    ReturnLowersWork(ClientSetup(c), c.src, s.cp, s.cli.writer.value.loan, s.cli.writer.value.idx);
  }

  lemma ClientWriteFailsWork(c: Config, s: State)
    requires s.cli.writer.Some? && Inv(c, s) && ClientEnabled(c, s, ClientWriteFails)
    ensures SessionWork(c, DoClientWriteFails(c, s)) < SessionWork(c, s)
  {
    hide Inv, SessionWork;
    var n := |s.cli.writer.value.rest|;
    if n > 0 {
      ClientWritesInv(c, s, n);
      ClientWritesWork(c, s, n);
      assert s.cli.writer.value.rest[n..] == [] && s.cli.writer.value.rest[..n] == s.cli.writer.value.rest;
      ClientWroteWork(c, DoClientWrites(s, n));
    } else {
      assert s.lost + [] == s.lost;
      ClientWroteWork(c, s);
    }
  }

  lemma ClientHashEndWork(c: Config, s: State)
    requires !s.cli.remoteDone
    ensures SessionWork(c, s.(cli := s.cli.(remoteDone := true))) < SessionWork(c, s)
  {
    hide PipelinesWork, DownWork, UpWork, ClientRest, Held;
    SameSendState(c.layout, s.cli, s.cli.(remoteDone := true));
  }

  lemma ClientReadsWork(c: Config, s: State, n: nat)
    requires Inv(c, s) && ClientEnabled(c, s, ClientReads(n))
    ensures SessionWork(c, DoClientReads(c, s, n)) < SessionWork(c, s)
  {
    hide PipelineInv, LoansOk, ClientOk, ServerOk, DownOk, UpOk, DestOk, ClientRest, Held, Feed, Work, UpWork;
    TakenInRange(c, s);
    HashArrives(c, s.cli.pending, s.cli.remote, s.cli.blockIdx, s.down, DownRest(s), Count(s.sp), n);
    RemoteReadKeeps(c, s.cli, s.cp, Feed(DownFraming(), s.cli.pending, s.down[..n]));
    FedIsLonger(DownFraming(), s.cli.pending, s.down[..n]);
  }

  lemma FedIsLonger(fr: Framing, p: Bytes, chunk: Bytes)
    requires ValidFraming(fr) && Partial(fr, p) && 0 < |chunk| <= Room(fr, p)
    ensures Feed(fr, p, chunk).More? ==> |Feed(fr, p, chunk).pending| == |p| + |chunk|
  {
  }

  lemma ClientWantWork(c: Config, s: State)
    requires Inv(c, s) && !s.cp.st.receiving
    ensures SessionWork(c, s.(cp := DoWant(s.cp))) < SessionWork(c, s)
  {
    hide PipelineInv, LoansOk, ClientOk, ServerOk, DownOk, UpOk, DestOk, Work, UpWork, DownWork;
    EndIdxIsNumBlocks(c, s);
    WantDecreases(ClientSetup(c), c.src, s.cp);
  }

  lemma ClientCloseWork(c: Config, s: State)
    requires Inv(c, s) && !s.cp.st.closed
    ensures SessionWork(c, s.(cp := DoClose(s.cp))) < SessionWork(c, s)
  {
    ServerSizes(c, s);
    hide Inv, PipelineInv, Work, UpWork, DownWork;
    CloseDecreases(ClientSetup(c), s.cli.endIdx, s.cp);
  }

  /** Comparing a block turns its share of the measure into at most one queued frame. */
  lemma CompareUpWork(c: Config, cl: Client, item: Item, up: nat, pending: nat, disk: Option<DiskWrite>)
    requires cl.remote != [] && !cl.over && (cl.writer.None? ==> cl.queue == [])
    requires cl.blockIdx < cl.endIdx && |item.loan.data| <= c.layout.bs
    ensures var cl' := OnLocalHash(c.layout, cl, item);
            UpWork(c.layout.bs, Left(cl'.endIdx, cl'.blockIdx), |ClientRest(c.layout, cl')|, |Held(cl')|, up, pending, disk)
            <= UpWork(c.layout.bs, Left(cl.endIdx, cl.blockIdx), |ClientRest(c.layout, cl)|, |Held(cl)|, up, pending, disk)
  {
    TakeClient(c, cl, item);
  }

  lemma TakeReady(c: Config, s: State)
    requires s.cp.slot.Some? && s.cli.remote != [] && Inv(c, s) && ClientEnabled(c, s, ClientTake)
    ensures ValidConfig(c) && PipelineInv(ClientSetup(c), c.src, s.cp)
    ensures s.cli.blockIdx < s.cli.endIdx == NumBlocks(c.layout)
    ensures |s.cp.slot.value.loan.data| <= c.layout.bs && (s.cli.writer.None? ==> s.cli.queue == [])
  {
    ComparedHash(c, s);
    BlockCountRange(c.layout, s.cli.endIdx, s.cli.blockIdx);
    EndIdxIsNumBlocks(c, s);
  }

  lemma ClientTakeWork(c: Config, s: State)
    requires s.cp.slot.Some? && s.cli.remote != [] && Inv(c, s) && ClientEnabled(c, s, ClientTake)
    ensures SessionWork(c, DoClientTake(c, s)) < SessionWork(c, s)
  {
    hide Inv, PipelineInv, Work, UpWork, DownWork, ClientRest, Held, OnLocalHash, ReturnLoan;
    TakeReady(c, s);
    var item := s.cp.slot.value;
    CompareUpWork(c, s.cli, item, |s.up|, |s.srv.pending|, s.srv.disk);
    TakeClient(c, s.cli, item);
    TakePipelineWork(c, s.cp, item.hash != s.cli.remote[0]);
  }

  lemma TakePipelineWork(c: Config, p: Pipeline, differ: bool)
    requires ValidConfig(c) && PipelineInv(ClientSetup(c), c.src, p) && p.slot.Some?
    ensures var p' := if differ then DoTake(p) else ReturnLoan(DoTake(p), p.slot.value.loan);
            Work(ClientSetup(c), NumBlocks(c.layout), p') + 2 <= Work(ClientSetup(c), NumBlocks(c.layout), p)
  {
    hide Work;
    TakeLowersWork(ClientSetup(c), NumBlocks(c.layout), p);
    if !differ {
      TakeInv(ClientSetup(c), c.src, p);
      ReturnLowersWork(ClientSetup(c), c.src, DoTake(p), p.slot.value.loan, Count(p));
    }
  }

  // ---------------------------------------------------------------- server steps

  lemma ServerDiskWork(c: Config, s: State, n: nat)
    requires s.srv.disk.Some? && 0 < n && s.srv.disk.value.written + n <= |s.srv.disk.value.data|
    ensures SessionWork(c, DoServerDisk(s, n)) < SessionWork(c, s)
  {
    hide PipelinesWork, DownWork, ClientRest, Held;
  }

  lemma ServerReadsWork(c: Config, s: State, n: nat)
    requires Inv(c, s) && ServerEnabled(c, s, ServerReads(n))
    ensures SessionWork(c, DoServerReads(c, s, n)) < SessionWork(c, s)
  {
    hide PipelineInv, LoansOk, ClientOk, ServerOk, DownOk, UpOk, DestOk, Work, DownWork, ClientRest, Held;
    BlockArrives(c, s.srv.pending, s.up, UpRest(c, s), s.frames, s.cli.blockIdx, n);
    var fed := Feed(UpFraming(c.layout), s.srv.pending, s.up[..n]);
    assert fed.Got? ==> |s.srv.pending| + n == 8 + |fed.frame.payload|;
  }

  lemma ServerHashWritesWork(c: Config, s: State, n: nat)
    requires s.srv.hashOut.Some? && 0 < n <= |s.srv.hashOut.value|
    ensures SessionWork(c, DoServerHashWrites(s, n)) < SessionWork(c, s)
  {
    hide PipelinesWork, UpWork, ClientRest, Held;
  }

  lemma ServerSimpleWork(c: Config, s: State, srv: Server)
    requires || (srv == s.srv.(finished := true) && !s.srv.finished)
             || (srv == s.srv.(hashingDone := true) && !s.srv.hashingDone)
             || (srv == s.srv.(hashOut := None) && s.srv.hashOut.Some?)
    ensures SessionWork(c, s.(srv := srv)) < SessionWork(c, s)
  {
    hide PipelinesWork, ClientRest, Held;
  }

  lemma ServerHashLostWork(c: Config, s: State)
    requires s.srv.hashOut.Some?
    ensures SessionWork(c, DoServerHashLost(s)) < SessionWork(c, s)
  {
    hide PipelinesWork, ClientRest, Held;
  }

  lemma ServerDiskEndsWork(c: Config, s: State)
    requires s.srv.disk.Some?
    ensures SessionWork(c, DoServerDiskEnds(s)) < SessionWork(c, s)
  {
    hide PipelinesWork, ClientRest, Held;
  }

  lemma ServerWantWork(c: Config, s: State)
    requires Inv(c, s) && !s.sp.st.receiving
    ensures SessionWork(c, s.(sp := DoWant(s.sp))) < SessionWork(c, s)
  {
    hide PipelineInv, LoansOk, ClientOk, ServerOk, DownOk, UpOk, DestOk, Work, UpWork, DownWork;
    EndIdxIsNumBlocks(c, s);
    WantDecreases(ServerSetup(c), c.dst0, s.sp);
  }

  lemma ServerCloseWork(c: Config, s: State)
    requires Inv(c, s) && !s.sp.st.closed
    ensures SessionWork(c, s.(sp := DoClose(s.sp))) < SessionWork(c, s)
  {
    ServerSizes(c, s);
    hide Inv, PipelineInv, Work, UpWork, DownWork;
    CloseDecreases(ServerSetup(c), s.cli.endIdx, s.sp);
  }

  lemma ServerTakePipelineWork(c: Config, sp: Pipeline)
    requires ValidConfig(c) && PipelineInv(ServerSetup(c), c.dst0, sp) && sp.slot.Some?
    ensures Work(ServerSetup(c), NumBlocks(c.layout), ReturnLoan(DoTake(sp), sp.slot.value.loan)) + 3
            <= Work(ServerSetup(c), NumBlocks(c.layout), sp)
    ensures |WriteString(sp.slot.value.hash)| <= 264
  {
    hide Work;
    TakeLowersWork(ServerSetup(c), NumBlocks(c.layout), sp);
    TakeInv(ServerSetup(c), c.dst0, sp);
    ReturnLowersWork(ServerSetup(c), c.dst0, DoTake(sp), sp.slot.value.loan, Count(sp));
  }

  lemma ServerTakeWork(c: Config, s: State)
    requires s.sp.slot.Some? && s.srv.hashOut.None? && Inv(c, s)
    ensures SessionWork(c, DoServerTake(s)) < SessionWork(c, s)
  {
    hide PipelineInv, LoansOk, ClientOk, DownOk, UpOk, DestOk, Work, UpWork, DoTake, ReturnLoan;
    ServerTakePipeline(c, s.sp);
    ServerTakePipelineWork(c, s.sp);
    EndIdxIsNumBlocks(c, s);
    IndexInRange(c.layout, Count(s.sp));
    assert Left(s.cli.endIdx, Count(s.sp)) == Left(s.cli.endIdx, Count(s.sp) + 1) + 1;
  }

  // ---------------------------------------------------------------- termination

  lemma ClientStepLowersWork(c: Config, s: State, lb: Label)
    requires Inv(c, s) && ClientEnabled(c, s, lb) && !WakeUp(lb)
    ensures SessionWork(c, Step(c, s, lb)) < SessionWork(c, s)
  {
    hide Inv, SessionWork;
    match lb
    case ClientThread(a) => ClientThreadWork(c, s, a);
    case ClientWrites(n) => ClientWritesWork(c, s, n);
    case ClientWrote => ClientWroteWork(c, s);
    case ClientReads(n) => ClientReadsWork(c, s, n);
    case ClientWant => ClientWantWork(c, s);
    case ClientTake => ClientTakeWork(c, s);
    case ClientClose => ClientCloseWork(c, s);
    case ClientWriteFails => ClientWriteFailsWork(c, s);
    case ClientHashEnd => ClientHashEndWork(c, s);
  }

  lemma ServerStepLowersWork(c: Config, s: State, lb: Label)
    requires Inv(c, s) && ServerEnabled(c, s, lb) && !WakeUp(lb) && !lb.Cut?
    ensures SessionWork(c, Step(c, s, lb)) < SessionWork(c, s)
  {
    hide Inv, SessionWork;
    match lb
    case ServerThread(a) => ServerThreadWork(c, s, a);
    case ServerDisk(n) => ServerDiskWork(c, s, n);
    case ServerDiskDone => ServerDiskEndsWork(c, s);
    case ServerDiskFails => ServerDiskEndsWork(c, s);
    case ServerReads(n) => ServerReadsWork(c, s, n);
    case ServerEof => ServerSimpleWork(c, s, s.srv.(finished := true));
    case ServerHashWrites(n) => ServerHashWritesWork(c, s, n);
    case ServerHashWrote => ServerSimpleWork(c, s, s.srv.(hashOut := None));
    case ServerWant => ServerWantWork(c, s);
    case ServerTake => ServerTakeWork(c, s);
    case ServerNone => ServerSimpleWork(c, s, s.srv.(hashingDone := true));
    case ServerClose => ServerCloseWork(c, s);
    case ServerHashLost => ServerHashLostWork(c, s);
  }

  /** Every step but a wake-up and a cut lowers the measure. */
  lemma EveryStepLowersWork(c: Config, s: State, lb: Label)
    requires Inv(c, s) && CanStep(c, s, lb) && !WakeUp(lb) && !lb.Cut?
    ensures SessionWork(c, Step(c, s, lb)) < SessionWork(c, s)
  {
    hide Inv, SessionWork, ClientEnabled, ServerEnabled, Step;
    if ClientEnabled(c, s, lb) {
      ClientStepLowersWork(c, s, lb);
    } else {
      ServerStepLowersWork(c, s, lb);
    }
  }

  lemma WakeUpWork(c: Config, s: State, lb: Label)
    requires Inv(c, s) && CanStep(c, s, lb) && WakeUp(lb)
    ensures SessionWork(c, Step(c, s, lb)) == SessionWork(c, s) + 1
  {
    hide Inv, PipelineInv, Work, UpWork, DownWork;
    if lb.ClientThread? {
      WakeRaisesWorkByOne(ClientSetup(c), s.cp, lb.a, c.src, s.cli.endIdx);
    } else {
      WakeRaisesWorkByOne(ServerSetup(c), s.sp, lb.a, s.dest, s.cli.endIdx);
    }
  }

  function WakeUps(labels: seq<Label>): nat {
    if labels == [] then 0 else (if WakeUp(labels[0]) then 1 else 0) + WakeUps(labels[1..])
  }

  lemma CutWork(c: Config, s: State, k: nat, j: nat)
    requires k <= |s.up| && j <= |s.down|
    ensures SessionWork(c, DoCut(s, k, j)) <= SessionWork(c, s)
  {
    hide PipelinesWork, ClientRest, Held;
  }

  lemma StaysUncut(c: Config, s: State, lb: Label)
    requires ValidConfig(c) && CanStep(c, s, lb)
    ensures Step(c, s, lb).cut == (s.cut || lb.Cut?)
    ensures lb.Cut? ==> !s.cut
  {
  }

  /** What one step does to the measure: wake-ups add one, the cut (at most one) adds nothing, all others lower it. */
  lemma StepWork(c: Config, s: State, lb: Label)
    requires Inv(c, s) && CanStep(c, s, lb)
    ensures !WakeUp(lb) && !lb.Cut? ==> SessionWork(c, Step(c, s, lb)) < SessionWork(c, s)
    ensures WakeUp(lb) ==> SessionWork(c, Step(c, s, lb)) == SessionWork(c, s) + 1
    ensures lb.Cut? ==> SessionWork(c, Step(c, s, lb)) <= SessionWork(c, s)
  {
    hide Inv, SessionWork;
    if lb.Cut? {
      CutWork(c, s, lb.k, lb.j);
    } else if WakeUp(lb) {
      WakeUpWork(c, s, lb);
    } else {
      EveryStepLowersWork(c, s, lb);
    }
  }

  /** The length of every run, interrupted or not, is bounded by the initial work and its spurious wake-ups. */
  lemma {:induction false} RunLengthBounded(c: Config, s: State, labels: seq<Label>)
    requires ValidConfig(c) && Inv(c, s) && Runs(c, s, labels)
    ensures |labels| <= SessionWork(c, s) + 2 * WakeUps(labels) + (if s.cut then 0 else 1)
    decreases |labels|
  {
    hide Inv, SessionWork, CanStep, Step;
    if labels != [] {
      SessionStepInv(c, s, labels[0]);
      StaysUncut(c, s, labels[0]);
      StepWork(c, s, labels[0]);
      RunLengthBounded(c, Step(c, s, labels[0]), labels[1..]);
    }
  }

  lemma HashesBounded(c: Config, s: State)
    requires Inv(c, s)
    ensures HashesReceived(s) <= Count(s.sp) <= s.cli.endIdx
  {
    TakenInRange(c, s);
    if Count(s.sp) > 0 {
      BlockCountRange(c.layout, s.cli.endIdx, Count(s.sp) - 1);
    }
  }

  /** A client that has stopped has finished exactly when every hash has reached it. */
  lemma StoppedClient(c: Config, s: State)
    requires Inv(c, s) && ClientStopped(s)
    ensures s.cli.finished <==> HashesReceived(s) == NumBlocks(c.layout)
  {
    EndIdxIsNumBlocks(c, s);
    HashesBounded(c, s);
  }

  lemma StoppedUncut(c: Config, s: State)
    requires Inv(c, s) && ClientStopped(s) && ServerStopped(s) && !s.cut
    ensures Final(s)
  {
    UncutStops(c, s);
  }

  /** Every session terminates whatever the schedule: no run is longer than its work, its spurious wake-ups and one
      cut allow, and a run that cannot go on has stopped on both sides. The client has then finished exactly when every
      hash has reached it. If the connection was not cut both loops are done and every thread of both sides has exited,
      and without a disk error the destination equals the source exactly when there was no hash collision. */
  lemma SessionTerminates(c: Config, s0: State, labels: seq<Label>)
    requires ValidConfig(c) && Init(c, s0) && Runs(c, s0, labels)
    ensures |labels| <= SessionWork(c, s0) + 2 * WakeUps(labels) + 1
    ensures var s := Exec(c, s0, labels);
            || (exists lb :: Effective(lb) && CanStep(c, s, lb))
            || (&& ClientStopped(s) && ServerStopped(s)
                && (s.cli.finished <==> HashesReceived(s) == NumBlocks(c.layout))
                && (!s.cut ==> Final(s))
                && (!s.cut && NoDiskErrors(labels) ==> (s.dest == c.src <==> NoCollision(c))))
  {
    hide SessionWork, Inv;
    InitInv(c, s0);
    RunInv(c, s0, labels);
    RunLengthBounded(c, s0, labels);
    var s := Exec(c, s0, labels);
    if ClientStopped(s) && ServerStopped(s) {
      StoppedClient(c, s);
      if !s.cut {
        StoppedUncut(c, s);
        if NoDiskErrors(labels) {
          EndToEnd(c, s0, labels);
        }
      }
    } else {
      var lb := DeadlockFreedom(c, s);
    }
  }
}
