/** Deadlock freedom: which step is enabled in every state that is not final, for transport directions of any capacity. */
module SessionProgress {
  import opened Wire
  import opened Geometry
  import opened HashPipeline
  import opened HashPipelineProgress
  import opened Session
  import opened SessionInvariant

  predicate WakeUp(lb: Label) {
    (lb.ClientThread? || lb.ServerThread?) && lb.a.Wake?
  }

  /** A step of the programs themselves: neither a spurious wake-up nor a fault of connection or disk. */
  predicate Effective(lb: Label) {
    !WakeUp(lb) && !lb.Cut? && !lb.ServerDiskFails?
  }

  /** The client waits for hashes that will never come: of its branches only the progress timer is left, which keeps
      `else => break` from being reached. */
  predicate Starved(s: State) {
    !s.cli.finished && s.cli.remoteDone && s.cli.remote == [] && !s.cli.over && s.cli.writer.None?
  }

  predicate ClientStopped(s: State) {
    Starved(s) || (s.cli.finished && s.cp.st.closed && AllExited(s.cp))
  }

  /** The server has left its loop, and its joins are complete or wait for the item in the slot. */
  predicate ServerStopped(s: State) {
    s.srv.finished && s.sp.st.closed && (AllExited(s.sp) || s.sp.slot.Some?)
  }

  // ---------------------------------------------------------------- deadlock freedom

  /** A lent buffer of the client is always in the slot, the queue or the writer, so with an idle writer the
      pipeline can bring the next block. */
  lemma ClientPipelineProgress(c: Config, s: State) returns (lb: Label)
    requires Inv(c, s) && !s.cli.finished && s.cli.writer.None? && !s.cli.over && s.cli.remote != []
    ensures CanStep(c, s, lb) && Effective(lb)
  {
    hide Inv, PipelineInv, Enabled;
    ClientCanBring(c, s);
    var a := NextBlockProgress(ClientSetup(c), c.src, s.cp, c.src);
    WantAndTake(ClientSetup(c), s.cp, a, c.src);
    lb := if a.Want? then ClientWant else if a.Take? then ClientTake else ClientThread(a);
  }

  lemma WantAndTake(s: Setup, p: Pipeline, a: Action, file: Bytes)
    requires Enabled(s, p, a, file)
    ensures a.Want? ==> !p.st.receiving
    ensures a.Take? ==> p.st.receiving && p.slot.Some?
  {
  }

  lemma ClientCanBring(c: Config, s: State)
    requires Inv(c, s) && !s.cli.finished && s.cli.writer.None? && !s.cli.over
    ensures ValidConfig(c) && PipelineInv(ClientSetup(c), c.src, s.cp) && !s.cp.st.closed
    ensures InRange(c.layout, Count(s.cp)) && |s.cp.workers| == c.clientWorkers
    ensures s.cp.slot.None? ==> !s.cp.workers[Owner(c.clientWorkers, Count(s.cp))].phase.Lent?
  {
    hide DownOk, UpOk, DestOk;
    assert Held(s.cli) == [];
    BlockCountRange(c.layout, s.cli.endIdx, s.cli.blockIdx);
    IdleWriterNoLoan(c, s.cp, Owner(c.clientWorkers, Count(s.cp)));
  }

  lemma IdleWriterNoLoan(c: Config, cp: Pipeline, w: nat)
    requires LoansOk(c, [], cp) && w < |cp.workers|
    ensures cp.workers[w].phase.Lent? ==> cp.slot.Some?
  {
  }

  lemma ServerPipelineProgress(c: Config, s: State) returns (lb: Label)
    requires Inv(c, s) && !s.srv.finished && s.srv.hashOut.None? && InRange(c.layout, Count(s.sp))
    ensures CanStep(c, s, lb) && Effective(lb) && BringsHash(lb)
  {
    hide PipelineInv, LoansOk, ClientOk, DownOk, UpOk, DestOk;
    var ss := ServerSetup(c);
    assert |s.sp.workers| == ss.w && |s.dest| == c.layout.size by { ServerSizes(c, s); }
    var a := NextBlockProgress(ss, c.dst0, s.sp, s.dest);
    lb := if a.Want? then ServerWant else if a.Take? then ServerTake else ServerThread(a);
  }

  lemma ServerSizes(c: Config, s: State)
    requires Inv(c, s)
    ensures |s.sp.workers| == c.serverWorkers && |s.cp.workers| == c.clientWorkers && |s.dest| == c.layout.size
  {
  }

  /** The server always drains blocks, finishes its disk write, or sees the end of the stream. */
  lemma ServerDrains(c: Config, s: State) returns (lb: Label)
    requires Inv(c, s) && !s.srv.finished && (s.srv.disk.Some? || s.up != [] || s.upClosed)
    ensures CanStep(c, s, lb) && Effective(lb)
  {
    hide Inv;
    UpPartial(c, s);
    if s.srv.disk.Some? {
      DiskWithinData(c, s);
      var d := s.srv.disk.value;
      if d.written < |d.data| {
        lb := ServerDisk(1);
      } else {
        lb := ServerDiskDone;
      }
    } else if s.up != [] {
      lb := ServerReads(1);
    } else {
      lb := ServerEof;
    }
  }

  lemma DiskWithinData(c: Config, s: State)
    requires Inv(c, s) && s.srv.disk.Some?
    ensures var d := s.srv.disk.value;
            d.written <= |d.data| && s.srv.filePos + (|d.data| - d.written) <= |s.dest|
  {
    assert WritingSome(c, s.dest, s.frames[|s.frames| - 1], s.srv.disk.value, s.srv.filePos);
  }

  lemma UpPartial(c: Config, s: State)
    requires Inv(c, s)
    ensures ValidConfig(c) && Partial(UpFraming(c.layout), s.srv.pending)
    ensures Partial(DownFraming(), s.cli.pending)
  {
  }

  /** The steps that bring a hash from the server's pipeline to the client. */
  predicate BringsHash(lb: Label) {
    || lb.ClientReads? || lb.ServerHashWrites? || lb.ServerHashWrote?
    || lb.ServerWant? || lb.ServerTake? || lb.ServerThread?
  }

  /** While hashes are missing, one can be read, sent or produced. */
  lemma HashProgress(c: Config, s: State) returns (lb: Label)
    requires Inv(c, s) && !s.cut && !s.cli.finished && HashesReceived(s) < s.cli.endIdx
    ensures CanStep(c, s, lb) && Effective(lb) && BringsHash(lb)
  {
    hide PipelineInv, LoansOk, ClientOk, UpOk, DestOk, DownOk, ServerOk;
    UpPartial(c, s);
    assert !s.cli.remoteDone && !s.srv.finished;
    if s.down != [] {
      lb := ClientReads(1);
    } else if s.srv.hashOut.Some? {
      lb := if s.srv.hashOut.value == [] then ServerHashWrote else ServerHashWrites(1);
    } else {
      AllHashesReceived(c, s);
      lb := ServerPipelineProgress(c, s);
    }
  }

  lemma AllHashesReceived(c: Config, s: State)
    requires Inv(c, s) && !s.cut && HashesReceived(s) < s.cli.endIdx && s.down == [] && s.srv.hashOut.None?
    ensures InRange(c.layout, Count(s.sp))
  {
    hide PipelineInv, LoansOk, UpOk, DestOk, DownOk, ServerOk;
    assert DownRest(s) == [];
    NoHashInFlight(c, s.cli.pending, s.cli.remote, s.cli.blockIdx, Count(s.sp));
    BlockCountRange(c.layout, s.cli.endIdx, HashesReceived(s));
  }

  lemma NoHashInFlight(c: Config, pending: Bytes, remote: seq<Bytes>, compared: nat, taken: nat)
    requires ValidConfig(c) && DownOk(c, pending, remote, compared, [], [], taken)
    ensures taken == compared + |remote|
  {
    FlowDrained(DownFraming(), pending, HashFrames(c, taken)[compared + |remote|..]);
  }

  lemma IdleClientCompares(c: Config, s: State)
    requires Inv(c, s) && !s.cli.finished && s.cli.writer.None?
    ensures !s.cli.over && s.cli.blockIdx < s.cli.endIdx
  {
  }

  /** A running client that is not starved: its write, the server draining it, its pipeline, or the next hash. */
  lemma ClientProgress(c: Config, s: State) returns (lb: Label)
    requires Inv(c, s) && !s.cli.finished && !Starved(s)
    ensures CanStep(c, s, lb) && Effective(lb)
  {
    UpPartial(c, s);
    hide Inv, ValidConfig, CanStep;
    if s.cli.writer.Some? {
      if !s.cut && |s.up| >= c.upCap && s.cli.writer.value.rest != [] {
        lb := ServerDrains(c, s);
      } else {
        lb := WriterStep(c, s);
      }
    } else {
      IdleClientCompares(c, s);
      if s.cli.remote != [] {
        lb := ClientPipelineProgress(c, s);
      } else if !s.cut {
        lb := HashProgress(c, s);
      } else {
        lb := HashEndStep(c, s);
      }
    }
  }

  lemma WriterStep(c: Config, s: State) returns (lb: Label)
    requires ValidFraming(UpFraming(c.layout)) && !s.cli.finished && s.cli.writer.Some?
    requires s.cut || |s.up| < c.upCap || s.cli.writer.value.rest == []
    ensures CanStep(c, s, lb) && Effective(lb)
  {
    lb := if s.cli.writer.value.rest == [] then ClientWrote else if s.cut then ClientWriteFails else ClientWrites(1);
  }

  lemma HashEndStep(c: Config, s: State) returns (lb: Label)
    requires ValidFraming(UpFraming(c.layout)) && Partial(DownFraming(), s.cli.pending)
    requires s.cut && !s.cli.finished && !s.cli.remoteDone
    ensures CanStep(c, s, lb) && Effective(lb)
  {
    lb := if s.down != [] then ClientReads(1) else ClientHashEnd;
  }

  /** After `close`, with an empty slot and no loan out, any thread that has not exited can step. */
  lemma JoinProgress(s: Setup, f: Bytes, p: Pipeline, file: Bytes) returns (a: Action)
    requires PipelineInv(s, f, p) && |file| == s.layout.size && p.st.closed && !AllExited(p)
    requires forall w :: 0 <= w < |p.workers| ==> !p.workers[w].phase.Lent?
    ensures ThreadAction(a) && Enabled(s, p, a, file) && !a.Wake?
  {
    var w :| 0 <= w < |p.workers| && !p.workers[w].phase.Exited?;
    assert WorkerOk(s, f, p.workers[w], w, Count(p), Sent(p), p.st);
    a := WorkerCanStep(s, f, p, w, file);
  }

  lemma FinishedClientLendsNothing(c: Config, s: State)
    requires Inv(c, s) && s.cli.finished
    ensures forall w :: 0 <= w < |s.cp.workers| ==> !s.cp.workers[w].phase.Lent?
  {
    assert Held(s.cli) == [];
    assert s.cp.slot.None?;
    forall w | 0 <= w < |s.cp.workers|
      ensures !s.cp.workers[w].phase.Lent?
    {
      IdleWriterNoLoan(c, s.cp, w);
    }
  }

  lemma FinishedServerLendsNothing(c: Config, s: State)
    requires Inv(c, s) && s.sp.slot.None?
    ensures forall w :: 0 <= w < |s.sp.workers| ==> !s.sp.workers[w].phase.Lent?
  {
  }

  /** An uncut client is never starved, and an uncut server leaves no item in the slot. */
  lemma UncutStops(c: Config, s: State)
    requires Inv(c, s) && !s.cut
    ensures !Starved(s) && (s.srv.finished ==> s.sp.slot.None? && s.cli.finished)
  {
    if s.srv.finished {
      BlockCountRange(c.layout, s.cli.endIdx, Count(s.sp));
    }
  }

  lemma StoppedClientClosedStream(c: Config, s: State)
    requires Inv(c, s) && (s.cli.finished || Starved(s))
    ensures s.upClosed
  {
  }

  /** No reachable state is stuck before both sides have stopped, cut or not and whatever the capacities of the two
      directions. A client stops by finishing, or starved of hashes; a server by leaving its loop. */
  lemma DeadlockFreedom(c: Config, s: State) returns (lb: Label)
    requires Inv(c, s) && !(ClientStopped(s) && ServerStopped(s))
    ensures CanStep(c, s, lb) && Effective(lb)
  {
    hide PipelineInv, LoansOk, ClientOk, ServerOk, DownOk, UpOk, DestOk, Enabled, AllExited;
    if !s.cli.finished && !Starved(s) {
      lb := ClientProgress(c, s);
    } else if !s.srv.finished {
      StoppedClientClosedStream(c, s);
      lb := ServerDrains(c, s);
    } else if !s.sp.st.closed {
      lb := ServerClose;
    } else if !ServerStopped(s) {
      ServerSizes(c, s);
      FinishedServerLendsNothing(c, s);
      var a := JoinProgress(ServerSetup(c), c.dst0, s.sp, s.dest);
      lb := ServerThread(a);
    } else if !s.cp.st.closed {
      lb := ClientClose;
    } else {
      FinishedClientLendsNothing(c, s);
      var a := JoinProgress(ClientSetup(c), c.src, s.cp, c.src);
      lb := ClientThread(a);
    }
  }
}
