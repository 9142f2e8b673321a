/**
 What faults do to a session, and exactly when it survives them: a client cut off from its hashes,
 a client that cannot tell that its blocks were lost, and disk errors that the server ignores.
 */
module SessionFaults {
  import opened Wire
  import opened Geometry
  import opened HashPipeline
  import opened Session
  import opened SessionInvariant
  import opened SessionServerSteps
  import opened SessionProgress
  import opened SessionTermination

  // ---------------------------------------------------------------- what the runs range over

  /** A live connection may be cut at any byte of either direction: what comes before still arrives, what comes behind is
      lost, and neither side notices anything else. */
  lemma CutAtAnyByte(c: Config, s: State, k: nat, j: nat)
    requires ValidFraming(UpFraming(c.layout)) && !s.cut && k <= |s.up| && j <= |s.down|
    ensures CanStep(c, s, Cut(k, j))
    ensures var t := Step(c, s, Cut(k, j));
            && t.cut && t.upClosed && t.up + t.lost[|s.lost|..] == s.up && |t.up| == k && s.lost <= t.lost
            && t.down + t.downLost[|s.downLost|..] == s.down && |t.down| == j && s.downLost <= t.downLost
            && t.cli == s.cli && t.srv == s.srv && t.cp == s.cp && t.sp == s.sp && t.dest == s.dest
  {
  }

  /** A disk write may fail at any byte, and a write to a dead connection at any time: the loop goes on as if it had
      succeeded. */
  lemma WritesMayFail(c: Config, s: State)
    requires ValidFraming(UpFraming(c.layout))
    ensures s.srv.disk.Some? && !s.srv.finished ==>
              && CanStep(c, s, ServerDiskFails)
              && var t := Step(c, s, ServerDiskFails);
              t.srv == s.srv.(disk := None) && t.dest == s.dest && t.frames == s.frames
    ensures s.cut && s.cli.writer.Some? && !s.cli.finished ==>
              && CanStep(c, s, ClientWriteFails)
              && var t := Step(c, s, ClientWriteFails);
              var done := s.cli.(writer := Some(s.cli.writer.value.(rest := [])));
              t.cli == OnBlockWritten(c.layout, done) && t.up == s.up
    ensures s.cut && s.srv.hashOut.Some? && !s.srv.finished ==>
              && CanStep(c, s, ServerHashLost)
              && var t := Step(c, s, ServerHashLost);
              t.srv == s.srv.(hashOut := None) && t.down == s.down
  {
  }

  // ---------------------------------------------------------------- hashes that reach the client

  /** Hashes are only counted, never forgotten; once the hash stream has ended their number is fixed. */
  lemma HashesStep(c: Config, s: State, lb: Label)
    requires ValidConfig(c) && CanStep(c, s, lb)
    ensures HashesReceived(Step(c, s, lb)) >= HashesReceived(s)
    ensures s.cli.remoteDone ==> Step(c, s, lb).cli.remoteDone && HashesReceived(Step(c, s, lb)) == HashesReceived(s)
  {
    hide Enabled, Apply, PrepareNext, OnBlockWritten, OnLocalHash, Feed, WriteAt;
    match lb
    case ClientTake => CompareKeepsHashes(c.layout, s.cli, s.cp.slot.value);
    case ClientWrote => WrittenKeepsHashes(c.layout, s.cli);
    case ClientWriteFails => WrittenKeepsHashes(c.layout, s.cli.(writer := Some(s.cli.writer.value.(rest := []))));
    case _ =>
  }

  lemma PrepareKeepsHashes(l: Layout, cl: Client)
    ensures var cl' := PrepareNext(l, cl);
            cl'.remote == cl.remote && cl'.blockIdx == cl.blockIdx && cl'.remoteDone == cl.remoteDone
  {
  }

  lemma WrittenKeepsHashes(l: Layout, cl: Client)
    ensures var cl' := OnBlockWritten(l, cl);
            cl'.remote == cl.remote && cl'.blockIdx == cl.blockIdx && cl'.remoteDone == cl.remoteDone
  {
    PrepareKeepsHashes(l, cl.(writer := None));
  }

  lemma CompareKeepsHashes(l: Layout, cl: Client, item: Item)
    requires cl.remote != []
    ensures var cl' := OnLocalHash(l, cl, item);
            cl'.remote == cl.remote[1..] && cl'.blockIdx == cl.blockIdx + 1 && cl'.remoteDone == cl.remoteDone
  {
    PrepareKeepsHashes(l, cl.(remote := cl.remote[1..], queue := cl.queue + [Queued(cl.blockIdx, item.loan)]));
  }

  lemma {:induction false} HashesRun(c: Config, s: State, labels: seq<Label>)
    requires ValidConfig(c) && Runs(c, s, labels)
    ensures HashesReceived(Exec(c, s, labels)) >= HashesReceived(s)
    ensures s.cli.remoteDone ==> HashesReceived(Exec(c, s, labels)) == HashesReceived(s)
    decreases |labels|
  {
    hide CanStep, Step, HashesReceived;
    if labels != [] {
      HashesStep(c, s, labels[0]);
      HashesRun(c, Step(c, s, labels[0]), labels[1..]);
    }
  }

  /** From the moment the hash stream has ended, every continuation that cannot go on has a finished client exactly
      when all hashes had arrived by then. If one is missing the client finishes in no continuation at all. */
  lemma ClientFinishesIffHashesArrived(c: Config, s0: State, labels: seq<Label>, more: seq<Label>)
    requires ValidConfig(c) && Init(c, s0) && Runs(c, s0, labels) && Exec(c, s0, labels).cli.remoteDone
    requires Runs(c, Exec(c, s0, labels), more)
    ensures var s, t := Exec(c, s0, labels), Exec(c, Exec(c, s0, labels), more);
            && (HashesReceived(s) < NumBlocks(c.layout) ==> !t.cli.finished)
            && (HashesReceived(s) == NumBlocks(c.layout) ==>
                  t.cli.finished || exists lb :: Effective(lb) && CanStep(c, t, lb))
            && HashesReceived(s) <= NumBlocks(c.layout)
  {
    hide CanStep, Step, Inv, Starved, SessionWork;
    var s := Exec(c, s0, labels);
    RunsConcat(c, s0, labels, more);
    InitInv(c, s0);
    RunInv(c, s0, labels + more);
    HashesRun(c, s, more);
    SessionTerminates(c, s0, labels + more);
    FinishedClientHasHashes(c, Exec(c, s, more));
  }

  lemma FinishedClientHasHashes(c: Config, s: State)
    requires Inv(c, s)
    ensures HashesReceived(s) <= NumBlocks(c.layout)
    ensures s.cli.finished ==> HashesReceived(s) == NumBlocks(c.layout)
  {
    EndIdxIsNumBlocks(c, s);
    HashesBounded(c, s);
  }

  /** The shortest way to starve a client: cut the connection before the first hash. */
  lemma CutCanStarveClient(c: Config, s0: State, more: seq<Label>)
    requires ValidConfig(c) && Init(c, s0)
    ensures var labels := [Cut(0, 0), ClientHashEnd];
            && Runs(c, s0, labels) && Starved(Exec(c, s0, labels))
            && (Runs(c, Exec(c, s0, labels), more) ==> !Exec(c, Exec(c, s0, labels), more).cli.finished)
  {
    var labels, s1 := [Cut(0, 0), ClientHashEnd], DoCut(s0, 0, 0);
    assert CanStep(c, s0, Cut(0, 0)) && Step(c, s0, Cut(0, 0)) == s1;
    var s2 := s1.(cli := s1.cli.(remoteDone := true));
    assert CanStep(c, s1, ClientHashEnd) && Step(c, s1, ClientHashEnd) == s2;
    assert labels[1..] == [ClientHashEnd] && labels[1..][1..] == [];
    assert Runs(c, s2, []) && Exec(c, s2, []) == s2;
    assert Runs(c, s1, labels[1..]) && Exec(c, s1, labels[1..]) == s2;
    if Runs(c, s2, more) {
      hide CanStep, Step;
      IndexInRange(c.layout, 0);
      ClientFinishesIffHashesArrived(c, s0, labels, more);
    }
  }

  // ---------------------------------------------------------------- a client that believes it has succeeded

  /** Every state can be driven, by steps of the programs alone, until both sides have stopped. */
  lemma {:induction false} RunToStop(c: Config, s: State) returns (labels: seq<Label>)
    requires ValidConfig(c) && Inv(c, s)
    ensures Runs(c, s, labels)
    ensures var t := Exec(c, s, labels); ClientStopped(t) && ServerStopped(t)
    decreases SessionWork(c, s)
  {
    hide CanStep, Step, Inv, SessionWork, ClientStopped, ServerStopped;
    if ClientStopped(s) && ServerStopped(s) {
      labels := [];
    } else {
      var lb := DeadlockFreedom(c, s);
      SessionStepInv(c, s, lb);
      EveryStepLowersWork(c, s, lb);
      var rest := RunToStop(c, Step(c, s, lb));
      labels := [lb] + rest;
      assert labels[1..] == rest;
    }
  }

  /** The client has read hashes and done nothing else. */
  predicate OnlyListened(s: State) {
    !s.cut && s.cli.blockIdx == 0 && s.frames == [] && s.up == [] && !s.cli.finished && s.srv.disk.None?
  }

  lemma ListenStep(c: Config, s: State, lb: Label)
    requires ValidConfig(c) && OnlyListened(s) && CanStep(c, s, lb) && BringsHash(lb)
    ensures OnlyListened(Step(c, s, lb))
  {
    hide Enabled, Apply;
  }

  /** A client reads every hash, whatever else it could do. */
  lemma {:induction false} ListenToAll(c: Config, s: State) returns (labels: seq<Label>)
    requires ValidConfig(c) && Inv(c, s) && OnlyListened(s)
    ensures Runs(c, s, labels)
    ensures var t := Exec(c, s, labels); OnlyListened(t) && HashesReceived(t) == NumBlocks(c.layout)
    decreases SessionWork(c, s)
  {
    hide CanStep, Step, Inv, SessionWork, OnlyListened, BringsHash;
    EndIdxIsNumBlocks(c, s);
    HashesBounded(c, s);
    if HashesReceived(s) == s.cli.endIdx {
      labels := [];
    } else {
      ListeningClient(s);
      var lb := HashProgress(c, s);
      ListenStep(c, s, lb);
      SessionStepInv(c, s, lb);
      EveryStepLowersWork(c, s, lb);
      var rest := ListenToAll(c, Step(c, s, lb));
      labels := [lb] + rest;
      assert labels[1..] == rest;
    }
  }

  lemma ListeningClient(s: State)
    requires OnlyListened(s)
    ensures !s.cut && !s.cli.finished
  {
  }

  /** Nothing more reaches the server: the connection is dead and nothing is in transit. */
  predicate NothingArrives(s: State) {
    s.cut && s.up == [] && s.frames == []
  }

  lemma {:induction false} NothingArrivesRun(c: Config, s: State, labels: seq<Label>)
    requires ValidConfig(c) && NothingArrives(s) && Runs(c, s, labels)
    ensures NothingArrives(Exec(c, s, labels))
    decreases |labels|
  {
    if labels != [] {
      NothingArrivesStep(c, s, labels[0]);
      NothingArrivesRun(c, Step(c, s, labels[0]), labels[1..]);
    }
  }

  lemma NothingArrivesStep(c: Config, s: State, lb: Label)
    requires ValidConfig(c) && NothingArrives(s) && CanStep(c, s, lb)
    ensures NothingArrives(Step(c, s, lb))
  {
    hide Enabled, Apply;
  }

  lemma NoFramesUntouched(c: Config, s: State)
    requires Inv(c, s) && NothingArrives(s)
    ensures s.dest == c.dst0 && s.cut
  {
    BlocksCoverFile(c.layout, s.dest, c.dst0);
  }

  lemma CutAndStop(c: Config, s: State) returns (labels: seq<Label>)
    requires ValidConfig(c) && Inv(c, s) && OnlyListened(s) && HashesReceived(s) == NumBlocks(c.layout)
    ensures Runs(c, s, labels)
    ensures var t := Exec(c, s, labels); t.cut && t.cli.finished && t.srv.finished && t.dest == c.dst0
  {
    var s1 := DoCut(s, 0, 0);
    CutEverything(c, s);
    hide CanStep, Step, Inv, Starved, OnlyListened, NothingArrives, DoCut;
    SessionStepInv(c, s, Cut(0, 0));
    var rest := RunToStop(c, s1);
    labels := [Cut(0, 0)] + rest;
    assert labels[1..] == rest;
    var t := Exec(c, s1, rest);
    RunInv(c, s1, rest);
    HashesRun(c, s1, rest);
    NothingArrivesRun(c, s1, rest);
    NoFramesUntouched(c, t);
    FinishedClientHasHashes(c, t);
    StoppedClient(c, t);
  }

  lemma CutEverything(c: Config, s: State)
    requires ValidConfig(c) && OnlyListened(s)
    ensures CanStep(c, s, Cut(0, 0)) && Step(c, s, Cut(0, 0)) == DoCut(s, 0, 0) && NothingArrives(DoCut(s, 0, 0))
    ensures HashesReceived(DoCut(s, 0, 0)) == HashesReceived(s)
  {
  }

  /** For every configuration there is an interrupted run in which the client ends as after a success, its failed
      writes ignored, although not one byte of the destination was changed. `EndToEndWithFaults` says when a finished
      client's blocks did arrive: exactly when the connection swallowed nothing. */
  lemma FinishedClientProvesNothing(c: Config, s0: State) returns (labels: seq<Label>)
    requires ValidConfig(c) && Init(c, s0)
    ensures Runs(c, s0, labels)
    ensures var t := Exec(c, s0, labels); t.cut && t.cli.finished && t.srv.finished && t.dest == c.dst0
  {
    InitInv(c, s0);
    var first := ListenToAll(c, s0);
    hide CanStep, Step, Inv, OnlyListened;
    RunInv(c, s0, first);
    var second := CutAndStop(c, Exec(c, s0, first));
    labels := first + second;
    RunsConcat(c, s0, first, second);
  }

  // ---------------------------------------------------------------- ignored disk errors

  /** Every disk write so far failed before its first byte. */
  predicate NothingLanded(s: State) {
    (forall i :: 0 <= i < |s.landed| ==> s.landed[i] == 0) && (s.srv.disk.Some? ==> s.srv.disk.value.written == 0)
  }

  /** The step to take when every disk write fails at once. */
  lemma NextFaultyStep(c: Config, s: State) returns (lb: Label)
    requires Inv(c, s) && NothingLanded(s) && !s.cut && !(ClientStopped(s) && ServerStopped(s))
    ensures CanStep(c, s, lb) && !WakeUp(lb) && !lb.Cut? && NothingLanded(Step(c, s, lb)) && !Step(c, s, lb).cut
  {
    FinishedServerHasNoWrite(c, s);
    if s.srv.disk.Some? {
      lb := ServerDiskFails;
      FailsAtOnce(c, s);
    } else {
      hide Inv, NothingLanded;
      lb := DeadlockFreedom(c, s);
      NoWriteNoLanding(c, s, lb);
    }
    StaysUncut(c, s, lb);
  }

  lemma FinishedServerHasNoWrite(c: Config, s: State)
    requires Inv(c, s)
    ensures ValidConfig(c) && (s.srv.finished ==> s.srv.disk.None?)
  {
  }

  lemma FailsAtOnce(c: Config, s: State)
    requires ValidConfig(c) && NothingLanded(s) && s.srv.disk.Some? && !s.srv.finished
    ensures CanStep(c, s, ServerDiskFails) && NothingLanded(Step(c, s, ServerDiskFails))
  {
  }

  lemma NoWriteNoLanding(c: Config, s: State, lb: Label)
    requires ValidConfig(c) && NothingLanded(s) && s.srv.disk.None? && CanStep(c, s, lb)
    ensures NothingLanded(Step(c, s, lb))
  {
    hide Enabled, Apply;
  }

  lemma {:induction false} FaultyRun(c: Config, s: State) returns (labels: seq<Label>)
    requires ValidConfig(c) && Inv(c, s) && NothingLanded(s) && !s.cut
    ensures Runs(c, s, labels)
    ensures var t := Exec(c, s, labels); ClientStopped(t) && ServerStopped(t) && NothingLanded(t) && !t.cut
    decreases SessionWork(c, s)
  {
    hide CanStep, Step, Inv, SessionWork, ClientStopped, ServerStopped, NothingLanded;
    if ClientStopped(s) && ServerStopped(s) {
      labels := [];
    } else {
      var lb := NextFaultyStep(c, s);
      SessionStepInv(c, s, lb);
      EveryStepLowersWork(c, s, lb);
      var rest := FaultyRun(c, Step(c, s, lb));
      labels := [lb] + rest;
      assert labels[1..] == rest;
    }
  }

  lemma NothingLandedUntouched(c: Config, s: State)
    requires Inv(c, s) && NothingLanded(s) && s.srv.finished
    ensures s.dest == c.dst0
  {
    hide PipelineInv, LoansOk, ClientOk, DownOk, UpOk;
    forall k: nat | InRange(c.layout, k)
      ensures AgreeOnBlock(c.layout, s.dest, c.dst0, k)
    {
      if BlockFrameAt(c, k) in s.frames {
        var i :| 0 <= i < |s.frames| && s.frames[i] == BlockFrameAt(c, k);
        assert Landed(c, s.dest, s.frames[i], s.landed[i]);
      }
    }
    BlocksCoverFile(c.layout, s.dest, c.dst0);
  }

  /** For every configuration there is an uncut run in which every disk write fails, both sides end as after a success,
      and the destination is what it was. `EndToEndWithFaults` says exactly when ignored disk errors do no harm. */
  lemma DiskErrorsCanLoseEverything(c: Config, s0: State) returns (labels: seq<Label>)
    requires ValidConfig(c) && Init(c, s0)
    ensures Runs(c, s0, labels)
    ensures var t := Exec(c, s0, labels); !t.cut && Final(t) && t.dest == c.dst0
  {
    InitInv(c, s0);
    labels := FaultyRun(c, s0);
    hide CanStep, Step, Inv, NothingLanded;
    RunInv(c, s0, labels);
    var t := Exec(c, s0, labels);
    StoppedUncut(c, t);
    NothingLandedUntouched(c, t);
  }
}
