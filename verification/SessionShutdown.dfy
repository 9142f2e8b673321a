/**
 Leaving a session: when the joins in `HashStream::drop` complete and when they cannot, and why the
 client never meets an early end of either of its streams.
 */
module SessionShutdown {
  import opened Geometry
  import opened HashPipeline
  import opened HashPipelineProgress
  import opened Session
  import opened SessionInvariant
  import opened SessionClientSteps
  import opened SessionServerSteps

  /** Some continuation of the server's worker threads ends with all of them exited. */
  ghost predicate ServerJoinsCanComplete(c: Config, s: State) {
    exists acts :: ThreadActions(acts) && PipelineRuns(ServerSetup(c), s.sp, acts, s.dest)
                   && AllExited(PipelineExec(ServerSetup(c), s.sp, acts, s.dest))
  }

  /** Once the server has closed its hash stream, its joins complete exactly when the channel's slot was empty;
      if the connection was not cut, it always is. */
  lemma ServerJoinIffSlotEmpty(c: Config, s0: State, labels: seq<Label>)
    requires ValidConfig(c) && Init(c, s0) && Runs(c, s0, labels)
    requires Exec(c, s0, labels).srv.finished && Exec(c, s0, labels).sp.st.closed
    ensures var s := Exec(c, s0, labels);
            && (s.sp.slot.None? <==> ServerJoinsCanComplete(c, s))
            && (!s.cut ==> s.sp.slot.None?)
  {
    InitInv(c, s0);
    RunInv(c, s0, labels);
    var s := Exec(c, s0, labels);
    ClosedServer(c, s);
    JoinCompletesIffSlotEmpty(ServerSetup(c), c.dst0, s.sp, s.dest);
  }

  lemma ClosedServer(c: Config, s: State)
    requires Inv(c, s) && s.srv.finished && s.sp.st.closed
    ensures Dropping(ServerSetup(c), c.dst0, s.sp)
    ensures FileAgrees(ServerSetup(c), c.dst0, Count(s.sp), s.dest)
    ensures !s.cut ==> s.sp.slot.None?
  {
    TakenInRange(c, s);
    NotYetWritten(c, s.dest, s.frames, s.landed, s.srv.disk, s.srv.filePos, s.cli.blockIdx, Count(s.sp));
    if !s.cut {
      BlockCountRange(c.layout, s.cli.endIdx, Count(s.sp));
    }
  }

  /** The schedule of the hang: a worker fills the slot of an outstanding receive, the connection dies, and the
      biased `select!` sees the end of the stream before it polls the receive again. */
  function HangSchedule(c: Config): seq<Label>
    requires 0 < c.layout.size
  {
    [ServerThread(Loop(0)), ServerThread(Read(0, LenAt(c.layout, 0))), ServerWant, ServerThread(Send(0)),
     Cut(0, 0), ServerEof, ServerClose]
  }

  function AfterHash(c: Config, s0: State): Worker
    requires 0 < c.layout.size && |s0.dest| == c.layout.size
  {
    var buf := s0.dest[0..LenAt(c.layout, 0)];
    Worker(0, 0, |buf|, Sending(Item(0, c.hash(buf), Loan(buf, 0))))
  }

  lemma HangFirstSteps(c: Config, s0: State)
    requires ValidConfig(c) && Init(c, s0)
    ensures Runs(c, s0, HangSchedule(c)[..2])
    ensures Exec(c, s0, HangSchedule(c)[..2]) == s0.(sp := SetWorker(s0.sp, 0, AfterHash(c, s0)))
  {
    var ss, len := ServerSetup(c), LenAt(c.layout, 0);
    assert s0.sp.workers[0] == StartedWorker(c.layout, 0);
    var wk1 := Worker(0, 0, 0, Reading([]));
    var s1 := s0.(sp := SetWorker(s0.sp, 0, wk1));
    assert CanStep(c, s0, ServerThread(Loop(0))) && Step(c, s0, ServerThread(Loop(0))) == s1;
    assert CanStep(c, s1, ServerThread(Read(0, len)));
    assert [] + s0.dest[0..0 + len] == s0.dest[0..len];
    var s2 := s0.(sp := SetWorker(s0.sp, 0, AfterHash(c, s0)));
    assert Step(c, s1, ServerThread(Read(0, len))) == s2 by {
      assert s1.sp.workers[0] == wk1;
      assert s0.sp.workers[0 := wk1][0 := AfterHash(c, s0)] == s0.sp.workers[0 := AfterHash(c, s0)];
    }
    var sch := HangSchedule(c)[..2];
    assert sch[0] == ServerThread(Loop(0)) && sch[1..] == [ServerThread(Read(0, len))] && sch[1..][1..] == [];
    assert Runs(c, s2, []);
    assert Runs(c, s1, sch[1..]) && Exec(c, s1, sch[1..]) == s2;
  }

  lemma HangFillsSlot(c: Config, s0: State, s: State)
    requires ValidConfig(c) && Init(c, s0) && s == s0.(sp := SetWorker(s0.sp, 0, AfterHash(c, s0)))
    ensures var s3 := s.(sp := DoWant(s.sp));
            && CanStep(c, s, ServerWant) && Step(c, s, ServerWant) == s3
            && CanStep(c, s3, ServerThread(Send(0)))
            && var s4 := Step(c, s3, ServerThread(Send(0)));
            && s4 == s3.(sp := s4.sp) && s4.sp.slot.Some? && !s4.sp.st.closed
  {
    var s3 := s.(sp := DoWant(s.sp));
    assert s.sp.workers[0] == AfterHash(c, s0);
    assert s3.sp.workers[0] == AfterHash(c, s0);
  }

  lemma HangCutsAndCloses(c: Config, s4: State)
    requires ValidConfig(c) && !s4.cut && !s4.srv.finished && s4.srv.disk.None? && !s4.sp.st.closed
    ensures var s5 := DoCut(s4, 0, 0);
            var s6 := s5.(srv := s5.srv.(finished := true));
            && CanStep(c, s4, Cut(0, 0)) && Step(c, s4, Cut(0, 0)) == s5
            && CanStep(c, s5, ServerEof) && Step(c, s5, ServerEof) == s6
            && CanStep(c, s6, ServerClose) && Step(c, s6, ServerClose) == s6.(sp := DoClose(s6.sp))
  {
    hide Enabled, Apply, ValidConfig, DoClose;
  }

  lemma HangLastSteps(c: Config, s0: State, s: State)
    requires ValidConfig(c) && Init(c, s0) && s == s0.(sp := SetWorker(s0.sp, 0, AfterHash(c, s0)))
    ensures Runs(c, s, HangSchedule(c)[2..])
    ensures var t := Exec(c, s, HangSchedule(c)[2..]); t.srv.finished && t.sp.st.closed && t.sp.slot.Some? && t.cut
  {
    HangFillsSlot(c, s0, s);
    hide CanStep, Step, DoWant, AfterHash, SetWorker, Runs, Exec;
    var s3 := s.(sp := DoWant(s.sp));
    var s4 := Step(c, s3, ServerThread(Send(0)));
    HangCutsAndCloses(c, s4);
    var s5 := DoCut(s4, 0, 0);
    var s6 := s5.(srv := s5.srv.(finished := true));
    RunsFromSteps(c, s, s3, s4, s5, s6, s6.(sp := DoClose(s6.sp)));
  }

  lemma RunsFromSteps(c: Config, s: State, s3: State, s4: State, s5: State, s6: State, s7: State)
    requires ValidConfig(c)
    requires CanStep(c, s, ServerWant) && Step(c, s, ServerWant) == s3
    requires CanStep(c, s3, ServerThread(Send(0))) && Step(c, s3, ServerThread(Send(0))) == s4
    requires CanStep(c, s4, Cut(0, 0)) && Step(c, s4, Cut(0, 0)) == s5
    requires CanStep(c, s5, ServerEof) && Step(c, s5, ServerEof) == s6
    requires CanStep(c, s6, ServerClose) && Step(c, s6, ServerClose) == s7
    ensures Runs(c, s, HangSchedule(c)[2..]) && Exec(c, s, HangSchedule(c)[2..]) == s7
  {
    hide CanStep, Step;
    var sch := HangSchedule(c)[2..];
    assert sch == [ServerWant, ServerThread(Send(0)), Cut(0, 0), ServerEof, ServerClose];
    var l7: seq<Label> := [];
    var l6 := [ServerClose];
    var l5 := [ServerEof, ServerClose];
    var l4 := [Cut(0, 0), ServerEof, ServerClose];
    var l3 := [ServerThread(Send(0)), Cut(0, 0), ServerEof, ServerClose];
    assert l6[1..] == l7 && l5[1..] == l6 && l4[1..] == l5 && l3[1..] == l4 && sch[1..] == l3;
    assert Runs(c, s7, l7) && Exec(c, s7, l7) == s7;
    assert Runs(c, s6, l6) && Exec(c, s6, l6) == s7;
    assert Runs(c, s5, l5) && Exec(c, s5, l5) == s7;
    assert Runs(c, s4, l4) && Exec(c, s4, l4) == s7;
    assert Runs(c, s3, l3) && Exec(c, s3, l3) == s7;
  }

  /** For every configuration there is an interrupted run after which the server's joins never complete. */
  lemma CutCanHangServer(c: Config, s0: State)
    requires ValidConfig(c) && Init(c, s0)
    ensures Runs(c, s0, HangSchedule(c))
    ensures var s := Exec(c, s0, HangSchedule(c));
            s.srv.finished && s.sp.st.closed && s.cut && !ServerJoinsCanComplete(c, s)
  {
    var sch := HangSchedule(c);
    HangFirstSteps(c, s0);
    var s := Exec(c, s0, sch[..2]);
    HangLastSteps(c, s0, s);
    RunsConcat(c, s0, sch[..2], sch[2..]);
    assert sch[..2] + sch[2..] == sch;
    ServerJoinIffSlotEmpty(c, s0, sch);
  }

  // ---------------------------------------------------------------- the branches that never fire

  /** While blocks remain to be compared the client's own pipeline does not end; and while the connection is alive the
      server is still there, so the hash reader meets neither an end of stream nor a rejected string. */
  lemma ClientStreamsNeverEndEarly(c: Config, s0: State, labels: seq<Label>)
    requires ValidConfig(c) && Init(c, s0) && Runs(c, s0, labels) && !Exec(c, s0, labels).cli.finished
    ensures var s := Exec(c, s0, labels);
            && (!s.cut ==> !s.srv.finished && !s.cli.remoteDone)
            && (!s.cli.over ==> !(AllExited(s.cp) && s.cp.slot.None?))
            && (s.cli.writer.None? ==> s.cli.queue == [] && !s.cli.over)
  {
    InitInv(c, s0);
    RunInv(c, s0, labels);
    var s := Exec(c, s0, labels);
    if !s.cli.over && AllExited(s.cp) && s.cp.slot.None? {
      NoneMeansAllTaken(ClientSetup(c), c.src, s.cp);
      BlockCountRange(c.layout, s.cli.endIdx, s.cli.blockIdx);
    }
  }
}
