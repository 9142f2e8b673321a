/**
 Progress of the hashing pipeline: a work measure that every action but a spurious wake-up lowers,
 the action that brings the wanted block closer, and the exact condition under which the joins in
 `HashStream::drop` complete.
 */
module HashPipelineProgress {
  import opened Wire
  import opened Geometry
  import opened ChannelState
  import opened HashPipeline
  import opened HashPipelineProofs

  // ---------------------------------------------------------------- measure

  function PhaseWork(bs: nat, ph: Phase): nat {
    match ph
    case LoopHead => bs + 7
    case Reading(buf) => 6 + if |buf| < bs then bs - |buf| else 0
    case Sending(_) => 5
    case Asleep(_) => 4
    case Lent => 2
    case Returned(_) => 1
    case Exited => 0
  }

  /** `last` bounds the indices a worker can reach. */
  function WorkerWork(bs: nat, last: nat, wk: Worker): nat {
    if wk.phase.Exited? then 0
    else PhaseWork(bs, wk.phase) + Scale(bs + 10, if wk.blockIdx < last then last - wk.blockIdx else 0)
  }

  function SumWork(bs: nat, last: nat, ws: seq<Worker>): nat {
    if ws == [] then 0 else WorkerWork(bs, last, ws[0]) + SumWork(bs, last, ws[1..])
  }

  function WantsLeft(n: nat, st: SharedState): nat {
    match st.wanted
    case None => n + 1
    case Some(i) => if i < n then n - i else 0
  }

  function ChannelWork(n: nat, w: nat, st: SharedState, slot: Option<Item>): nat {
    Scale(w + 1, WantsLeft(n, st)) + (if st.closed then 0 else w + 1) + (if slot.Some? then 2 else 0)
  }

  function Work(s: Setup, n: nat, p: Pipeline): nat {
    SumWork(s.layout.bs, n + s.w, p.workers) + ChannelWork(n, s.w, p.st, p.slot)
  }

  lemma {:induction false} SumUpdate(bs: nat, last: nat, ws: seq<Worker>, i: nat, wk: Worker)
    requires i < |ws|
    ensures SumWork(bs, last, ws[i := wk]) + WorkerWork(bs, last, ws[i])
            == SumWork(bs, last, ws) + WorkerWork(bs, last, wk)
  {
    if i == 0 {
      assert ws[i := wk][1..] == ws[1..];
    } else {
      SumUpdate(bs, last, ws[1..], i - 1, wk);
      assert ws[i := wk][1..] == ws[1..][i - 1 := wk];
    }
  }

  lemma {:induction false} SumWakeAll(bs: nat, last: nat, ws: seq<Worker>)
    ensures SumWork(bs, last, WakeAll(ws)) <= SumWork(bs, last, ws) + |ws|
  {
    if ws != [] {
      SumWakeAll(bs, last, ws[1..]);
      assert WakeAll(ws)[1..] == WakeAll(ws[1..]);
    }
  }

  lemma CountInRange(s: Setup, f: Bytes, p: Pipeline)
    requires PipelineInv(s, f, p)
    ensures Count(p) <= NumBlocks(s.layout)
    ensures p.slot.Some? ==> Count(p) < NumBlocks(s.layout)
  {
    if Count(p) > 0 {
      IndexInRange(s.layout, Count(p) - 1);
      assert InRange(s.layout, Count(p) - 1);
    }
    IndexInRange(s.layout, Count(p));
  }

  /** What an action gives up: a `Take` pays for what the receiver then does with the item. */
  function Cost(a: Action): nat {
    if a.Take? then 2 else 1
  }

  predicate Productive(a: Action) {
    !a.Wake? && !a.Fail?
  }

  lemma ReclaimLowersWork(s: Setup, f: Bytes, p: Pipeline, w: nat)
    requires PipelineInv(s, f, p) && w < |p.workers| && p.workers[w].phase.Returned?
    ensures WorkerWork(s.layout.bs, NumBlocks(s.layout) + s.w, AfterReclaim(s, p.workers[w]))
            < WorkerWork(s.layout.bs, NumBlocks(s.layout) + s.w, p.workers[w])
  {
    var wk, last := p.workers[w], NumBlocks(s.layout) + s.w;
    assert WorkerOk(s, f, wk, w, Count(p), Sent(p), p.st);
    CountInRange(s, f, p);
    ScaleAdd(s.layout.bs + 10, last - wk.blockIdx - s.w, s.w);
    assert Scale(s.layout.bs + 10, s.w) >= s.layout.bs + 10;
  }

  lemma ReadLowersWork(s: Setup, p: Pipeline, w: nat, n: nat, file: Bytes)
    requires Enabled(s, p, Read(w, n), file)
    ensures var wk := p.workers[w];
            WorkerWork(s.layout.bs, NumBlocks(s.layout) + s.w, AfterRead(s, w, wk, file[wk.filePos..wk.filePos + n]))
            < WorkerWork(s.layout.bs, NumBlocks(s.layout) + s.w, wk)
  {
    hide Scale;
  }

  /** Every worker action but a wake-up lowers that worker's work; placing an item also pays for the slot. */
  lemma WorkerWorkDecreases(s: Setup, f: Bytes, p: Pipeline, a: Action, file: Bytes)
    requires PipelineInv(s, f, p) && Enabled(s, p, a, file)
    requires a.Loop? || a.Read? || a.Send? || a.Reclaim? || a.Drop?
    ensures var last := NumBlocks(s.layout) + s.w;
            WorkerWork(s.layout.bs, last, Apply(s, p, a, file).workers[a.w])
              + (if a.Send? && Apply(s, p, a, file).slot.Some? && p.slot.None? then 3 else 1)
            <= WorkerWork(s.layout.bs, last, p.workers[a.w])
  {
    if a.Reclaim? {
      ReclaimLowersWork(s, f, p, a.w);
    } else if a.Read? {
      ReadLowersWork(s, p, a.w, a.n, file);
    }
    hide PipelineInv, AfterRead, AfterReclaim, Scale;
  }

  lemma WorkerActionFrame(s: Setup, f: Bytes, p: Pipeline, a: Action, file: Bytes)
    requires PipelineInv(s, f, p) && Enabled(s, p, a, file)
    requires a.Loop? || a.Read? || a.Send? || a.Reclaim? || a.Drop?
    ensures var p' := Apply(s, p, a, file);
            && a.w < |p.workers| && |p'.workers| == |p.workers|
            && p'.workers == p.workers[a.w := p'.workers[a.w]] && p'.st == p.st
            && (p'.slot == p.slot || (a.Send? && p.slot.None? && p'.slot.Some?))
  {
    if a.Send? { NeverBlocksUnderLock(s, f, p, a.w); }
  }

  lemma WorkerActionDecreases(s: Setup, f: Bytes, p: Pipeline, a: Action, file: Bytes)
    requires PipelineInv(s, f, p) && Enabled(s, p, a, file)
    requires a.Loop? || a.Read? || a.Send? || a.Reclaim? || a.Drop?
    ensures Work(s, NumBlocks(s.layout), Apply(s, p, a, file)) + 1 <= Work(s, NumBlocks(s.layout), p)
  {
    hide PipelineInv, WorkerWork, Enabled, Apply;
    var p' := Apply(s, p, a, file);
    WorkerActionFrame(s, f, p, a, file);
    WorkerWorkDecreases(s, f, p, a, file);
    SumUpdate(s.layout.bs, NumBlocks(s.layout) + s.w, p.workers, a.w, p'.workers[a.w]);
  }

  lemma WantDecreases(s: Setup, f: Bytes, p: Pipeline)
    requires PipelineInv(s, f, p) && !p.st.receiving
    ensures Work(s, NumBlocks(s.layout), DoWant(p)) + 1 <= Work(s, NumBlocks(s.layout), p)
  {
    SumWakeAll(s.layout.bs, NumBlocks(s.layout) + s.w, p.workers);
    CountInRange(s, f, p);
  }

  lemma CloseDecreases(s: Setup, n: nat, p: Pipeline)
    requires !p.st.closed && |p.workers| == s.w
    ensures Work(s, n, DoClose(p)) + 1 <= Work(s, n, p)
  {
    SumWakeAll(s.layout.bs, n + s.w, p.workers);
  }

  /** Every productive action lowers the work by at least its cost. */
  lemma WorkDecreases(s: Setup, f: Bytes, p: Pipeline, a: Action, file: Bytes)
    requires PipelineInv(s, f, p) && Enabled(s, p, a, file) && Productive(a)
    ensures Work(s, NumBlocks(s.layout), Apply(s, p, a, file)) + Cost(a) <= Work(s, NumBlocks(s.layout), p)
  {
    if a.Want? {
      WantDecreases(s, f, p);
    } else if a.Close? {
      CloseDecreases(s, NumBlocks(s.layout), p);
    } else if !a.Take? {
      WorkerActionDecreases(s, f, p, a, file);
    }
  }

  /** A spurious wake-up costs one unit, and only the sleeper's. */
  lemma WakeRaisesWorkByOne(s: Setup, p: Pipeline, a: Action, file: Bytes, n: nat)
    requires Enabled(s, p, a, file) && a.Wake?
    ensures Work(s, n, Apply(s, p, a, file)) == Work(s, n, p) + 1
  {
    SumUpdate(s.layout.bs, n + s.w, p.workers, a.w, Woken(p.workers[a.w]));
  }

  // ---------------------------------------------------------------- progress

  /** A worker that neither sleeps, waits for its loan nor has exited can take a step. */
  lemma WorkerCanStep(s: Setup, f: Bytes, p: Pipeline, w: nat, file: Bytes) returns (a: Action)
    requires PipelineInv(s, f, p) && |file| == s.layout.size && w < |p.workers|
    requires !p.workers[w].phase.Exited? && !p.workers[w].phase.Lent? && !p.workers[w].phase.Asleep?
    ensures Enabled(s, p, a, file) && ThreadAction(a) && !a.Wake?
  {
    assert WorkerOk(s, f, p.workers[w], w, Count(p), Sent(p), p.st);
    match p.workers[w].phase
    case LoopHead => a := Loop(w);
    case Reading(_) => a := Read(w, 1);
    case Sending(_) => NeverBlocksUnderLock(s, f, p, w); a := Send(w);
    case Returned(_) => a := Reclaim(w);
  }

  /** While blocks remain, either the receiver can act or the worker of the next block can,
      unless that worker's buffer is still lent out. */
  lemma NextBlockProgress(s: Setup, f: Bytes, p: Pipeline, file: Bytes) returns (a: Action)
    requires PipelineInv(s, f, p) && |file| == s.layout.size && !p.st.closed && InRange(s.layout, Count(p))
    requires p.slot.None? ==> !p.workers[Owner(s.w, Count(p))].phase.Lent?
    ensures Enabled(s, p, a, file) && Productive(a) && (ThreadAction(a) || a.Want? || a.Take?)
  {
    if !p.st.receiving {
      a := Want;
    } else if p.slot.Some? {
      a := Take;
    } else {
      var w := Owner(s.w, Count(p));
      assert WorkerOk(s, f, p.workers[w], w, Count(p), Sent(p), p.st);
      if p.workers[w].blockIdx >= Count(p) {
        SameOwnerWithinStride(s.w, Count(p), p.workers[w].blockIdx);
      }
      a := WorkerCanStep(s, f, p, w, file);
    }
  }

  /** `recv` returns None only after the last block. */
  lemma NoneMeansAllTaken(s: Setup, f: Bytes, p: Pipeline)
    requires PipelineInv(s, f, p) && AllExited(p) && p.slot.None? && !p.st.closed
    ensures !InRange(s.layout, Count(p))
  {
    var w := Owner(s.w, Count(p));
    assert WorkerOk(s, f, p.workers[w], w, Count(p), Sent(p), p.st);
    SameOwnerWithinStride(s.w, Count(p), p.workers[w].blockIdx);
  }

  // ---------------------------------------------------------------- shutdown

  /** The file still agrees with `f` on every block that has not been taken. */
  ghost predicate FileAgrees(s: Setup, f: Bytes, count: nat, file: Bytes) {
    && |f| == |file| == s.layout.size
    && forall k: nat :: count <= k && InRange(s.layout, k) ==> AgreeOnBlock(s.layout, file, f, k)
  }

  lemma FileAgreesForReads(s: Setup, f: Bytes, p: Pipeline, a: Action, file: Bytes)
    requires PipelineInv(s, f, p) && Enabled(s, p, a, file) && FileAgrees(s, f, Count(p), file)
    ensures ReadsAgree(s, f, p, a, file)
  {
    if a.Read? {
      assert WorkerOk(s, f, p.workers[a.w], a.w, Count(p), Sent(p), p.st);
    }
  }

  predicate PipelineRuns(s: Setup, p: Pipeline, acts: seq<Action>, file: Bytes)
    decreases |acts|
  {
    acts == [] || (Enabled(s, p, acts[0], file) && PipelineRuns(s, Apply(s, p, acts[0], file), acts[1..], file))
  }

  function PipelineExec(s: Setup, p: Pipeline, acts: seq<Action>, file: Bytes): Pipeline
    requires PipelineRuns(s, p, acts, file)
    decreases |acts|
  {
    if acts == [] then p else PipelineExec(s, Apply(s, p, acts[0], file), acts[1..], file)
  }

  predicate ThreadActions(acts: seq<Action>) {
    forall i :: 0 <= i < |acts| ==> ThreadAction(acts[i])
  }

  /** The receiver is in `HashStream::drop`: closed, and every loan it had received is dropped. */
  ghost predicate Dropping(s: Setup, f: Bytes, p: Pipeline) {
    && PipelineInv(s, f, p) && p.st.closed
    && forall w :: 0 <= w < |p.workers| && p.workers[w].phase.Lent? ==> p.slot.Some? && p.workers[w].blockIdx == Count(p)
  }

  lemma DroppingStep(s: Setup, f: Bytes, p: Pipeline, a: Action, file: Bytes)
    requires Dropping(s, f, p) && FileAgrees(s, f, Count(p), file)
    requires Enabled(s, p, a, file) && ThreadAction(a)
    ensures Dropping(s, f, Apply(s, p, a, file)) && !a.Wake?
    ensures Apply(s, p, a, file).slot == p.slot && Count(Apply(s, p, a, file)) == Count(p)
    ensures p.slot.Some? ==> Apply(s, p, a, file).workers[Owner(s.w, Count(p))].phase.Lent?
  {
    FileAgreesForReads(s, f, p, a, file);
    StepInv(s, f, p, a, file);
    ClosedThread(s, f, p, a, file);
    hide WorkerOk, Enabled, Apply, ReadsAgree;
  }

  /** Once the channel is closed a thread neither sleeps nor lends, and touches nothing but its own state. */
  lemma ClosedThread(s: Setup, f: Bytes, p: Pipeline, a: Action, file: Bytes)
    requires PipelineInv(s, f, p) && p.st.closed && Enabled(s, p, a, file) && ThreadAction(a)
    ensures var p' := Apply(s, p, a, file);
            && !a.Wake? && a.w < |p.workers| && !p.workers[a.w].phase.Lent?
            && |p'.workers| == |p.workers| && p'.workers == p.workers[a.w := p'.workers[a.w]]
            && !p'.workers[a.w].phase.Lent? && p'.slot == p.slot && p'.st == p.st && p'.received == p.received
  {
    assert WorkerOk(s, f, p.workers[a.w], a.w, Count(p), Sent(p), p.st);
  }

  /** If the slot was empty when `close` took the lock, no worker stays behind: every sequence of thread
      steps is bounded by the measure, and one that cannot be extended has ended with all threads exited. */
  lemma {:induction false} JoinsComplete(s: Setup, f: Bytes, p: Pipeline, acts: seq<Action>, file: Bytes)
    requires Dropping(s, f, p) && p.slot.None? && FileAgrees(s, f, Count(p), file)
    requires PipelineRuns(s, p, acts, file) && ThreadActions(acts)
    ensures |acts| <= Work(s, NumBlocks(s.layout), p)
    ensures AllExited(PipelineExec(s, p, acts, file))
            || exists a :: ThreadAction(a) && Enabled(s, PipelineExec(s, p, acts, file), a, file)
    decreases |acts|
  {
    if acts == [] {
      if !AllExited(p) {
        var w :| 0 <= w < |p.workers| && !p.workers[w].phase.Exited?;
        assert WorkerOk(s, f, p.workers[w], w, Count(p), Sent(p), p.st);
        var a := WorkerCanStep(s, f, p, w, file);
      }
    } else {
      DroppingStep(s, f, p, acts[0], file);
      WorkDecreases(s, f, p, acts[0], file);
      JoinsComplete(s, f, Apply(s, p, acts[0], file), acts[1..], file);
    }
  }

  /** If the slot was full, the worker that filled it waits for its buffer for ever. */
  lemma {:induction false} JoinsHang(s: Setup, f: Bytes, p: Pipeline, acts: seq<Action>, file: Bytes)
    requires Dropping(s, f, p) && p.slot.Some? && FileAgrees(s, f, Count(p), file)
    requires PipelineRuns(s, p, acts, file) && ThreadActions(acts)
    ensures !AllExited(PipelineExec(s, p, acts, file))
    decreases |acts|
  {
    if acts == [] {
      assert p.workers[Owner(s.w, Count(p))].phase.Lent?;
    } else {
      DroppingStep(s, f, p, acts[0], file);
      JoinsHang(s, f, Apply(s, p, acts[0], file), acts[1..], file);
    }
  }

  lemma {:induction false} ExitingRun(s: Setup, f: Bytes, p: Pipeline, file: Bytes) returns (acts: seq<Action>)
    requires Dropping(s, f, p) && p.slot.None? && FileAgrees(s, f, Count(p), file)
    ensures PipelineRuns(s, p, acts, file) && ThreadActions(acts) && AllExited(PipelineExec(s, p, acts, file))
    decreases Work(s, NumBlocks(s.layout), p)
  {
    JoinsComplete(s, f, p, [], file);
    if AllExited(p) {
      acts := [];
    } else {
      var a :| ThreadAction(a) && Enabled(s, p, a, file);
      DroppingStep(s, f, p, a, file);
      WorkDecreases(s, f, p, a, file);
      var rest := ExitingRun(s, f, Apply(s, p, a, file), file);
      acts := [a] + rest;
      assert acts[1..] == rest;
    }
  }

  /** The joins in `HashStream::drop` can complete exactly when the slot is empty once the channel is closed. */
  lemma JoinCompletesIffSlotEmpty(s: Setup, f: Bytes, p: Pipeline, file: Bytes)
    requires Dropping(s, f, p) && FileAgrees(s, f, Count(p), file)
    ensures p.slot.None? <==>
            exists acts :: ThreadActions(acts) && PipelineRuns(s, p, acts, file) && AllExited(PipelineExec(s, p, acts, file))
  {
    if p.slot.None? {
      var acts := ExitingRun(s, f, p, file);
    } else {
      forall acts | ThreadActions(acts) && PipelineRuns(s, p, acts, file)
        ensures !AllExited(PipelineExec(s, p, acts, file))
      {
        JoinsHang(s, f, p, acts, file);
      }
    }
  }
}
