/**
 What every run of a session guarantees: end-to-end correctness, hashes taken before writes,
 exactly the differing blocks sent, bounded loans, and safety when the connection is cut.
 */
module SessionTheorems {
  import opened Wire
  import opened Geometry
  import opened HashPipeline
  import opened HashPipelineProgress
  import opened Session
  import opened SessionInvariant
  import opened SessionClientSteps
  import opened SessionServerSteps

  /** Two differing blocks with the same hash: the only way a synchronisation can miss a change. */
  ghost predicate Collision(c: Config, k: nat)
    requires ValidConfig(c)
  {
    InRange(c.layout, k) && !HashesDiffer(c, k) && Block(c.layout, c.src, k) != Block(c.layout, c.dst0, k)
  }

  ghost predicate NoCollision(c: Config)
    requires ValidConfig(c)
  {
    forall k: nat :: !Collision(c, k)
  }

  // ---------------------------------------------------------------- disk errors

  predicate NoDiskErrors(labels: seq<Label>) {
    ServerDiskFails !in labels
  }

  /** Every disk write that has ended wrote its whole frame. */
  predicate AllWhole(s: State) {
    |s.landed| <= |s.frames| && forall i :: 0 <= i < |s.landed| ==> s.landed[i] == |s.frames[i].payload|
  }

  lemma WriteIsOfLastFrame(c: Config, s: State)
    requires Inv(c, s) && s.srv.disk.Some?
    ensures |s.frames| == |s.landed| + 1
    ensures s.srv.disk.value.data == s.frames[|s.landed|].payload && s.srv.disk.value.written <= |s.srv.disk.value.data|
  {
    hide PipelineInv, LoansOk, ClientOk, DownOk, UpOk, ServerOk;
    assert WritingSome(c, s.dest, s.frames[|s.frames| - 1], s.srv.disk.value, s.srv.filePos);
  }

  lemma WholeStep(c: Config, s: State, lb: Label)
    requires ValidConfig(c) && Inv(c, s) && CanStep(c, s, lb) && AllWhole(s) && lb != ServerDiskFails
    ensures AllWhole(Step(c, s, lb))
  {
    hide Inv;
    if lb.ServerDiskDone? {
      WriteIsOfLastFrame(c, s);
    }
  }

  lemma {:induction false} WholeRun(c: Config, s: State, labels: seq<Label>)
    requires Inv(c, s) && Runs(c, s, labels) && AllWhole(s) && NoDiskErrors(labels)
    ensures AllWhole(Exec(c, s, labels))
    decreases |labels|
  {
    if labels != [] {
      SessionStepInv(c, s, labels[0]);
      WholeStep(c, s, labels[0]);
      WholeRun(c, Step(c, s, labels[0]), labels[1..]);
    }
  }

  // ---------------------------------------------------------------- end to end

  lemma {:induction false} DiffFramesPrefix(c: Config, m: nat, n: nat)
    requires ValidConfig(c) && m <= n && (n > 0 ==> InRange(c.layout, n - 1))
    ensures DiffFrames(c, m) <= DiffFrames(c, n)
  {
    if m < n {
      if n > 1 { EarlierInRange(c.layout, n - 2, n - 1); }
      DiffFramesPrefix(c, m, n - 1);
    }
  }

  lemma ReceivedPrefix(c: Config, s: State)
    requires Inv(c, s)
    ensures s.frames <= DiffFrames(c, NumBlocks(c.layout))
  {
    var n := NumBlocks(c.layout);
    BlockCountIsNumBlocks(c.layout);
    assert s.frames <= DiffFrames(c, s.cli.blockIdx) && s.cli.blockIdx <= n;
    DiffFramesPrefix(c, s.cli.blockIdx, n);
  }

  lemma SplitBlock(c: Config, dest: Bytes, k: nat, n: nat)
    requires ValidConfig(c) && |dest| == c.layout.size && InRange(c.layout, k) && SplitAt(c, dest, k, n)
    ensures n <= |Block(c.layout, c.src, k)|
    ensures Block(c.layout, dest, k) == Block(c.layout, c.src, k)[..n] + Block(c.layout, c.dst0, k)[n..]
  {
    var st, b := Start(c.layout, k), Block(c.layout, dest, k);
    forall i | 0 <= i < |b|
      ensures b[i] == (Block(c.layout, c.src, k)[..n] + Block(c.layout, c.dst0, k)[n..])[i]
    {
      assert b[i] == dest[st + i];
    }
  }

  /** What the destination holds once the server has left its loop, cut or not and whatever failed on disk: the
      received frames are a prefix of the differing ones; a block that was received holds the source's bytes as far
      as they reached the disk and its original bytes behind; every other block is as it was. */
  lemma DestWhenFinished(c: Config, s: State, k: nat)
    requires Inv(c, s) && s.srv.finished && InRange(c.layout, k)
    ensures s.frames <= DiffFrames(c, NumBlocks(c.layout)) && |s.landed| == |s.frames| && |s.dest| == c.layout.size
    ensures forall i :: 0 <= i < |s.frames| && s.frames[i] == BlockFrameAt(c, k) ==>
              && s.landed[i] <= |Block(c.layout, c.src, k)|
              && Block(c.layout, s.dest, k)
                 == Block(c.layout, c.src, k)[..s.landed[i]] + Block(c.layout, c.dst0, k)[s.landed[i]..]
    ensures BlockFrameAt(c, k) !in s.frames ==> Block(c.layout, s.dest, k) == Block(c.layout, c.dst0, k)
  {
    ReceivedPrefix(c, s);
    hide PipelineInv, LoansOk, ClientOk, DownOk, UpOk, SplitAt, AgreeOnBlock;
    forall i | 0 <= i < |s.frames| && s.frames[i] == BlockFrameAt(c, k)
      ensures s.landed[i] <= |Block(c.layout, c.src, k)|
      ensures Block(c.layout, s.dest, k)
              == Block(c.layout, c.src, k)[..s.landed[i]] + Block(c.layout, c.dst0, k)[s.landed[i]..]
    {
      assert Landed(c, s.dest, s.frames[i], s.landed[i]);
      SplitBlock(c, s.dest, k, s.landed[i]);
    }
    if BlockFrameAt(c, k) !in s.frames {
      AgreeIffSameBlock(c.layout, s.dest, c.dst0, k);
    }
  }

  /** No disk write was cut short where it matters: what did not reach the disk was there already. */
  ghost predicate Untorn(c: Config, s: State)
    requires ValidConfig(c)
  {
    forall i, k: nat ::
      0 <= i < |s.frames| && i < |s.landed| && InRange(c.layout, k) && s.frames[i] == BlockFrameAt(c, k)
      ==> UntornAt(c, k, s.landed[i])
  }

  ghost predicate UntornAt(c: Config, k: nat, n: nat)
    requires ValidConfig(c) && InRange(c.layout, k)
  {
    n <= |Block(c.layout, c.src, k)| ==> Block(c.layout, c.src, k)[n..] == Block(c.layout, c.dst0, k)[n..]
  }

  lemma SplitEqualsSource(a: Bytes, b: Bytes, n: nat)
    requires |a| == |b| && n <= |a|
    ensures a[..n] + b[n..] == a <==> a[n..] == b[n..]
  {
    assert (a[..n] + b[n..])[n..] == b[n..];
    assert a[..n] + a[n..] == a;
  }

  lemma ReceivedBlockDiffers(c: Config, s: State, k: nat)
    requires Inv(c, s) && InRange(c.layout, k) && BlockFrameAt(c, k) in s.frames
    ensures HashesDiffer(c, k)
  {
    TakenInRange(c, s);
    assert s.frames <= DiffFrames(c, s.cli.blockIdx);
    DiffMembership(c, s.cli.blockIdx, k);
  }

  /** A block of the final destination is the source's exactly when it was not mistaken for equal, was received if it
      differs, and was not torn. */
  lemma BlockWhenFinished(c: Config, s: State, k: nat)
    requires Inv(c, s) && s.srv.finished && InRange(c.layout, k)
    ensures |s.dest| == c.layout.size && |s.landed| == |s.frames|
    ensures BlockFrameAt(c, k) !in s.frames ==>
              (Block(c.layout, s.dest, k) == Block(c.layout, c.src, k) <==> !Collision(c, k) && !HashesDiffer(c, k))
    ensures forall i :: 0 <= i < |s.frames| && s.frames[i] == BlockFrameAt(c, k) ==>
              !Collision(c, k)
              && (Block(c.layout, s.dest, k) == Block(c.layout, c.src, k) <==> UntornAt(c, k, s.landed[i]))
  {
    DestWhenFinished(c, s, k);
    hide Inv;
    forall i | 0 <= i < |s.frames| && s.frames[i] == BlockFrameAt(c, k)
      ensures !Collision(c, k)
              && (Block(c.layout, s.dest, k) == Block(c.layout, c.src, k) <==> UntornAt(c, k, s.landed[i]))
    {
      ReceivedBlockDiffers(c, s, k);
      SplitEqualsSource(Block(c.layout, c.src, k), Block(c.layout, c.dst0, k), s.landed[i]);
    }
  }

  /** The frames received are all differing frames exactly when no differing block is missing from them. */
  lemma AllFramesReceived(c: Config, s: State)
    requires Inv(c, s)
    ensures s.frames == DiffFrames(c, NumBlocks(c.layout))
            <==> forall k: nat :: InRange(c.layout, k) && HashesDiffer(c, k) ==> BlockFrameAt(c, k) in s.frames
  {
    var n := NumBlocks(c.layout);
    var all := DiffFrames(c, n);
    ReceivedPrefix(c, s);
    BlockCountIsNumBlocks(c.layout);
    DiffFramesFacts(c, n);
    hide Inv, DiffFrames;
    if s.frames == all {
      forall k: nat | InRange(c.layout, k) && HashesDiffer(c, k)
        ensures BlockFrameAt(c, k) in s.frames
      {
        BlockCountRange(c.layout, n, k);
        DiffMembership(c, n, k);
      }
    } else {
      var i := |s.frames|;
      assert IsDiffFrame(c, n, all[i]);
      var k: nat :| k < n && InRange(c.layout, k) && HashesDiffer(c, k) && all[i] == BlockFrameAt(c, k);
      assert forall j :: 0 <= j < i ==> s.frames[j] == all[j];
      assert BlockFrameAt(c, k) !in s.frames;
    }
  }

  /** In every run, cut or not and whatever failed on disk, once the server is done the destination equals the source
      byte for byte exactly when no compared pair of differing blocks shares a hash, every differing block arrived,
      and no arrived block was torn by a failed disk write. When the client has finished too, every differing block
      arrived exactly when the connection swallowed nothing; a connection that was not cut never does. */
  lemma EndToEndWithFaults(c: Config, s0: State, labels: seq<Label>)
    requires ValidConfig(c) && Init(c, s0) && Runs(c, s0, labels) && Exec(c, s0, labels).srv.finished
    ensures var s := Exec(c, s0, labels);
            var all := DiffFrames(c, NumBlocks(c.layout));
            && s.frames <= all
            && (s.dest == c.src <==> NoCollision(c) && s.frames == all && Untorn(c, s))
            && (s.cli.finished ==> (s.frames == all <==> s.lost == []))
            && (!s.cut ==> s.cli.finished && s.lost == [])
  {
    InitInv(c, s0);
    RunInv(c, s0, labels);
    var s := Exec(c, s0, labels);
    ReceivedPrefix(c, s);
    DestIffNoFault(c, s);
    if s.cli.finished {
      NothingLost(c, s);
    }
  }

  lemma DestIffNoFault(c: Config, s: State)
    requires Inv(c, s) && s.srv.finished
    ensures s.dest == c.src <==> NoCollision(c) && s.frames == DiffFrames(c, NumBlocks(c.layout)) && Untorn(c, s)
  {
    AllFramesReceived(c, s);
    assert |s.dest| == c.layout.size;
    hide Inv, DiffFrames, UntornAt, AgreeOnBlock;
    if s.dest == c.src {
      EqualFilesNoFault(c, s);
    } else if NoCollision(c) && s.frames == DiffFrames(c, NumBlocks(c.layout)) && Untorn(c, s) {
      forall k: nat | InRange(c.layout, k)
        ensures AgreeOnBlock(c.layout, s.dest, c.src, k)
      {
        NoFaultBlock(c, s, k);
      }
      BlocksCoverFile(c.layout, s.dest, c.src);
    }
  }

  lemma NoFaultBlock(c: Config, s: State, k: nat)
    requires ValidConfig(c) && Inv(c, s) && s.srv.finished && InRange(c.layout, k) && NoCollision(c) && Untorn(c, s)
    requires HashesDiffer(c, k) ==> BlockFrameAt(c, k) in s.frames
    ensures |s.dest| == c.layout.size && AgreeOnBlock(c.layout, s.dest, c.src, k)
  {
    hide Inv, UntornAt, AgreeOnBlock, Collision, HashesDiffer, Block, BlockFrameAt;
    BlockWhenFinished(c, s, k);
    AgreeIffSameBlock(c.layout, s.dest, c.src, k);
    assert !Collision(c, k);
    if BlockFrameAt(c, k) in s.frames {
      var i :| 0 <= i < |s.frames| && s.frames[i] == BlockFrameAt(c, k);
      assert UntornAt(c, k, s.landed[i]);
    }
  }

  lemma EqualFilesNoFault(c: Config, s: State)
    requires ValidConfig(c) && Inv(c, s) && s.srv.finished && s.dest == c.src
    ensures NoCollision(c) && Untorn(c, s)
    ensures forall k: nat :: InRange(c.layout, k) && HashesDiffer(c, k) ==> BlockFrameAt(c, k) in s.frames
  {
    hide Inv, UntornAt;
    forall k: nat | InRange(c.layout, k)
      ensures !Collision(c, k) && (HashesDiffer(c, k) ==> BlockFrameAt(c, k) in s.frames)
    {
      BlockWhenFinished(c, s, k);
    }
    forall i, k: nat | 0 <= i < |s.frames| && i < |s.landed| && InRange(c.layout, k) && s.frames[i] == BlockFrameAt(c, k)
      ensures UntornAt(c, k, s.landed[i])
    {
      BlockWhenFinished(c, s, k);
    }
  }

  lemma NothingLost(c: Config, s: State)
    requires Inv(c, s) && s.srv.finished && s.cli.finished
    ensures s.frames == DiffFrames(c, NumBlocks(c.layout)) <==> s.lost == []
  {
    hide PipelineInv, LoansOk, DownOk, DestOk, ServerOk;
    BlockCountIsNumBlocks(c.layout);
    assert QueueFrames(c.layout, s.cli.queue) == [];
    assert ClientRest(c.layout, s.cli) == [] && s.lost + [] == s.lost;
    var left := DiffFrames(c, s.cli.endIdx)[|s.frames|..];
    if s.lost == [] {
      FlowDrained(UpFraming(c.layout), s.srv.pending, left);
    } else {
      assert |s.srv.pending + (s.up + s.lost)| > 0;
      assert left != [];
    }
  }

  /** In every run that was not cut and met no disk error, once the server is done the destination equals the source
      byte for byte exactly when no compared pair of differing blocks shares a hash. */
  lemma EndToEnd(c: Config, s0: State, labels: seq<Label>)
    requires ValidConfig(c) && Init(c, s0) && Runs(c, s0, labels) && NoDiskErrors(labels)
    requires !Exec(c, s0, labels).cut && Exec(c, s0, labels).srv.finished
    ensures Exec(c, s0, labels).dest == c.src <==> NoCollision(c)
    ensures Exec(c, s0, labels).frames == DiffFrames(c, NumBlocks(c.layout))
  {
    InitInv(c, s0);
    WholeRun(c, s0, labels);
    EndToEndWithFaults(c, s0, labels);
    WholeIsUntorn(c, Exec(c, s0, labels));
  }

  lemma WholeIsUntorn(c: Config, s: State)
    requires ValidConfig(c) && AllWhole(s)
    ensures Untorn(c, s)
  {
  }

  // ---------------------------------------------------------------- hash before write

  /** Although the server overwrites the file that its workers are still reading, every hash it has taken from
      its pipeline is the hash of the block as it stood when the session began, and no block is touched before
      its hash has been taken. */
  lemma HashBeforeWrite(c: Config, s0: State, labels: seq<Label>)
    requires ValidConfig(c) && Init(c, s0) && Runs(c, s0, labels)
    ensures var s := Exec(c, s0, labels);
            && (forall k :: 0 <= k < |s.sp.received| ==>
                  InRange(c.layout, k) && s.sp.received[k].hash == c.hash(Block(c.layout, c.dst0, k)))
            && FileAgrees(ServerSetup(c), c.dst0, |s.sp.received|, s.dest)
  {
    InitInv(c, s0);
    RunInv(c, s0, labels);
    var s := Exec(c, s0, labels);
    TakenInRange(c, s);
    NotYetWritten(c, s.dest, s.frames, s.landed, s.srv.disk, s.srv.filePos, s.cli.blockIdx, Count(s.sp));
    forall k | 0 <= k < |s.sp.received|
      ensures InRange(c.layout, k) && s.sp.received[k].hash == c.hash(Block(c.layout, c.dst0, k))
    {
      assert s.sp.received[k] == ItemOf(ServerSetup(c), c.dst0, k);
    }
  }

  // ---------------------------------------------------------------- exactly the differing blocks

  lemma {:induction false} StreamSplit(fs: seq<Frame>, i: nat)
    requires i <= |fs|
    ensures Stream(fs) == Stream(fs[..i]) + Stream(fs[i..])
  {
    hide Encode;
    if i == 0 {
      assert fs[..0] == [] && fs[0..] == fs;
    } else {
      StreamSplit(fs[1..], i - 1);
      assert fs[1..][..i - 1] == fs[..i][1..] && fs[1..][i - 1..] == fs[i..];
      Regrouped(Encode(fs[0]), Stream(fs[..i][1..]), Stream(fs[i..]));
    }
  }

  /** When the client has finished, cut or not, the bytes it has put on the wire (blocks already received, the part the
      server holds, the bytes in transit and those a cut has swallowed) are exactly the frames of the blocks whose hashes differ, once each
      and in increasing offset order; nothing is left in the queue. */
  lemma ExactlyDifferingBlocksSent(c: Config, s0: State, labels: seq<Label>)
    requires ValidConfig(c) && Init(c, s0) && Runs(c, s0, labels)
    requires Exec(c, s0, labels).cli.finished
    ensures var s, all := Exec(c, s0, labels), DiffFrames(c, NumBlocks(c.layout));
            && Stream(s.frames) + (s.srv.pending + (s.up + s.lost)) == Stream(all)
            && s.cli.queue == [] && s.cli.writer.None?
            && (forall i, j :: 0 <= i < j < |all| ==> all[i].v < all[j].v)
            && (forall k: nat :: InRange(c.layout, k) ==> (BlockFrameAt(c, k) in all <==> HashesDiffer(c, k)))
  {
    InitInv(c, s0);
    RunInv(c, s0, labels);
    var s := Exec(c, s0, labels);
    SentWhenFinished(c, s);
    var n := NumBlocks(c.layout);
    DiffFramesFacts(c, n);
    BlockCountIsNumBlocks(c.layout);
    forall k: nat | InRange(c.layout, k)
      ensures BlockFrameAt(c, k) in DiffFrames(c, n) <==> HashesDiffer(c, k)
    {
      BlockCountRange(c.layout, n, k);
      DiffMembership(c, n, k);
    }
  }

  lemma SentWhenFinished(c: Config, s: State)
    requires Inv(c, s) && s.cli.finished
    ensures Stream(s.frames) + (s.srv.pending + (s.up + s.lost)) == Stream(DiffFrames(c, NumBlocks(c.layout)))
    ensures s.cli.queue == [] && s.cli.writer.None?
  {
    hide PipelineInv, LoansOk, DownOk, DestOk;
    BlockCountIsNumBlocks(c.layout);
    var all := DiffFrames(c, s.cli.endIdx);
    assert QueueFrames(c.layout, s.cli.queue) == [];
    assert s.lost + ClientRest(c.layout, s.cli) == s.lost;
    StreamSplit(all, |s.frames|);
    assert all[..|s.frames|] == s.frames;
  }

  // ---------------------------------------------------------------- loans

  /** Distinct numbers below w are at most w. */
  lemma {:induction false} Pigeonhole(xs: seq<nat>, w: nat)
    requires forall i :: 0 <= i < |xs| ==> xs[i] < w
    requires forall i, j :: 0 <= i < j < |xs| ==> xs[i] != xs[j]
    ensures |xs| <= w
  {
    if xs != [] {
      assert xs[0] < w;
      if i :| 0 <= i < |xs| && xs[i] == w - 1 {
        Pigeonhole(xs[..i] + xs[i + 1..], w - 1);
      } else {
        Pigeonhole(xs, w - 1);
      }
    }
  }

  /** The client never holds more blocks in memory than it has workers: the queue and the block being written
      are loans of distinct workers. */
  lemma LoanBound(c: Config, s0: State, labels: seq<Label>)
    requires ValidConfig(c) && Init(c, s0) && Runs(c, s0, labels)
    ensures var s := Exec(c, s0, labels);
            && |s.cli.queue| + (if s.cli.writer.Some? then 1 else 0) <= c.clientWorkers
            && (forall i, j :: 0 <= i < j < |Held(s.cli)| ==>
                  Held(s.cli)[i].idx % c.clientWorkers != Held(s.cli)[j].idx % c.clientWorkers)
  {
    InitInv(c, s0);
    RunInv(c, s0, labels);
    var s := Exec(c, s0, labels);
    HeldOwnersDistinct(c, Held(s.cli), s.cp);
  }

  lemma HeldOwnersDistinct(c: Config, held: seq<Queued>, cp: Pipeline)
    requires LoansOk(c, held, cp)
    ensures |held| <= c.clientWorkers
    ensures forall i, j :: 0 <= i < j < |held| ==> held[i].idx % c.clientWorkers != held[j].idx % c.clientWorkers
  {
    var owners := seq(|held|, i requires 0 <= i < |held| => Owner(c.clientWorkers, held[i].idx));
    forall i, j | 0 <= i < j < |held|
      ensures owners[i] != owners[j]
      ensures held[i].idx % c.clientWorkers != held[j].idx % c.clientWorkers
    {
      assert HeldLoan(c, cp, held[i]) && HeldLoan(c, cp, held[j]);
      OwnerIsModulo(c.clientWorkers, held[i].idx);
      OwnerIsModulo(c.clientWorkers, held[j].idx);
    }
    Pigeonhole(owners, c.clientWorkers);
  }

  /** How many of the held loans are worker w's. */
  function HeldBy(held: seq<Queued>, w: nat): nat {
    if held == [] then 0 else (if held[0].loan.owner == w then 1 else 0) + HeldBy(held[1..], w)
  }

  /** In how many places the buffer of client worker w is: with the worker itself (which includes a block it has still
      to send and a buffer on its way back), in the channel's slot, in the send queue or with the block writer. */
  function BufferPlaces(s: State, w: nat): nat
    requires w < |s.cp.workers|
  {
    (if s.cp.workers[w].phase.Lent? then 0 else 1)
    + (if s.cp.slot.Some? && s.cp.slot.value.loan.owner == w then 1 else 0)
    + HeldBy(s.cli.queue, w)
    + (if s.cli.writer.Some? && s.cli.writer.value.loan.owner == w then 1 else 0)
  }

  lemma HeldBySplit(cl: Client, w: nat)
    ensures HeldBy(Held(cl), w)
            == HeldBy(cl.queue, w) + if cl.writer.Some? && cl.writer.value.loan.owner == w then 1 else 0
  {
    if cl.writer.Some? {
      assert Held(cl)[1..] == cl.queue;
    } else {
      assert Held(cl) == cl.queue;
    }
  }

  lemma {:induction false} NotHeld(held: seq<Queued>, w: nat)
    requires forall i :: 0 <= i < |held| ==> held[i].loan.owner != w
    ensures HeldBy(held, w) == 0
  {
    if held != [] {
      NotHeld(held[1..], w);
    }
  }

  lemma {:induction false} HeldOnce(held: seq<Queued>, w: nat, x: nat)
    requires x < |held| && held[x].loan.owner == w
    requires forall i :: 0 <= i < |held| && i != x ==> held[i].loan.owner != w
    ensures HeldBy(held, w) == 1
  {
    if x == 0 {
      NotHeld(held[1..], w);
    } else {
      HeldOnce(held[1..], w, x - 1);
    }
  }

  lemma HeldExactlyOnce(c: Config, held: seq<Queued>, cp: Pipeline, w: nat)
    requires ValidConfig(c) && PipelineInv(ClientSetup(c), c.src, cp) && LoansOk(c, held, cp) && w < |cp.workers|
    ensures HeldBy(held, w)
            + (if cp.slot.Some? && cp.slot.value.loan.owner == w then 1 else 0)
            == if cp.workers[w].phase.Lent? then 1 else 0
  {
    WorkerOwnsBlock(ClientSetup(c), c.src, cp, w);
    var inSlot := cp.slot.Some? && cp.slot.value.loan.owner == w;
    assert inSlot ==> cp.workers[w].phase.Lent? && cp.workers[w].blockIdx == Count(cp);
    assert cp.slot.Some? && cp.workers[w].blockIdx == Count(cp) ==> inSlot;
    hide PipelineInv;
    forall i | 0 <= i < |held|
      ensures held[i].loan.owner == w ==>
                !inSlot && cp.workers[w].phase.Lent? && held[i].idx == cp.workers[w].blockIdx
    {
      assert HeldLoan(c, cp, held[i]);
    }
    if cp.workers[w].phase.Lent? && !inSlot {
      var x := HolderOf(c, held, cp, w);
      HeldOnce(held, w, x);
    } else {
      NotHeld(held, w);
    }
  }

  /** Conservation: in every reachable state the buffer of each client worker is in exactly one place, and the server,
      which drops every loan at once, has each buffer with its worker or in the slot. */
  lemma LoanConservation(c: Config, s0: State, labels: seq<Label>, w: nat)
    requires ValidConfig(c) && Init(c, s0) && Runs(c, s0, labels)
    ensures var s := Exec(c, s0, labels);
            && |s.cp.workers| == c.clientWorkers && |s.sp.workers| == c.serverWorkers
            && (w < c.clientWorkers ==> BufferPlaces(s, w) == 1)
            && (w < c.serverWorkers ==>
                  (s.sp.workers[w].phase.Lent? <==> s.sp.slot.Some? && s.sp.slot.value.loan.owner == w))
  {
    InitInv(c, s0);
    RunInv(c, s0, labels);
    var s := Exec(c, s0, labels);
    if w < c.clientWorkers {
      HeldBySplit(s.cli, w);
      HeldExactlyOnce(c, Held(s.cli), s.cp, w);
    }
    if w < c.serverWorkers {
      WorkerOwnsBlock(ServerSetup(c), c.dst0, s.sp, w);
    }
  }

  // ---------------------------------------------------------------- interruption

  /** However the connection was cut, once the server has left its loop without a disk error, every block of the
      destination is wholly the original or wholly the source block: a prefix of the differing blocks is new. */
  lemma InterruptionSafety(c: Config, s0: State, labels: seq<Label>, k: nat)
    requires ValidConfig(c) && Init(c, s0) && Runs(c, s0, labels) && InRange(c.layout, k)
    requires Exec(c, s0, labels).srv.finished && NoDiskErrors(labels)
    ensures var s := Exec(c, s0, labels);
            && |s.dest| == c.layout.size
            && s.frames <= DiffFrames(c, NumBlocks(c.layout))
            && Block(c.layout, s.dest, k)
               == Block(c.layout, if BlockFrameAt(c, k) in s.frames then c.src else c.dst0, k)
            && (BlockFrameAt(c, k) in s.frames ==> HashesDiffer(c, k))
  {
    InitInv(c, s0);
    RunInv(c, s0, labels);
    WholeRun(c, s0, labels);
    var s := Exec(c, s0, labels);
    WholeBlock(c, s, k);
  }

  lemma WholeBlock(c: Config, s: State, k: nat)
    requires ValidConfig(c) && Inv(c, s) && s.srv.finished && AllWhole(s) && InRange(c.layout, k)
    ensures |s.dest| == c.layout.size && s.frames <= DiffFrames(c, NumBlocks(c.layout))
    ensures Block(c.layout, s.dest, k) == Block(c.layout, if BlockFrameAt(c, k) in s.frames then c.src else c.dst0, k)
    ensures BlockFrameAt(c, k) in s.frames ==> HashesDiffer(c, k)
  {
    hide Inv, DiffFrames, HashesDiffer, Block, BlockFrameAt, AllWhole;
    DestWhenFinished(c, s, k);
    if BlockFrameAt(c, k) in s.frames {
      ReceivedBlockDiffers(c, s, k);
      var i :| 0 <= i < |s.frames| && s.frames[i] == BlockFrameAt(c, k);
      WholeSplit(Block(c.layout, c.src, k), Block(c.layout, c.dst0, k), s.landed[i]);
      FrameIsBlock(c, s, i, k);
    }
  }

  lemma FrameIsBlock(c: Config, s: State, i: nat, k: nat)
    requires |c.src| == |c.dst0| == c.layout.size && InRange(c.layout, k) && AllWhole(s)
    requires i < |s.landed| && i < |s.frames| && s.frames[i] == BlockFrameAt(c, k)
    ensures s.landed[i] == |Block(c.layout, c.src, k)| == |Block(c.layout, c.dst0, k)|
  {
  }

  lemma WholeSplit(a: Bytes, b: Bytes, n: nat)
    ensures n == |a| == |b| ==> a[..n] + b[n..] == a
  {
  }

  /** One attempt at a synchronisation: a configuration, a schedule and what it started from. */
  datatype Attempt = Attempt(c: Config, start: State, labels: seq<Label>)

  /** The server has left the loop of this attempt, cut or not, and met no disk error. */
  ghost predicate ValidAttempt(a: Attempt) {
    && ValidConfig(a.c) && Init(a.c, a.start) && Runs(a.c, a.start, a.labels)
    && Exec(a.c, a.start, a.labels).srv.finished && NoDiskErrors(a.labels)
  }

  ghost function Outcome(a: Attempt): State
    requires ValidAttempt(a)
  {
    Exec(a.c, a.start, a.labels)
  }

  /** `next` synchronises the same source, with the same block size and hash, into what `a` left behind; workers,
      capacities and schedule are its own. */
  ghost predicate Follows(a: Attempt, next: Attempt)
    requires ValidAttempt(a)
  {
    next.c.layout == a.c.layout && next.c.src == a.c.src && next.c.hash == a.c.hash && next.c.dst0 == Outcome(a).dest
  }

  ghost predicate Attempts(tries: seq<Attempt>) {
    && (forall i :: 0 <= i < |tries| ==> ValidAttempt(tries[i]))
    && (forall i :: 0 < i < |tries| ==> Follows(tries[i - 1], tries[i]))
  }

  /** An attempt leaves each block as it was or makes it the source's, and never sends one that already is. */
  lemma AttemptKeeps(a: Attempt, next: Attempt, k: nat)
    requires ValidAttempt(a) && ValidAttempt(next) && Follows(a, next) && InRange(a.c.layout, k)
    ensures Collision(next.c, k) ==> Collision(a.c, k)
    ensures Block(a.c.layout, a.c.dst0, k) == Block(a.c.layout, a.c.src, k) ==>
              Block(a.c.layout, next.c.dst0, k) == Block(a.c.layout, a.c.src, k)
    ensures BlockFrameAt(a.c, k) in Outcome(a).frames ==>
              Block(a.c.layout, next.c.dst0, k) == Block(a.c.layout, a.c.src, k)
  {
    InterruptionSafety(a.c, a.start, a.labels, k);
  }

  /** After any number of interrupted sessions a complete one reaches equality, if the first comparison has no
      collision; worker counts, capacities and schedules may change from session to session. */
  lemma {:induction false} RetriesReachEquality(tries: seq<Attempt>)
    requires tries != [] && Attempts(tries) && NoCollision(tries[0].c) && !Outcome(tries[|tries| - 1]).cut
    ensures Outcome(tries[|tries| - 1]).dest == tries[0].c.src
  {
    if |tries| == 1 {
      EndToEnd(tries[0].c, tries[0].start, tries[0].labels);
    } else {
      assert Follows(tries[0], tries[1]);
      forall k: nat
        ensures !Collision(tries[1].c, k)
      {
        if InRange(tries[0].c.layout, k) {
          AttemptKeeps(tries[0], tries[1], k);
          assert !Collision(tries[0].c, k);
        }
      }
      var rest := tries[1..];
      assert forall i :: 0 < i < |rest| ==> rest[i - 1] == tries[i] && rest[i] == tries[i + 1];
      RetriesReachEquality(rest);
    }
  }

  /** Block k of the destination of attempt `a` is the source's before it starts. */
  ghost predicate AlreadyEqual(a: Attempt, k: nat) {
    && ValidConfig(a.c) && InRange(a.c.layout, k)
    && Block(a.c.layout, a.c.dst0, k) == Block(a.c.layout, a.c.src, k)
  }

  lemma EqualStaysEqual(a: Attempt, next: Attempt, k: nat)
    requires ValidAttempt(a) && ValidAttempt(next) && Follows(a, next) && InRange(a.c.layout, k)
    requires AlreadyEqual(a, k) || BlockFrameAt(a.c, k) in Outcome(a).frames
    ensures AlreadyEqual(next, k)
  {
    AttemptKeeps(a, next, k);
  }

  lemma EqualIsNotSent(a: Attempt, k: nat)
    requires ValidAttempt(a) && AlreadyEqual(a, k)
    ensures BlockFrameAt(a.c, k) !in Outcome(a).frames
  {
    InterruptionSafety(a.c, a.start, a.labels, k);
  }

  /** A block that one session delivered is the source's at the start of every later one, which does not send it. */
  lemma {:induction false} DeliveredIsNotResent(tries: seq<Attempt>, i: nat, j: nat, k: nat)
    requires Attempts(tries) && i < j < |tries| && InRange(tries[i].c.layout, k)
    requires BlockFrameAt(tries[i].c, k) in Outcome(tries[i]).frames
    ensures AlreadyEqual(tries[j], k) && BlockFrameAt(tries[j].c, k) !in Outcome(tries[j]).frames
    decreases j - i
  {
    hide Runs, Exec, Init, NoDiskErrors, Block, BlockFrameAt;
    assert Follows(tries[j - 1], tries[j]) && ValidAttempt(tries[j]) && ValidAttempt(tries[j - 1]);
    if i < j - 1 {
      DeliveredIsNotResent(tries, i, j - 1, k);
    }
    EqualStaysEqual(tries[j - 1], tries[j], k);
    EqualIsNotSent(tries[j], k);
  }

  // ---------------------------------------------------------------- idempotence

  lemma {:induction false} NoDifferences(c: Config, n: nat)
    requires ValidConfig(c) && c.dst0 == c.src
    ensures DiffFrames(c, n) == []
  {
    if n > 0 && InRange(c.layout, n - 1) {
      NoDifferences(c, n - 1);
    }
  }

  lemma NonEmptyStream(fs: seq<Frame>)
    ensures Stream(fs) == [] <==> fs == []
  {
  }

  lemma IdempotentState(c: Config, s: State)
    requires Inv(c, s) && c.dst0 == c.src
    ensures s.dest == c.src && s.frames == [] && s.up == []
    ensures s.lost == [] && s.cli.queue == [] && ClientRest(c.layout, s.cli) == []
  {
    NoDifferences(c, s.cli.blockIdx);
    assert s.frames == [];
    assert |s.srv.pending + (s.up + UpRest(c, s))| == 0;
    NonEmptyStream(QueueFrames(c.layout, s.cli.queue));
    BlocksCoverFile(c.layout, s.dest, c.src);
  }

  /** Synchronising an equal file sends not a single byte and never changes the destination, in any run. */
  lemma Idempotence(c: Config, s0: State, labels: seq<Label>)
    requires ValidConfig(c) && c.dst0 == c.src && Init(c, s0) && Runs(c, s0, labels)
    ensures var s := Exec(c, s0, labels);
            && s.dest == c.src && s.frames == [] && s.up == [] && s.lost == []
            && s.cli.queue == [] && ClientRest(c.layout, s.cli) == []
  {
    InitInv(c, s0);
    RunInv(c, s0, labels);
    var s := Exec(c, s0, labels);
    IdempotentState(c, s);
  }

  /** After a completed run without collisions, a second run with the same source and block size, for any worker
      counts, capacities and schedule, sends nothing and changes nothing. */
  lemma SecondRunSendsNothing(c: Config, s0: State, labels: seq<Label>, c': Config, t0: State, labels': seq<Label>)
    requires ValidConfig(c) && NoCollision(c) && Init(c, s0) && Runs(c, s0, labels) && NoDiskErrors(labels)
    requires !Exec(c, s0, labels).cut && Exec(c, s0, labels).srv.finished
    requires ValidConfig(c') && c'.layout == c.layout && c'.src == c.src && c'.dst0 == Exec(c, s0, labels).dest
    requires Init(c', t0) && Runs(c', t0, labels')
    ensures var t := Exec(c', t0, labels'); t.dest == c.src && t.frames == [] && t.up == []
  {
    EndToEnd(c, s0, labels);
    Idempotence(c', t0, labels');
  }

  // ---------------------------------------------------------------- double buffer

  /** While a disk write is pending, in any run: the frame reader is at a frame boundary, the write buffer holds the
      source's bytes of one block, the file position is that block's offset plus the bytes written, the block's range
      holds new bytes before the position and original ones after it, and every other block is split the same way where
      its own write ended: wholly original if it was not received, wholly new unless its write failed. */
  lemma DoubleBuffer(c: Config, s0: State, labels: seq<Label>)
    requires ValidConfig(c) && Init(c, s0) && Runs(c, s0, labels) && Exec(c, s0, labels).srv.disk.Some?
    ensures var s := Exec(c, s0, labels);
            var d := s.srv.disk.value;
            && s.srv.pending == [] && |s.dest| == c.layout.size && |s.frames| == |s.landed| + 1
            && WritingSome(c, s.dest, s.frames[|s.landed|], d, s.srv.filePos)
            && (forall k: nat :: InRange(c.layout, k) && BlockFrameAt(c, k) != s.frames[|s.landed|] ==>
                  || AgreeOnBlock(c.layout, s.dest, c.dst0, k)
                  || exists i :: 0 <= i < |s.landed| && s.frames[i] == BlockFrameAt(c, k)
                                 && SplitAt(c, s.dest, k, s.landed[i]))
            && (NoDiskErrors(labels) ==> AllWhole(s))
  {
    InitInv(c, s0);
    RunInv(c, s0, labels);
    if NoDiskErrors(labels) {
      WholeRun(c, s0, labels);
    }
    BlocksDuringWrite(c, Exec(c, s0, labels));
  }

  lemma BlocksDuringWrite(c: Config, s: State)
    requires Inv(c, s) && s.srv.disk.Some?
    ensures s.srv.pending == [] && |s.dest| == c.layout.size && |s.frames| == |s.landed| + 1
    ensures WritingSome(c, s.dest, s.frames[|s.landed|], s.srv.disk.value, s.srv.filePos)
    ensures forall k: nat :: InRange(c.layout, k) && BlockFrameAt(c, k) != s.frames[|s.landed|] ==>
              || AgreeOnBlock(c.layout, s.dest, c.dst0, k)
              || exists i :: 0 <= i < |s.landed| && s.frames[i] == BlockFrameAt(c, k)
                             && SplitAt(c, s.dest, k, s.landed[i])
  {
    hide PipelineInv, LoansOk, ClientOk, DownOk, UpOk, WritingSome, AgreeOnBlock, SplitAt;
    forall k: nat | InRange(c.layout, k) && BlockFrameAt(c, k) != s.frames[|s.landed|] && BlockFrameAt(c, k) in s.frames
      ensures exists i :: 0 <= i < |s.landed| && s.frames[i] == BlockFrameAt(c, k) && SplitAt(c, s.dest, k, s.landed[i])
    {
      var i :| 0 <= i < |s.frames| && s.frames[i] == BlockFrameAt(c, k);
      assert Landed(c, s.dest, s.frames[i], s.landed[i]);
    }
  }
}
