/** What every run of the hashing pipeline over an unchanged file guarantees. */
module HashPipelineTheorems {
  import opened Wire
  import opened Geometry
  import opened ChannelState
  import opened HashPipeline
  import opened HashPipelineProofs
  import opened HashPipelineProgress

  lemma {:induction false} PipelineRunInv(s: Setup, f: Bytes, p: Pipeline, acts: seq<Action>)
    requires PipelineInv(s, f, p) && PipelineRuns(s, p, acts, f)
    ensures PipelineInv(s, f, PipelineExec(s, p, acts, f))
    decreases |acts|
  {
    if acts != [] {
      StepInv(s, f, p, acts[0], f);
      PipelineRunInv(s, f, Apply(s, p, acts[0], f), acts[1..]);
    }
  }

  // ---------------------------------------------------------------- refinement of a sequential pass

  datatype Hashed = Hashed(idx: nat, hash: Bytes, data: Bytes)

  /** One reader going once over the file from `offset`, numbering blocks from `idx`. */
  function SequentialPass(s: Setup, f: Bytes, offset: nat, idx: nat): seq<Hashed>
    requires |f| == s.layout.size
    decreases s.layout.size - offset
  {
    if offset >= s.layout.size then []
    else
      var data := f[offset..offset + LenAt(s.layout, offset)];
      [Hashed(idx, s.hash(data), data)] + SequentialPass(s, f, offset + |data|, idx + 1)
  }

  lemma {:induction false} SequentialPassItems(s: Setup, f: Bytes, idx: nat, k: nat)
    requires |f| == s.layout.size && idx <= k && InRange(s.layout, k)
    ensures var pass := SequentialPass(s, f, Start(s.layout, idx), idx);
            k - idx < |pass| && pass[k - idx] == Hashed(k, s.hash(Block(s.layout, f, k)), Block(s.layout, f, k))
    decreases k - idx
  {
    if idx < k {
      StartMonotone(s.layout, idx, k);
      SequentialPassItems(s, f, idx + 1, k);
    }
  }

  lemma {:induction false} SequentialPassLength(s: Setup, f: Bytes, idx: nat)
    requires |f| == s.layout.size && idx <= NumBlocks(s.layout)
    ensures |SequentialPass(s, f, Start(s.layout, idx), idx)| == NumBlocks(s.layout) - idx
    decreases NumBlocks(s.layout) - idx
  {
    IndexInRange(s.layout, idx);
    if idx < NumBlocks(s.layout) {
      var len := LenAt(s.layout, Start(s.layout, idx));
      if len == s.layout.bs {
        SequentialPassLength(s, f, idx + 1);
      } else {
        IndexInRange(s.layout, idx + 1);
        assert |SequentialPass(s, f, Start(s.layout, idx) + len, idx + 1)| == 0;
      }
    }
  }

  function Project(items: seq<Item>): seq<Hashed> {
    seq(|items|, i requires 0 <= i < |items| => Hashed(items[i].idx, items[i].hash, items[i].loan.data))
  }

  /** For every number of workers, block size, file and schedule, with any cancelled receives and even with
      failing workers, what has been received is a prefix of one sequential pass over the file; its length is
      fixed by the channel's shared state; and without failure or closing, the end of the stream comes only
      after the whole pass. */
  lemma ParallelRefinesSequential(s: Setup, f: Bytes, p0: Pipeline, acts: seq<Action>)
    requires |f| == s.layout.size && PipelineInit(s, p0) && PipelineRuns(s, p0, acts, f)
    ensures var p, pass := PipelineExec(s, p0, acts, f), SequentialPass(s, f, 0, 0);
            && |p.received| == CountOf(p.st)
            && Project(p.received) <= pass
            && (AllExited(p) && p.slot.None? && !p.st.closed ==> Project(p.received) == pass)
  {
    PipelineInitInv(s, f, p0);
    PipelineRunInv(s, f, p0, acts);
    ReceivedIsPrefix(s, f, PipelineExec(s, p0, acts, f));
  }

  lemma ReceivedIsPrefix(s: Setup, f: Bytes, p: Pipeline)
    requires PipelineInv(s, f, p)
    ensures |p.received| == CountOf(p.st) && Project(p.received) <= SequentialPass(s, f, 0, 0)
    ensures AllExited(p) && p.slot.None? && !p.st.closed ==> Project(p.received) == SequentialPass(s, f, 0, 0)
  {
    var pass := SequentialPass(s, f, 0, 0);
    SequentialPassLength(s, f, 0);
    CountInRange(s, f, p);
    forall k | 0 <= k < |p.received|
      ensures Project(p.received)[k] == pass[k]
    {
      assert InRange(s.layout, k) && p.received[k] == ItemOf(s, f, k);
      SequentialPassItems(s, f, 0, k);
    }
    if AllExited(p) && p.slot.None? && !p.st.closed {
      NoneMeansAllTaken(s, f, p);
      IndexInRange(s.layout, Count(p));
    }
  }

  // ---------------------------------------------------------------- no lost wake-up

  /** In every reachable state nobody sleeps whose index is wanted or whose channel is closed, a full slot means an
      outstanding receive for exactly that item, and no sender can block in `blocking_send` holding the lock. */
  lemma NoLostWakeup(s: Setup, f: Bytes, p0: Pipeline, acts: seq<Action>, w: nat)
    requires |f| == s.layout.size && PipelineInit(s, p0) && PipelineRuns(s, p0, acts, f) && w < s.w
    ensures var p := PipelineExec(s, p0, acts, f);
            && w < |p.workers|
            && (p.workers[w].phase.Asleep? ==> !p.st.closed && p.st.wanted != Some(p.workers[w].phase.item.idx))
            && (p.slot.Some? ==> p.st.receiving && p.st.wanted == Some(p.slot.value.idx))
            && !BlocksUnderLock(p, w)
  {
    PipelineInitInv(s, f, p0);
    PipelineRunInv(s, f, p0, acts);
    var p := PipelineExec(s, p0, acts, f);
    assert WorkerOk(s, f, p.workers[w], w, Count(p), Sent(p), p.st);
    if p.workers[w].phase.Sending? {
      NeverBlocksUnderLock(s, f, p, w);
    }
  }

  // ---------------------------------------------------------------- what the schedules range over

  /** In every reachable state a worker inside `read_exact` may get any number of the bytes it misses, a sleeper may wake
      up at any time, and a worker may meet an I/O error wherever it opens, reads or seeks; the error closes the channel
      for all, and no worker that then looks at the error flag starts another block. */
  lemma SchedulesAreFree(s: Setup, f: Bytes, p0: Pipeline, acts: seq<Action>, w: nat, n: nat)
    requires |f| == s.layout.size && PipelineInit(s, p0) && PipelineRuns(s, p0, acts, f) && w < s.w
    ensures var p := PipelineExec(s, p0, acts, f);
            && w < |p.workers|
            && (p.workers[w].phase.Reading? ==> p.workers[w].offset < s.layout.size)
            && (p.workers[w].phase.Reading? && 0 < n <= LenAt(s.layout, p.workers[w].offset) - |p.workers[w].phase.buf| ==>
                  && Enabled(s, p, Read(w, n), f)
                  && Apply(s, p, Read(w, n), f).workers[w].filePos == p.workers[w].filePos + n)
            && (p.workers[w].phase.Asleep? ==>
                  && Enabled(s, p, Wake(w), f)
                  && Apply(s, p, Wake(w), f).workers[w].phase == Sending(p.workers[w].phase.item))
            && (p.workers[w].phase.LoopHead? || p.workers[w].phase.Reading? || p.workers[w].phase.Returned? ==>
                  && Enabled(s, p, Fail(w), f)
                  && var q := Apply(s, p, Fail(w), f); q.failed && q.st.closed && q.workers[w].phase.Exited?)
            && (p.workers[w].phase.LoopHead? && p.failed ==>
                  Enabled(s, p, Loop(w), f) && Apply(s, p, Loop(w), f).workers[w].phase.Exited?)
  {
    PipelineInitInv(s, f, p0);
    PipelineRunInv(s, f, p0, acts);
    var p := PipelineExec(s, p0, acts, f);
    assert WorkerOk(s, f, p.workers[w], w, Count(p), Sent(p), p.st);
  }

  // ---------------------------------------------------------------- stride arithmetic

  /** Workers keep to their residue class, a worker that reads is positioned inside its own block right behind the
      bytes it has, and for accepted block sizes and file sizes below 2^63 no offset leaves 64 bits. */
  lemma StrideArithmetic(s: Setup, f: Bytes, p0: Pipeline, acts: seq<Action>, w: nat)
    requires |f| == s.layout.size && PipelineInit(s, p0) && PipelineRuns(s, p0, acts, f) && w < s.w
    ensures var p := PipelineExec(s, p0, acts, f);
            && w < |p.workers|
            && p.workers[w].blockIdx % s.w == w
            && p.workers[w].offset == p.workers[w].blockIdx * s.layout.bs
            && (p.workers[w].phase.Reading? ==>
                  p.workers[w].filePos == p.workers[w].offset + |p.workers[w].phase.buf|)
            && (s.layout.bs <= 0x4000_0000 && s.layout.size < 0x8000_0000_0000_0000 && s.w <= 255 ==>
                  p.workers[w].offset < U64_LIMIT)
  {
    PipelineInitInv(s, f, p0);
    PipelineRunInv(s, f, p0, acts);
    var p := PipelineExec(s, p0, acts, f);
    assert WorkerOk(s, f, p.workers[w], w, Count(p), Sent(p), p.st);
    OwnerIsModulo(s.w, p.workers[w].blockIdx);
    StartIsProduct(s.layout, p.workers[w].blockIdx);
    CountInRange(s, f, p);
    OffsetBound(s.layout, s.w, p.workers[w].blockIdx);
  }

  lemma OffsetBound(l: Layout, w: pos, idx: nat)
    requires idx < NumBlocks(l) + w
    ensures l.bs <= 0x4000_0000 && l.size < 0x8000_0000_0000_0000 && w <= 255 ==> Start(l, idx) < U64_LIMIT
  {
    if l.bs <= 0x4000_0000 && w <= 255 && idx > 0 {
      if idx < w {
        ScaleBound(l.bs, idx);
      } else {
        IndexInRange(l, idx - w);
        ScaleAdd(l.bs, idx - w, w);
        ScaleBound(l.bs, w);
      }
    }
  }

  lemma {:induction false} ScaleBound(bs: nat, k: nat)
    requires bs <= 0x4000_0000
    ensures Scale(bs, k) <= Scale(0x4000_0000, k)
    ensures k <= 255 ==> Scale(bs, k) <= 0x40_0000_0000
  {
    ScaleIsProduct(0x4000_0000, k);
    if k > 0 {
      ScaleBound(bs, k - 1);
    }
  }
}
