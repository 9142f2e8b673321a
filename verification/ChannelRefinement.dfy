/**
 The hashing pipeline uses the ordered channel as `OrderedChannel` models it: every run of the workers
 and their receiver is a run of a channel with the same shared state, slot and received values.
 */
module ChannelRefinement {
  import opened Wire
  import opened Geometry
  import opened HashPipeline
  import opened HashPipelineProofs
  import opened HashPipelineProgress
  import Ch = OrderedChannel

  /** Call i of the channel is the `send` that this worker is in. */
  predicate InCall(ch: Ch.Channel<Item>, i: nat, wk: Worker) {
    && i < |ch.calls|
    && (wk.phase.Sending? ==> ch.calls[i] == Ch.Call(wk.blockIdx, wk.phase.item, Ch.Trying))
    && (wk.phase.Asleep? ==> ch.calls[i] == Ch.Call(wk.blockIdx, wk.phase.item, Ch.Sleeping))
  }

  ghost predicate HasOwnCall(ch: Ch.Channel<Item>, wk: Worker) {
    wk.phase.Sending? || wk.phase.Asleep? ==> exists i :: InCall(ch, i, wk)
  }

  /** Index `idx` has been sent by this worker's current call or by an earlier one. */
  predicate SentBefore(wk: Worker, idx: nat) {
    if wk.phase.LoopHead? || wk.phase.Reading? then idx < wk.blockIdx else idx <= wk.blockIdx
  }

  ghost predicate Matches(s: Setup, p: Pipeline, ch: Ch.Channel<Item>) {
    && |p.workers| == s.w
    && ch.st == p.st && ch.slot == p.slot && ch.received == p.received
    && Ch.ChannelInv(ch)
    && (forall w :: 0 <= w < |p.workers| ==> HasOwnCall(ch, p.workers[w]))
    && (forall i :: 0 <= i < |ch.calls| ==> SentBefore(p.workers[Owner(s.w, ch.calls[i].idx)], ch.calls[i].idx))
  }

  lemma InitMatches(s: Setup, p: Pipeline)
    requires PipelineInit(s, p)
    ensures Matches(s, p, Ch.NewChannel<Item>())
  {
  }

  lemma OneEvent(ch: Ch.Channel<Item>, e: Ch.Event<Item>)
    requires Ch.CanHappen(ch, e)
    ensures Ch.Happens(ch, [e]) && Ch.After(ch, [e]) == Ch.Happen(ch, e)
  {
    var ch' := Ch.Happen(ch, e);
    assert [e][1..] == [];
    assert Ch.Happens(ch', []) && Ch.After(ch', []) == ch';
  }

  lemma TwoEvents(ch: Ch.Channel<Item>, d: Ch.Event<Item>, e: Ch.Event<Item>)
    requires Ch.CanHappen(ch, d) && Ch.CanHappen(Ch.Happen(ch, d), e)
    ensures Ch.Happens(ch, [d, e]) && Ch.After(ch, [d, e]) == Ch.Happen(Ch.Happen(ch, d), e)
  {
    OneEvent(Ch.Happen(ch, d), e);
    assert [d, e][1..] == [e];
  }

  // ---------------------------------------------------------------- workers

  /** A worker's step outside `send`. */
  lemma QuietMatches(s: Setup, p: Pipeline, ch: Ch.Channel<Item>, w: nat, wk: Worker)
    requires Matches(s, p, ch) && w < |p.workers| && !wk.phase.Sending? && !wk.phase.Asleep?
    requires forall idx :: SentBefore(p.workers[w], idx) ==> SentBefore(wk, idx)
    ensures Matches(s, SetWorker(p, w, wk), ch)
  {
  }

  /** A worker that has hashed its block calls `send` with an index no call has used. */
  lemma StartMatches(s: Setup, f: Bytes, p: Pipeline, ch: Ch.Channel<Item>, w: nat, wk: Worker) returns (e: Ch.Event<Item>)
    requires PipelineInv(s, f, p) && Matches(s, p, ch) && w < |p.workers| && p.workers[w].phase.Reading?
    requires wk.phase.Sending? && wk.blockIdx == p.workers[w].blockIdx
    ensures Ch.CanHappen(ch, e) && Matches(s, SetWorker(p, w, wk), Ch.Happen(ch, e))
  {
    assert WorkerOk(s, f, p.workers[w], w, Count(p), Sent(p), p.st);
    hide PipelineInv, WorkerOk;
    var idx := wk.blockIdx;
    forall i | 0 <= i < |ch.calls|
      ensures ch.calls[i].idx != idx
    {
      assert SentBefore(p.workers[Owner(s.w, ch.calls[i].idx)], ch.calls[i].idx);
    }
    e := Ch.Start(idx, wk.phase.item);
    Ch.EventKeeps(ch, e);
    var ch' := Ch.Happen(ch, e);
    CallsGrow(p, ch, ch');
    assert InCall(ch', |ch.calls|, wk);
  }

  lemma CallsGrow(p: Pipeline, ch: Ch.Channel<Item>, ch': Ch.Channel<Item>)
    requires ch.calls <= ch'.calls && forall v :: 0 <= v < |p.workers| ==> HasOwnCall(ch, p.workers[v])
    ensures forall v :: 0 <= v < |p.workers| ==> HasOwnCall(ch', p.workers[v])
  {
    forall v | 0 <= v < |p.workers| && (p.workers[v].phase.Sending? || p.workers[v].phase.Asleep?)
      ensures HasOwnCall(ch', p.workers[v])
    {
      var i :| InCall(ch, i, p.workers[v]);
      assert InCall(ch', i, p.workers[v]);
    }
  }

  /** Changing the status of worker w's call leaves the calls of all other workers alone. */
  lemma OthersKeepCalls(s: Setup, f: Bytes, p: Pipeline, ch: Ch.Channel<Item>, ch': Ch.Channel<Item>, w: nat, i: nat)
    requires PipelineInv(s, f, p) && Matches(s, p, ch) && w < |p.workers| && i < |ch.calls|
    requires ch.calls[i].idx == p.workers[w].blockIdx
    requires |ch'.calls| == |ch.calls| && ch'.calls == ch.calls[i := ch'.calls[i]]
    ensures forall v :: 0 <= v < |p.workers| && v != w ==> HasOwnCall(ch', p.workers[v])
  {
    forall v | 0 <= v < |p.workers| && v != w && (p.workers[v].phase.Sending? || p.workers[v].phase.Asleep?)
      ensures HasOwnCall(ch', p.workers[v])
    {
      assert HasOwnCall(ch, p.workers[v]);
      var j :| InCall(ch, j, p.workers[v]);
      assert WorkerOk(s, f, p.workers[v], v, Count(p), Sent(p), p.st);
      assert WorkerOk(s, f, p.workers[w], w, Count(p), Sent(p), p.st);
      assert i != j;
      assert InCall(ch', j, p.workers[v]);
    }
  }

  /** A step of worker w inside `send`, and the same step of its call i. */
  lemma CallStepMatches(s: Setup, f: Bytes, p: Pipeline, p': Pipeline, ch: Ch.Channel<Item>, ch': Ch.Channel<Item>, w: nat, i: nat)
    requires PipelineInv(s, f, p) && Matches(s, p, ch) && Ch.ChannelInv(ch') && w < |p.workers| && i < |ch.calls|
    requires ch.calls[i].idx == p.workers[w].blockIdx && (p.workers[w].phase.Sending? || p.workers[w].phase.Asleep?)
    requires |ch'.calls| == |ch.calls| && ch'.calls == ch.calls[i := ch'.calls[i]] && ch'.calls[i].idx == ch.calls[i].idx
    requires |p'.workers| == |p.workers| && p'.workers == p.workers[w := p'.workers[w]]
    requires p'.workers[w].blockIdx == p.workers[w].blockIdx && InCall(ch', i, p'.workers[w])
    requires !p'.workers[w].phase.LoopHead? && !p'.workers[w].phase.Reading?
    requires ch'.st == p'.st && ch'.slot == p'.slot && ch'.received == p'.received
    ensures Matches(s, p', ch')
  {
    OthersKeepCalls(s, f, p, ch, ch', w, i);
    hide PipelineInv;
    forall k | 0 <= k < |ch'.calls|
      ensures SentBefore(p'.workers[Owner(s.w, ch'.calls[k].idx)], ch'.calls[k].idx)
    {
      assert SentBefore(p.workers[Owner(s.w, ch.calls[k].idx)], ch.calls[k].idx);
    }
  }

  /** Worker w's call and what it says about the worker's item. */
  lemma OwnCall(s: Setup, f: Bytes, p: Pipeline, ch: Ch.Channel<Item>, w: nat) returns (i: nat)
    requires PipelineInv(s, f, p) && Matches(s, p, ch) && w < |p.workers|
    requires p.workers[w].phase.Sending? || p.workers[w].phase.Asleep?
    ensures InCall(ch, i, p.workers[w]) && p.workers[w].phase.item.idx == p.workers[w].blockIdx
  {
    assert HasOwnCall(ch, p.workers[w]);
    i :| InCall(ch, i, p.workers[w]);
    assert WorkerOk(s, f, p.workers[w], w, Count(p), Sent(p), p.st);
  }

  lemma MatchesFacts(s: Setup, p: Pipeline, ch: Ch.Channel<Item>)
    requires Matches(s, p, ch)
    ensures ch.st == p.st && ch.slot == p.slot && ch.received == p.received && Ch.ChannelInv(ch)
  {
  }

  /** A worker in `send` that tries is one pass of its call. */
  lemma SendMatches(s: Setup, f: Bytes, p: Pipeline, ch: Ch.Channel<Item>, w: nat) returns (e: Ch.Event<Item>)
    requires PipelineInv(s, f, p) && Matches(s, p, ch)
    requires w < |p.workers| && p.workers[w].phase.Sending? && !BlocksUnderLock(p, w)
    ensures Ch.CanHappen(ch, e) && Matches(s, DoSend(p, w), Ch.Happen(ch, e))
  {
    hide PipelineInv, Matches, Ch.ChannelInv;
    MatchesFacts(s, p, ch);
    var i := OwnCall(s, f, p, ch, w);
    e := Ch.Pass(i);
    Ch.EventKeeps(ch, e);
    CallStepMatches(s, f, p, DoSend(p, w), ch, Ch.Happen(ch, e), w, i);
  }

  lemma WakeMatches(s: Setup, f: Bytes, p: Pipeline, ch: Ch.Channel<Item>, w: nat) returns (e: Ch.Event<Item>)
    requires PipelineInv(s, f, p) && Matches(s, p, ch) && w < |p.workers| && p.workers[w].phase.Asleep?
    ensures Ch.CanHappen(ch, e) && Matches(s, SetWorker(p, w, Woken(p.workers[w])), Ch.Happen(ch, e))
  {
    hide PipelineInv, Matches, Ch.ChannelInv;
    MatchesFacts(s, p, ch);
    var i := OwnCall(s, f, p, ch, w);
    e := Ch.Spurious(i);
    Ch.EventKeeps(ch, e);
    CallStepMatches(s, f, p, SetWorker(p, w, Woken(p.workers[w])), ch, Ch.Happen(ch, e), w, i);
  }

  // ---------------------------------------------------------------- notifications

  /** `notify_all` wakes the calls of exactly the workers that it wakes. */
  lemma NotifyMatches(p: Pipeline, ch: Ch.Channel<Item>, ch': Ch.Channel<Item>)
    requires forall w :: 0 <= w < |p.workers| ==> HasOwnCall(ch, p.workers[w])
    requires ch'.calls == Ch.NotifyAll(ch.calls)
    ensures forall w :: 0 <= w < |p.workers| ==> HasOwnCall(ch', Woken(p.workers[w]))
  {
    forall w | 0 <= w < |p.workers| && (p.workers[w].phase.Sending? || p.workers[w].phase.Asleep?)
      ensures HasOwnCall(ch', Woken(p.workers[w]))
    {
      assert HasOwnCall(ch, p.workers[w]);
      var i :| InCall(ch, i, p.workers[w]);
      assert InCall(ch', i, Woken(p.workers[w]));
    }
  }

  /** A change of the shared state with `notify_all`, on both levels. */
  lemma NotifiedMatches(s: Setup, p: Pipeline, p': Pipeline, ch: Ch.Channel<Item>, ch': Ch.Channel<Item>)
    requires Matches(s, p, ch) && Ch.ChannelInv(ch')
    requires p'.workers == WakeAll(p.workers) && ch'.calls == Ch.NotifyAll(ch.calls)
    requires ch'.st == p'.st && ch'.slot == p'.slot && ch'.received == p'.received
    ensures Matches(s, p', ch')
  {
    NotifyMatches(p, ch, ch');
    forall i | 0 <= i < |ch'.calls|
      ensures SentBefore(p'.workers[Owner(s.w, ch'.calls[i].idx)], ch'.calls[i].idx)
    {
      assert SentBefore(p.workers[Owner(s.w, ch.calls[i].idx)], ch.calls[i].idx);
    }
  }

  /** `recv` asks for the next index; a receive that was pending is cancelled first. */
  lemma WantMatches(s: Setup, p: Pipeline, ch: Ch.Channel<Item>) returns (es: seq<Ch.Event<Item>>)
    requires Matches(s, p, ch) && !p.st.receiving
    ensures Ch.Happens(ch, es) && Matches(s, DoWant(p), Ch.After(ch, es))
  {
    var ch1 := ch.(inRecv := false);
    if ch.inRecv {
      Ch.EventKeeps(ch, Ch.RecvCancel);
      TwoEvents(ch, Ch.RecvCancel, Ch.RecvPoll);
      es := [Ch.RecvCancel, Ch.RecvPoll];
    } else {
      OneEvent(ch, Ch.RecvPoll);
      es := [Ch.RecvPoll];
    }
    SameCalls(s, p, p, ch, ch1);
    Ch.EventKeeps(ch1, Ch.RecvPoll);
    NotifiedMatches(s, p, DoWant(p), ch1, Ch.Happen(ch1, Ch.RecvPoll));
  }

  /** A cancelled `recv` that is polled again completes like one that was not. */
  lemma TakeMatches(s: Setup, p: Pipeline, ch: Ch.Channel<Item>) returns (es: seq<Ch.Event<Item>>)
    requires Matches(s, p, ch) && p.st.receiving && p.slot.Some?
    ensures Ch.Happens(ch, es) && Matches(s, DoTake(p), Ch.After(ch, es))
  {
    var ch1 := ch.(inRecv := true);
    if ch.inRecv {
      OneEvent(ch, Ch.RecvReady);
      es := [Ch.RecvReady];
    } else {
      Ch.EventKeeps(ch, Ch.RecvPoll);
      TwoEvents(ch, Ch.RecvPoll, Ch.RecvReady);
      es := [Ch.RecvPoll, Ch.RecvReady];
    }
    Ch.EventKeeps(ch1, Ch.RecvReady);
    SameCalls(s, p, DoTake(p), ch, Ch.Happen(ch1, Ch.RecvReady));
  }

  lemma SameCalls(s: Setup, p: Pipeline, p': Pipeline, ch: Ch.Channel<Item>, ch': Ch.Channel<Item>)
    requires Matches(s, p, ch) && p'.workers == p.workers && ch'.calls == ch.calls && Ch.ChannelInv(ch')
    requires ch'.st == p'.st && ch'.slot == p'.slot && ch'.received == p'.received
    ensures Matches(s, p', ch')
  {
    CallsGrow(p, ch, ch');
  }

  /** The receiver closes, its pending `recv` cancelled. */
  lemma CloseMatches(s: Setup, p: Pipeline, ch: Ch.Channel<Item>) returns (es: seq<Ch.Event<Item>>)
    requires Matches(s, p, ch)
    ensures Ch.Happens(ch, es) && Matches(s, DoClose(p), Ch.After(ch, es))
  {
    var ch1 := ch.(inRecv := false);
    if ch.inRecv {
      Ch.EventKeeps(ch, Ch.RecvCancel);
      TwoEvents(ch, Ch.RecvCancel, Ch.ReceiverClose);
      es := [Ch.RecvCancel, Ch.ReceiverClose];
    } else {
      OneEvent(ch, Ch.ReceiverClose);
      es := [Ch.ReceiverClose];
    }
    SameCalls(s, p, p, ch, ch1);
    Ch.EventKeeps(ch1, Ch.ReceiverClose);
    NotifiedMatches(s, p, DoClose(p), ch1, Ch.Happen(ch1, Ch.ReceiverClose));
  }

  /** A worker that fails leaves `send` for good and closes the channel. */
  lemma FailMatches(s: Setup, p: Pipeline, ch: Ch.Channel<Item>, w: nat) returns (es: seq<Ch.Event<Item>>)
    requires Matches(s, p, ch) && w < |p.workers|
    ensures Ch.Happens(ch, es)
    ensures Matches(s, DoClose(SetWorker(p, w, p.workers[w].(phase := Exited)).(failed := true)), Ch.After(ch, es))
  {
    var q := SetWorker(p, w, p.workers[w].(phase := Exited)).(failed := true);
    QuietMatches(s, p, ch, w, p.workers[w].(phase := Exited));
    assert Matches(s, q, ch);
    OneEvent(ch, Ch.SenderClose);
    es := [Ch.SenderClose];
    Ch.EventKeeps(ch, Ch.SenderClose);
    NotifiedMatches(s, q, DoClose(q), ch, Ch.Happen(ch, Ch.SenderClose));
  }

  // ---------------------------------------------------------------- runs

  lemma WorkerActionMatches(s: Setup, f: Bytes, p: Pipeline, ch: Ch.Channel<Item>, a: Action, file: Bytes)
    returns (es: seq<Ch.Event<Item>>)
    requires PipelineInv(s, f, p) && Matches(s, p, ch) && Enabled(s, p, a, file)
    requires a.Loop? || a.Read? || a.Reclaim? || a.Drop?
    ensures Ch.Happens(ch, es) && Matches(s, Apply(s, p, a, file), Ch.After(ch, es))
  {
    var p' := Apply(s, p, a, file);
    var wk := p'.workers[a.w];
    assert p' == SetWorker(p, a.w, wk);
    hide PipelineInv, Apply, Enabled, Matches;
    if wk.phase.Sending? {
      var e := StartMatches(s, f, p, ch, a.w, wk);
      OneEvent(ch, e);
      es := [e];
    } else {
      QuietMatches(s, p, ch, a.w, wk);
      es := [];
    }
  }

  /** Every action of the pipeline is a sequence of events of the channel. */
  lemma ActionIsChannelEvents(s: Setup, f: Bytes, p: Pipeline, ch: Ch.Channel<Item>, a: Action, file: Bytes)
    returns (es: seq<Ch.Event<Item>>)
    requires PipelineInv(s, f, p) && Matches(s, p, ch) && Enabled(s, p, a, file)
    ensures Ch.Happens(ch, es) && Matches(s, Apply(s, p, a, file), Ch.After(ch, es))
  {
    hide PipelineInv, Matches;
    match a {
      case Send(w) =>
        var e := SendMatches(s, f, p, ch, w);
        OneEvent(ch, e);
        es := [e];
      case Wake(w) =>
        var e := WakeMatches(s, f, p, ch, w);
        OneEvent(ch, e);
        es := [e];
      case Fail(w) => es := FailMatches(s, p, ch, w);
      case Want => es := WantMatches(s, p, ch);
      case Take => es := TakeMatches(s, p, ch);
      case Close => es := CloseMatches(s, p, ch);
      case _ => es := WorkerActionMatches(s, f, p, ch, a, file);
    }
  }

  lemma {:induction false} EventsConcat(ch: Ch.Channel<Item>, xs: seq<Ch.Event<Item>>, ys: seq<Ch.Event<Item>>)
    requires Ch.Happens(ch, xs) && Ch.Happens(Ch.After(ch, xs), ys)
    ensures Ch.Happens(ch, xs + ys) && Ch.After(ch, xs + ys) == Ch.After(Ch.After(ch, xs), ys)
    decreases |xs|
  {
    if xs == [] {
      assert xs + ys == ys;
    } else {
      assert (xs + ys)[0] == xs[0] && (xs + ys)[1..] == xs[1..] + ys;
      EventsConcat(Ch.Happen(ch, xs[0]), xs[1..], ys);
    }
  }

  lemma {:induction false} RunMatches(s: Setup, f: Bytes, p: Pipeline, ch: Ch.Channel<Item>, acts: seq<Action>)
    returns (es: seq<Ch.Event<Item>>)
    requires PipelineInv(s, f, p) && Matches(s, p, ch) && PipelineRuns(s, p, acts, f)
    ensures Ch.Happens(ch, es) && Matches(s, PipelineExec(s, p, acts, f), Ch.After(ch, es))
    decreases |acts|
  {
    hide Matches;
    if acts == [] {
      es := [];
    } else {
      var first := ActionIsChannelEvents(s, f, p, ch, acts[0], f);
      StepInv(s, f, p, acts[0], f);
      var rest := RunMatches(s, f, Apply(s, p, acts[0], f), Ch.After(ch, first), acts[1..]);
      EventsConcat(ch, first, rest);
      es := first + rest;
    }
  }

  /** Some call of `send` had index k and this item. */
  predicate SentAs(ch: Ch.Channel<Item>, k: nat, item: Item) {
    exists i :: 0 <= i < |ch.calls| && ch.calls[i].idx == k && ch.calls[i].value == item
  }

  /** Every run of the pipeline is a run of the ordered channel with the same shared state, the same slot and the same
      received items, so what holds for all runs of the channel holds for the pipeline: each received item was sent
      with its position as index. */
  lemma PipelineIsChannelRun(s: Setup, f: Bytes, p0: Pipeline, acts: seq<Action>) returns (es: seq<Ch.Event<Item>>)
    requires |f| == s.layout.size && PipelineInit(s, p0) && PipelineRuns(s, p0, acts, f)
    ensures Ch.Happens(Ch.NewChannel<Item>(), es)
    ensures var p, ch := PipelineExec(s, p0, acts, f), Ch.After(Ch.NewChannel<Item>(), es);
            && ch.st == p.st && ch.slot == p.slot && ch.received == p.received
            && (forall k :: 0 <= k < |p.received| ==>
                  SentAs(ch, k, p.received[k]))
  {
    PipelineInitInv(s, f, p0);
    InitMatches(s, p0);
    es := RunMatches(s, f, p0, Ch.NewChannel<Item>(), acts);
    var ch := Ch.After(Ch.NewChannel<Item>(), es);
    forall k | 0 <= k < |ch.received|
      ensures SentAs(ch, k, ch.received[k])
    {
      Ch.ReceivedWasSent(es, k);
    }
  }
}
