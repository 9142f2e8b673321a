/**
 The ordered channel of src/sync.rs for arbitrary senders: any number of threads may call `send`,
 each with an index that no other call uses, while the receiver calls `recv`, loses any number of
 those calls to cancellation, and finally closes.
 */
module OrderedChannel {
  import opened Wire
  import opened ChannelState

  datatype Status = Trying | Sleeping | Delivered | Rejected

  /** One call of `send`. */
  datatype Call<T> = Call(idx: nat, value: T, status: Status)

  /** `inRecv`: a `recv` future exists. `received` is history. */
  datatype Channel<T> = Channel(
    calls: seq<Call<T>>, st: SharedState, slot: Option<T>, inRecv: bool, received: seq<T>)

  datatype Event<T> =
    | Start(idx: nat, value: T)  // a thread calls send
    | Pass(i: nat)               // call i runs one locked pass of the loop in `send`
    | Spurious(i: nat)           // call i wakes up without a notification
    | SenderClose                // a sender closes the channel
    | RecvPoll                   // `recv` is called and polled
    | RecvCancel                 // the `recv` future is dropped
    | RecvReady                  // the `recv` future completes
    | ReceiverClose

  function WokenCall<T>(c: Call<T>): Call<T> {
    if c.status.Sleeping? then c.(status := Trying) else c
  }

  /** `notify_all`. */
  function NotifyAll<T>(cs: seq<Call<T>>): (r: seq<Call<T>>)
    ensures |r| == |cs| && forall i :: 0 <= i < |cs| ==> r[i] == WokenCall(cs[i])
  {
    seq(|cs|, i requires 0 <= i < |cs| => WokenCall(cs[i]))
  }

  predicate FreshIdx<T>(ch: Channel<T>, idx: nat) {
    forall i :: 0 <= i < |ch.calls| ==> ch.calls[i].idx != idx
  }

  predicate CanHappen<T>(ch: Channel<T>, e: Event<T>) {
    match e
    case Start(idx, _) => FreshIdx(ch, idx)
    case Pass(i) =>
      && i < |ch.calls| && ch.calls[i].status.Trying?
      && !(SendOutcomeOf(ch.st, ch.calls[i].idx).Placed? && ch.slot.Some?)
    case Spurious(i) => i < |ch.calls| && ch.calls[i].status.Sleeping?
    case SenderClose => true
    case RecvPoll => !ch.inRecv
    case RecvCancel => ch.inRecv
    case RecvReady => ch.inRecv && ch.slot.Some?
    case ReceiverClose => !ch.inRecv
  }

  function DoPass<T>(ch: Channel<T>, i: nat): Channel<T>
    requires i < |ch.calls|
  {
    var c := ch.calls[i];
    match SendOutcomeOf(ch.st, c.idx)
    case Refused => ch.(calls := ch.calls[i := c.(status := Rejected)])
    case Placed => ch.(calls := ch.calls[i := c.(status := Delivered)], slot := Some(c.value))
    case MustWait => ch.(calls := ch.calls[i := c.(status := Sleeping)])
  }

  function DoRecvPoll<T>(ch: Channel<T>): Channel<T> {
    if ch.st.receiving then ch.(inRecv := true)
    else ch.(inRecv := true, st := WantNext(ch.st), calls := NotifyAll(ch.calls))
  }

  function DoRecvReady<T>(ch: Channel<T>): Channel<T>
    requires ch.slot.Some?
  {
    ch.(inRecv := false, st := ch.st.(receiving := false), slot := None, received := ch.received + [ch.slot.value])
  }

  function AllClosed<T>(ch: Channel<T>): Channel<T> {
    ch.(st := ch.st.(closed := true), calls := NotifyAll(ch.calls))
  }

  function Happen<T>(ch: Channel<T>, e: Event<T>): Channel<T>
    requires CanHappen(ch, e)
  {
    match e
    case Start(idx, value) => ch.(calls := ch.calls + [Call(idx, value, Trying)])
    case Pass(i) => DoPass(ch, i)
    case Spurious(i) => ch.(calls := ch.calls[i := WokenCall(ch.calls[i])])
    case SenderClose => AllClosed(ch)
    case RecvPoll => DoRecvPoll(ch)
    case RecvCancel => ch.(inRecv := false)
    case RecvReady => DoRecvReady(ch)
    case ReceiverClose => AllClosed(ch)
  }

  function NewChannel<T>(): Channel<T> {
    Channel([], SharedState(None, false, false), None, false, [])
  }

  // ---------------------------------------------------------------- invariant

  /** `wanted_idx` and `receiving` say how many values have been received. */
  predicate CountOk<T>(ch: Channel<T>) {
    |ch.received| == CountOf(ch.st) && (ch.st.wanted.None? ==> !ch.st.receiving)
  }

  /** The values that have left the senders: received ones, then the one in the slot. */
  function Passed<T>(ch: Channel<T>): seq<T> {
    ch.received + if ch.slot.Some? then [ch.slot.value] else []
  }

  ghost predicate CallOk<T>(c: Call<T>, passed: seq<T>, st: SharedState) {
    match c.status
    case Trying => c.idx >= |passed|
    case Sleeping => c.idx >= |passed| && !st.closed && st.wanted != Some(c.idx)
    case Delivered => c.idx < |passed| && passed[c.idx] == c.value
    case Rejected => c.idx >= |passed| && st.closed
  }

  ghost predicate ChannelInv<T(!new)>(ch: Channel<T>) {
    && CountOk(ch)
    && (ch.slot.Some? ==> ch.st.receiving)
    && (forall i, j :: 0 <= i < j < |ch.calls| ==> ch.calls[i].idx != ch.calls[j].idx)
    && (forall i :: 0 <= i < |ch.calls| ==> CallOk(ch.calls[i], Passed(ch), ch.st))
    && (forall k :: 0 <= k < |Passed(ch)| ==> HasCall(ch.calls, k))
  }

  predicate HasCall<T>(cs: seq<Call<T>>, k: nat) {
    exists i :: 0 <= i < |cs| && cs[i].idx == k && cs[i].status.Delivered?
  }

  lemma CallsUpdated<T(!new)>(ch: Channel<T>, ch': Channel<T>, i: nat)
    requires ChannelInv(ch) && i < |ch.calls| && |ch'.calls| == |ch.calls|
    requires ch'.calls == ch.calls[i := ch'.calls[i]] && ch'.calls[i].idx == ch.calls[i].idx
    requires ch.calls[i].status.Delivered? ==> ch'.calls[i].status.Delivered?
    ensures forall k :: 0 <= k < |Passed(ch)| ==> HasCall(ch'.calls, k)
  {
    forall k | 0 <= k < |Passed(ch)|
      ensures HasCall(ch'.calls, k)
    {
      assert HasCall(ch.calls, k);
      var j :| 0 <= j < |ch.calls| && ch.calls[j].idx == k && ch.calls[j].status.Delivered?;
      assert ch'.calls[j].idx == k && ch'.calls[j].status.Delivered?;
    }
  }

  lemma NotifyKeeps<T(!new)>(ch: Channel<T>, st: SharedState, inRecv: bool)
    requires ChannelInv(ch) && (ch.st.closed ==> st.closed)
    ensures var ch' := ch.(calls := NotifyAll(ch.calls), st := st, inRecv := inRecv);
            && (forall i :: 0 <= i < |ch'.calls| ==> CallOk(ch'.calls[i], Passed(ch'), st))
            && (forall k :: 0 <= k < |Passed(ch')| ==> HasCall(ch'.calls, k))
            && (forall i, j :: 0 <= i < j < |ch'.calls| ==> ch'.calls[i].idx != ch'.calls[j].idx)
  {
    var cs := NotifyAll(ch.calls);
    forall k | 0 <= k < |Passed(ch)|
      ensures HasCall(cs, k)
    {
      assert HasCall(ch.calls, k);
      var j :| 0 <= j < |ch.calls| && ch.calls[j].idx == k && ch.calls[j].status.Delivered?;
      assert cs[j].idx == k && cs[j].status.Delivered?;
    }
    forall i | 0 <= i < |cs|
      ensures CallOk(cs[i], Passed(ch), st)
    {
      assert CallOk(ch.calls[i], Passed(ch), ch.st);
    }
  }

  lemma PassKeeps<T(!new)>(ch: Channel<T>, i: nat)
    requires ChannelInv(ch) && CanHappen(ch, Pass(i))
    ensures ChannelInv(DoPass(ch, i))
  {
    var ch', c := DoPass(ch, i), ch.calls[i];
    assert CallOk(c, Passed(ch), ch.st);
    CallsUpdated(ch, ch', i);
    if SendOutcomeOf(ch.st, c.idx).Placed? {
      assert Passed(ch') == Passed(ch) + [c.value];
      assert ch'.calls[i].idx == |Passed(ch)| && ch'.calls[i].status.Delivered?;
      forall j | 0 <= j < |ch'.calls|
        ensures CallOk(ch'.calls[j], Passed(ch'), ch'.st)
      {
        assert CallOk(ch.calls[j], Passed(ch), ch.st);
      }
    }
  }

  lemma StartKeeps<T(!new)>(ch: Channel<T>, idx: nat, value: T)
    requires ChannelInv(ch) && FreshIdx(ch, idx)
    ensures ChannelInv(ch.(calls := ch.calls + [Call(idx, value, Trying)]))
  {
    var ch' := ch.(calls := ch.calls + [Call(idx, value, Trying)]);
    assert !HasCall(ch.calls, idx);
    forall k | 0 <= k < |Passed(ch)|
      ensures HasCall(ch'.calls, k)
    {
      assert HasCall(ch.calls, k);
      var j :| 0 <= j < |ch.calls| && ch.calls[j].idx == k && ch.calls[j].status.Delivered?;
      assert ch'.calls[j].idx == k && ch'.calls[j].status.Delivered?;
    }
  }

  lemma EventKeeps<T(!new)>(ch: Channel<T>, e: Event<T>)
    requires ChannelInv(ch) && CanHappen(ch, e)
    ensures ChannelInv(Happen(ch, e))
  {
    match e
    case Start(idx, value) => StartKeeps(ch, idx, value);
    case Pass(i) => PassKeeps(ch, i);
    case Spurious(i) =>
      assert CallOk(ch.calls[i], Passed(ch), ch.st);
      CallsUpdated(ch, Happen(ch, e), i);
    case SenderClose => NotifyKeeps(ch, ch.st.(closed := true), ch.inRecv);
    case ReceiverClose => NotifyKeeps(ch, ch.st.(closed := true), ch.inRecv);
    case RecvPoll => NotifyKeeps(ch, WantNext(ch.st), true);
    case RecvCancel =>
    case RecvReady => assert Passed(Happen(ch, e)) == Passed(ch);
  }

  // ---------------------------------------------------------------- runs

  predicate Happens<T>(ch: Channel<T>, es: seq<Event<T>>)
    decreases |es|
  {
    es == [] || (CanHappen(ch, es[0]) && Happens(Happen(ch, es[0]), es[1..]))
  }

  function After<T>(ch: Channel<T>, es: seq<Event<T>>): Channel<T>
    requires Happens(ch, es)
    decreases |es|
  {
    if es == [] then ch else After(Happen(ch, es[0]), es[1..])
  }

  lemma {:induction false} EventsKeep<T(!new)>(ch: Channel<T>, es: seq<Event<T>>)
    requires ChannelInv(ch) && Happens(ch, es)
    ensures ChannelInv(After(ch, es))
    decreases |es|
  {
    if es != [] {
      EventKeeps(ch, es[0]);
      EventsKeep(Happen(ch, es[0]), es[1..]);
    }
  }

  /** For any interleaving of senders and any number of cancelled receives: the k-th value received is the one
      that was sent with index k, no value is lost or duplicated (a call is delivered exactly when its value has
      been received or sits in the slot), the count follows from `wanted_idx` and `receiving`, nobody sleeps while
      wanted or closed, and no pass of `send` can find the slot full. */
  lemma OrderedDelivery<T(!new)>(es: seq<Event<T>>, i: nat)
    requires Happens(NewChannel<T>(), es) && i < |After(NewChannel<T>(), es).calls|
    ensures var ch := After(NewChannel<T>(), es);
            var c := ch.calls[i];
            && |ch.received| == CountOf(ch.st)
            && (c.idx < |ch.received| ==> ch.received[c.idx] == c.value && c.status.Delivered?)
            && (c.status.Delivered? ==>
                  c.idx < |ch.received| || (c.idx == |ch.received| && ch.slot == Some(c.value)))
            && (c.status.Sleeping? ==> !ch.st.closed && ch.st.wanted != Some(c.idx))
            && (c.status.Trying? && SendOutcomeOf(ch.st, c.idx).Placed? ==> ch.slot.None? && ch.st.receiving)
            && (c.status.Rejected? ==> ch.st.closed)
  {
    EventsKeep(NewChannel<T>(), es);
    var ch := After(NewChannel<T>(), es);
    assert CallOk(ch.calls[i], Passed(ch), ch.st);
  }

  /** Every received value was sent, with exactly its position as index. */
  lemma ReceivedWasSent<T(!new)>(es: seq<Event<T>>, k: nat)
    requires Happens(NewChannel<T>(), es) && k < |After(NewChannel<T>(), es).received|
    ensures var ch := After(NewChannel<T>(), es);
            exists i :: 0 <= i < |ch.calls| && ch.calls[i].idx == k && ch.calls[i].value == ch.received[k]
  {
    EventsKeep(NewChannel<T>(), es);
    var ch := After(NewChannel<T>(), es);
    assert HasCall(ch.calls, k);
    var i :| 0 <= i < |ch.calls| && ch.calls[i].idx == k && ch.calls[i].status.Delivered?;
    assert CallOk(ch.calls[i], Passed(ch), ch.st);
  }

  // ---------------------------------------------------------------- the shared object

  /** The state behind the mutex, with its critical sections as methods. Each takes the channel it represents as a ghost
      argument and is proved to make that channel's event. */
  class SharedChannel<T(!new)> {
    var wantedIdx: Option<nat>
    var recvClosed: bool
    var receiving: bool
    var slot: Option<T>

    ghost predicate Represents(ch: Channel<T>)
      reads this
    {
      ch.st == SharedState(wantedIdx, recvClosed, receiving) && ch.slot == slot
    }

    constructor ()
      ensures Represents(NewChannel<T>())
    {
      wantedIdx, recvClosed, receiving, slot := None, false, false, None;
    }

    /** One pass of the loop in `send`, the lock held: call `i` of the channel, which by `OrderedDelivery` never finds
        the slot full when its value may be placed. */
    method SendPass(idx: nat, value: T, ghost ch: Channel<T>, ghost i: nat) returns (o: SendOutcome)
      requires Represents(ch) && ChannelInv(ch) && CanHappen(ch, Pass(i))
      requires ch.calls[i].idx == idx && ch.calls[i].value == value
      modifies this`slot
      ensures Represents(Happen(ch, Pass(i)))
      ensures o.Placed? ==> Happen(ch, Pass(i)).calls[i].status.Delivered?
      ensures o.Refused? ==> Happen(ch, Pass(i)).calls[i].status.Rejected?
      ensures o.MustWait? ==> Happen(ch, Pass(i)).calls[i].status.Sleeping?
    {
      if recvClosed {
        o := Refused;
      } else if wantedIdx == Some(idx) {
        slot := Some(value);
        o := Placed;
      } else {
        o := MustWait;
      }
    }

    /** `recv` up to its await: asks for the next index unless an earlier, cancelled call already did, and tells
        whether to notify the senders. */
    method RecvEnter(ghost ch: Channel<T>) returns (notify: bool)
      requires Represents(ch) && CanHappen(ch, RecvPoll)
      modifies this`wantedIdx, this`receiving
      ensures Represents(Happen(ch, RecvPoll))
      ensures Happen(ch, RecvPoll).calls == if notify then NotifyAll(ch.calls) else ch.calls
    {
      notify := !receiving;
      if !receiving {
        match wantedIdx {
          case None => wantedIdx := Some(0);
          case Some(i) => wantedIdx := Some(i + 1);
        }
        receiving := true;
      }
    }

    /** `recv` after its await. */
    method RecvComplete(ghost ch: Channel<T>) returns (value: T)
      requires Represents(ch) && CanHappen(ch, RecvReady)
      modifies this`slot, this`receiving
      ensures Represents(Happen(ch, RecvReady)) && Happen(ch, RecvReady).received == ch.received + [value]
    {
      value := slot.value;
      slot := None;
      receiving := false;
    }

    /** `close` of the receiver: only the first one notifies, and a closed channel has no sleeper left to notify. */
    method Close(ghost ch: Channel<T>) returns (notify: bool)
      requires Represents(ch) && ChannelInv(ch) && CanHappen(ch, ReceiverClose)
      modifies this`recvClosed
      ensures Represents(Happen(ch, ReceiverClose))
      ensures Happen(ch, ReceiverClose).calls == if notify then NotifyAll(ch.calls) else ch.calls
    {
      notify := !recvClosed;
      if !notify {
        NobodySleepsWhenClosed(ch);
      }
      recvClosed := true;
    }
  }

  lemma NobodySleepsWhenClosed<T(!new)>(ch: Channel<T>)
    requires ChannelInv(ch) && ch.st.closed
    ensures NotifyAll(ch.calls) == ch.calls
  {
    forall i | 0 <= i < |ch.calls|
      ensures NotifyAll(ch.calls)[i] == ch.calls[i]
    {
      assert CallOk(ch.calls[i], Passed(ch), ch.st);
    }
  }
}
