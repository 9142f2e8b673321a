/**
 `ResumableReadString` (src/common.rs) on values: what one call does, read by read, from every state
 the object can be left in, including the one its too-long error leaves behind.
 */
module StringReader {
  import opened Wire

  /** A buffer of this size or more cannot be allocated. */
  const ALLOC_LIMIT: nat := 0x8000_0000_0000_0000

  /** A reader between two calls: it holds the first bytes of a string, or it has rejected a string of `size` bytes and
      its buffer still has the eight places of the header, `got` of them overwritten since. */
  datatype Reader =
    | Holding(pending: Bytes)
    | Spent(size: nat, buf: Bytes, got: nat)

  /** A call that waits for its next read, or has returned. */
  datatype Reading = Waiting(next: Reader) | Answer(result: Result<Bytes>, next: Reader)

  predicate ValidReader(rd: Reader, maxLen: nat) {
    match rd
    case Holding(p) => Partial(Strings(maxLen), p)
    case Spent(size, buf, got) => maxLen < size < U64_LIMIT && |buf| == 8 && got <= 8
  }

  function Text(utf8: Bytes -> bool, s: Bytes): Result<Bytes> {
    if utf8(s) then Ok(s) else Err(NotUtf8)
  }

  /** `self.size as usize + 8`, as a release build computes it. */
  function EndOf(size: nat): nat {
    (size + 8) % U64_LIMIT
  }

  /** The payload loop of a spent reader: it goes on until `offset` reaches the end of the rejected string. */
  function SpentReading(utf8: Bytes -> bool, size: nat, buf: Bytes, got: nat): Reading {
    if 8 + got >= EndOf(size) then Answer(Text(utf8, buf), Holding([])) else Waiting(Spent(size, buf, got))
  }

  /** What a call makes of the bytes `q` of a string. */
  function Judged(maxLen: nat, utf8: Bytes -> bool, q: Bytes): Reading {
    match Judge(Strings(maxLen), q)
    case More(p) => Waiting(Holding(p))
    case Got(f) => Answer(Text(utf8, f.payload), Holding([]))
    case Reject => Answer(Err(TooLong), Spent(Head(q), q[..8], 0))
  }

  /** `read(&mut buf[at..])`. */
  function Splice(buf: Bytes, at: nat, chunk: Bytes): (r: Bytes)
    requires at + |chunk| <= |buf|
    ensures |r| == |buf| && r[..at + |chunk|] == buf[..at] + chunk
  {
    buf[..at] + chunk + buf[at + |chunk|..]
  }

  /** A call up to its first await. */
  function Entered(rd: Reader, utf8: Bytes -> bool): Reading {
    match rd
    case Holding(p) => Waiting(rd)
    case Spent(size, buf, got) => SpentReading(utf8, size, buf, got)
  }

  /** The length of the slice that the next read fills. */
  function Space(rd: Reader, maxLen: nat): nat
    requires ValidReader(rd, maxLen)
  {
    match rd
    case Holding(p) => Room(Strings(maxLen), p)
    case Spent(_, _, got) => 8 - got
  }

  /** One read, which returns 0 bytes at the end of the stream or for an empty slice. */
  function OneRead(rd: Reader, maxLen: nat, utf8: Bytes -> bool, chunk: Bytes): (r: Reading)
    requires ValidReader(rd, maxLen) && |chunk| <= Space(rd, maxLen)
    ensures ValidReader(r.next, maxLen)
  {
    if chunk == [] then Answer(Err(Closed), rd)
    else
      match rd
      case Holding(p) =>
        assert Feed(Strings(maxLen), p, chunk) == Judge(Strings(maxLen), p + chunk);
        Judged(maxLen, utf8, p + chunk)
      case Spent(size, buf, got) => SpentReading(utf8, size, Splice(buf, got, chunk), got + |chunk|)
  }

  /** A whole call on everything that will ever arrive, its reads returning `ns` bytes each: where it stands after them
      and what is left of the stream; None if the reads are impossible. A read returns 0 exactly when there is no more
      to come or no room. */
  function Call(rd: Reader, maxLen: nat, utf8: Bytes -> bool, stream: Bytes, ns: seq<nat>): (r: Option<(Reading, Bytes)>)
    requires ValidReader(rd, maxLen)
    ensures r.Some? ==> ValidReader(r.value.0.next, maxLen)
    decreases |ns|
  {
    if ns == [] then Some((Entered(rd, utf8), stream))
    else
      match Call(rd, maxLen, utf8, stream, ns[..|ns| - 1])
      case Some((Waiting(rd'), rest)) =>
        var n := ns[|ns| - 1];
        if n <= |rest| && n <= Space(rd', maxLen) && (n == 0 ==> rest == [] || Space(rd', maxLen) == 0)
        then Some((OneRead(rd', maxLen, utf8, rest[..n]), rest[n..]))
        else None
      case _ => None
  }

  lemma CallNext(rd: Reader, maxLen: nat, utf8: Bytes -> bool, stream: Bytes, ns: seq<nat>, rd': Reader, chunk: Bytes, rest: Bytes)
    requires ValidReader(rd, maxLen) && ValidReader(rd', maxLen)
    requires Call(rd, maxLen, utf8, stream, ns) == Some((Waiting(rd'), chunk + rest))
    requires |chunk| <= Space(rd', maxLen) && (chunk == [] ==> rest == [] || Space(rd', maxLen) == 0)
    ensures Call(rd, maxLen, utf8, stream, ns + [|chunk|]) == Some((OneRead(rd', maxLen, utf8, chunk), rest))
  {
    var ns' := ns + [|chunk|];
    assert ns'[..|ns'| - 1] == ns;
    assert (chunk + rest)[..|chunk|] == chunk && (chunk + rest)[|chunk|..] == rest;
  }

  lemma NothingRead(rd: Reader, maxLen: nat, utf8: Bytes -> bool)
    requires ValidReader(rd, maxLen)
    ensures OneRead(rd, maxLen, utf8, []) == Answer(Err(Closed), rd)
  {
  }

  // ---------------------------------------------------------------- the payload loop

  /** The reader inside the payload loop, over a string in bounds or a rejected one. */
  function PayloadReader(maxLen: nat, size: nat, buf: Bytes, got: nat): Reader
    requires got <= |buf|
  {
    if size <= maxLen then Holding(U64(size) + buf[..got]) else Spent(size, buf, got)
  }

  /** Where a call stands at the head of the payload loop. */
  function PayloadReading(maxLen: nat, utf8: Bytes -> bool, size: nat, buf: Bytes, got: nat): Reading
    requires got <= |buf| && size < U64_LIMIT
  {
    if size <= maxLen then Judged(maxLen, utf8, U64(size) + buf[..got]) else SpentReading(utf8, size, buf, got)
  }

  /** One read into the buffer is one read of the model. */
  lemma PayloadNext(maxLen: nat, utf8: Bytes -> bool, size: nat, buf: Bytes, got: nat, chunk: Bytes)
    requires size < U64_LIMIT && got + |chunk| <= |buf| && chunk != []
    requires ValidReader(PayloadReader(maxLen, size, buf, got), maxLen)
    requires |chunk| <= Space(PayloadReader(maxLen, size, buf, got), maxLen)
    ensures OneRead(PayloadReader(maxLen, size, buf, got), maxLen, utf8, chunk)
            == PayloadReading(maxLen, utf8, size, Splice(buf, got, chunk), got + |chunk|)
  {
    assert U64(size) + (buf[..got] + chunk) == (U64(size) + buf[..got]) + chunk;
  }

  // ---------------------------------------------------------------- a reader in step

  /** The state a completed call leaves behind. */
  function Left(total: Bytes, maxLen: nat, a: Result<Bytes>): Reader {
    if a == Err(Closed) then Holding(total)
    else if a == Err(TooLong) && |total| >= 8 then Spent(Head(total), total[..8], 0)
    else Holding([])
  }

  /** However it is chunked, a call of a reader that holds `p` loses no byte while it waits; when it returns it has
      answered what `read_string` answers on the whole stream, and left the same rest. */
  lemma {:induction false} CallRefinesReadString(p: Bytes, maxLen: nat, utf8: Bytes -> bool, stream: Bytes, ns: seq<nat>)
    requires Partial(Strings(maxLen), p) && Call(Holding(p), maxLen, utf8, stream, ns).Some?
    ensures var (reading, rest) := Call(Holding(p), maxLen, utf8, stream, ns).value;
            && (reading.Waiting? ==> reading.next.Holding? && reading.next.pending + rest == p + stream)
            && (reading.Answer? ==>
                  && (reading.result, rest) == ReadString(p + stream, maxLen, utf8)
                  && reading.next == Left(p + stream, maxLen, reading.result))
    decreases |ns|
  {
    if ns != [] {
      CallRefinesReadString(p, maxLen, utf8, stream, ns[..|ns| - 1]);
      var n := ns[|ns| - 1];
      var (reading, rest) := Call(Holding(p), maxLen, utf8, stream, ns[..|ns| - 1]).value;
      var q := reading.next.pending;
      TakeDrop(rest, n);
      Regrouped(q, rest[..n], rest[n..]);
      if n == 0 {
        assert q + rest == q;
        StreamEnds(q, maxLen, utf8);
      } else {
        JudgedIsReadString(q, rest[..n], rest[n..], maxLen, utf8);
      }
    }
  }

  lemma StreamEnds(q: Bytes, maxLen: nat, utf8: Bytes -> bool)
    requires Partial(Strings(maxLen), q)
    ensures ReadString(q, maxLen, utf8) == (Err(Closed), [])
  {
  }

  lemma JudgedIsReadString(q: Bytes, chunk: Bytes, rest: Bytes, maxLen: nat, utf8: Bytes -> bool)
    requires Partial(Strings(maxLen), q) && 0 < |chunk| <= Room(Strings(maxLen), q)
    ensures var r := Judged(maxLen, utf8, q + chunk);
            && (r.Waiting? ==> r.next == Holding(q + chunk))
            && (r.Answer? ==>
                  && (r.result, rest) == ReadString((q + chunk) + rest, maxLen, utf8)
                  && r.next == Left((q + chunk) + rest, maxLen, r.result))
  {
    var fed := Feed(Strings(maxLen), q, chunk);
    var b := q + chunk;
    var total := b + rest;
    if |b| >= 8 {
      assert total[..8] == b[..8];
      if fed.Got? {
        assert |fed.frame.payload| == Head(b) && total[8..8 + Head(b)] == b[8..] && total[8 + Head(b)..] == rest;
      } else if fed.Reject? {
        assert total[8..] == rest;
      }
    }
  }

  /** The reads of a call are the reads of the model's frame reader; only the read that finds the end of the stream is
      none of them. */
  lemma {:induction false} CallIsFeeding(p: Bytes, maxLen: nat, utf8: Bytes -> bool, stream: Bytes, ns: seq<nat>, reading: Reading, rest: Bytes)
    requires Partial(Strings(maxLen), p) && Call(Holding(p), maxLen, utf8, stream, ns) == Some((reading, rest))
    ensures reading.Waiting? ==>
              reading.next.Holding? && FeedAll(Strings(maxLen), p, stream, ns) == Some((More(reading.next.pending), rest))
    ensures reading.Answer? && reading.result == Err(Closed) ==>
              && ns != [] && reading.next.Holding? && rest == []
              && FeedAll(Strings(maxLen), p, stream, ns[..|ns| - 1]) == Some((More(reading.next.pending), rest))
    ensures reading.Answer? && reading.result == Err(TooLong) ==> FeedAll(Strings(maxLen), p, stream, ns) == Some((Reject, rest))
    ensures reading.Answer? && (reading.result.Ok? || reading.result.error.NotUtf8?) ==>
              exists f: Frame :: FeedAll(Strings(maxLen), p, stream, ns) == Some((Got(f), rest)) && reading.result == Text(utf8, f.payload)
    decreases |ns|
  {
    if ns != [] {
      var (before, rest0) := Call(Holding(p), maxLen, utf8, stream, ns[..|ns| - 1]).value;
      CallIsFeeding(p, maxLen, utf8, stream, ns[..|ns| - 1], before, rest0);
      var n, q := ns[|ns| - 1], before.next.pending;
      if n > 0 {
        FeedIsJudge(Strings(maxLen), q, rest0[..n]);
        hide Judge, Feed, Partial, Room, Head;
        match Judge(Strings(maxLen), q + rest0[..n])
        case Got(f) => assert reading.result == Text(utf8, f.payload);
        case _ =>
      }
    }
  }

  /** Every read but the one that finds the stream ended, or no room, takes at least one byte. */
  lemma {:induction false} CallCount(rd: Reader, maxLen: nat, utf8: Bytes -> bool, stream: Bytes, ns: seq<nat>, reading: Reading, rest: Bytes)
    requires ValidReader(rd, maxLen) && Call(rd, maxLen, utf8, stream, ns) == Some((reading, rest))
    ensures reading.Waiting? || reading.result != Err(Closed) ==> |ns| + |rest| <= |stream|
    decreases |ns|
  {
    hide OneRead, ValidReader, Space;
    if ns != [] {
      var (before, rest0) := Call(rd, maxLen, utf8, stream, ns[..|ns| - 1]).value;
      CallCount(rd, maxLen, utf8, stream, ns[..|ns| - 1], before, rest0);
      NothingRead(before.next, maxLen, utf8);
    }
  }

  // ---------------------------------------------------------------- a spent reader

  /** After its too-long error a reader never again finds a string too long, until it has returned something. */
  lemma {:induction false} SpentNeverRejects(rd: Reader, maxLen: nat, utf8: Bytes -> bool, stream: Bytes, ns: seq<nat>)
    requires ValidReader(rd, maxLen) && rd.Spent? && Call(rd, maxLen, utf8, stream, ns).Some?
    ensures var reading := Call(rd, maxLen, utf8, stream, ns).value.0;
            && (reading.Waiting? ==> reading.next.Spent? && reading.next.size == rd.size)
            && (reading.Answer? ==> reading.result != Err(TooLong))
    decreases |ns|
  {
    if ns != [] {
      SpentNeverRejects(rd, maxLen, utf8, stream, ns[..|ns| - 1]);
    }
  }

  /** A spent reader answers on the eight bytes of a header: at once, after reading them, or with "connection closed"
      although the stream goes on. */
  lemma SpentAnswers(rd: Reader, maxLen: nat, utf8: Bytes -> bool, stream: Bytes) returns (ns: seq<nat>)
    requires ValidReader(rd, maxLen) && rd.Spent? && rd.got == 0 && |stream| == 8
    ensures Call(rd, maxLen, utf8, stream, ns).Some? && Call(rd, maxLen, utf8, stream, ns).value.0.Answer?
  {
    ns := [];
    assert Call(rd, maxLen, utf8, stream, ns) == Some((Entered(rd, utf8), stream));
    hide Call, SpentReading;
    if Entered(rd, utf8).Waiting? {
      SpentWaiting(rd.size, rd.buf, 0, utf8);
      assert stream + [] == stream;
      CallNext(rd, maxLen, utf8, stream, ns, rd, stream, []);
      ns := ns + [|stream|];
      var second := OneRead(rd, maxLen, utf8, stream);
      if second.Waiting? {
        SpentWaiting(rd.size, Splice(rd.buf, 0, stream), 8, utf8);
        NoRoomNoRead(rd, maxLen, utf8, stream, ns, second.next);
        ns := ns + [0];
      }
    }
  }

  lemma SpentWaiting(size: nat, buf: Bytes, got: nat, utf8: Bytes -> bool)
    ensures var r := SpentReading(utf8, size, buf, got); r.Waiting? ==> r.next == Spent(size, buf, got)
  {
  }

  lemma NoRoomNoRead(rd: Reader, maxLen: nat, utf8: Bytes -> bool, stream: Bytes, ns: seq<nat>, rd': Reader)
    requires ValidReader(rd, maxLen) && ValidReader(rd', maxLen) && Space(rd', maxLen) == 0
    requires Call(rd, maxLen, utf8, stream, ns).Some? && Call(rd, maxLen, utf8, stream, ns).value.0 == Waiting(rd')
    ensures Call(rd, maxLen, utf8, stream, ns + [0]) == Some((Answer(Err(Closed), rd'), Call(rd, maxLen, utf8, stream, ns).value.1))
  {
    var rest := Call(rd, maxLen, utf8, stream, ns).value.1;
    assert [] + rest == rest;
    CallNext(rd, maxLen, utf8, stream, ns, rd', [], rest);
  }

  // ---------------------------------------------------------------- reuse

  /** Every call on `more` that returns answers what `read_string` answers on it. */
  ghost predicate InStep(rd: Reader, maxLen: nat, utf8: Bytes -> bool, more: Bytes)
    requires ValidReader(rd, maxLen)
  {
    forall ns :: Agrees(Call(rd, maxLen, utf8, more, ns), more, maxLen, utf8)
  }

  predicate Agrees(call: Option<(Reading, Bytes)>, more: Bytes, maxLen: nat, utf8: Bytes -> bool) {
    call.Some? && call.value.0.Answer? ==> (call.value.0.result, call.value.1) == ReadString(more, maxLen, utf8)
  }

  /** Once a call has returned, the reader can be used again, whatever comes next on the stream, exactly when the header
      it read announced no more than the maximum. (After "connection closed" nothing comes next.) */
  lemma ReusableIffHeaderInBounds(p: Bytes, maxLen: nat, utf8: Bytes -> bool, stream: Bytes, ns: seq<nat>)
    requires Partial(Strings(maxLen), p) && Call(Holding(p), maxLen, utf8, stream, ns).Some?
    requires Call(Holding(p), maxLen, utf8, stream, ns).value.0.Answer?
    ensures var (answer, rest) := Call(Holding(p), maxLen, utf8, stream, ns).value;
            (forall more :: (answer.result == Err(Closed) ==> more == []) ==> InStep(answer.next, maxLen, utf8, more))
            <==> |p + stream| < 8 || Head(p + stream) <= maxLen
  {
    CallRefinesReadString(p, maxLen, utf8, stream, ns);
    var total := p + stream;
    var (answer, rest) := Call(Holding(p), maxLen, utf8, stream, ns).value;
    if |total| < 8 || Head(total) <= maxLen {
      forall more | answer.result == Err(Closed) ==> more == []
        ensures InStep(answer.next, maxLen, utf8, more)
      {
        HoldingInStep(answer.next, maxLen, utf8, more);
      }
    } else {
      assert total[..8][..8] == total[..8];
      SpentOutOfStep(answer.next, maxLen, utf8, total[..8]);
    }
  }

  lemma HoldingInStep(rd: Reader, maxLen: nat, utf8: Bytes -> bool, more: Bytes)
    requires ValidReader(rd, maxLen) && rd.Holding? && (rd.pending == [] || more == [])
    ensures InStep(rd, maxLen, utf8, more)
  {
    forall ns | Call(rd, maxLen, utf8, more, ns).Some?
      ensures Agrees(Call(rd, maxLen, utf8, more, ns), more, maxLen, utf8)
    {
      CallRefinesReadString(rd.pending, maxLen, utf8, more, ns);
      if rd.pending == [] {
        assert [] + more == more;
      } else {
        assert rd.pending + [] == rd.pending;
        StreamEnds(rd.pending, maxLen, utf8);
      }
    }
  }

  lemma SpentOutOfStep(rd: Reader, maxLen: nat, utf8: Bytes -> bool, more: Bytes)
    requires ValidReader(rd, maxLen) && rd.Spent? && rd.got == 0 && |more| == 8 && Head(more) > maxLen
    ensures !InStep(rd, maxLen, utf8, more)
  {
    var ns := SpentAnswers(rd, maxLen, utf8, more);
    SpentNeverRejects(rd, maxLen, utf8, more, ns);
    assert !Agrees(Call(rd, maxLen, utf8, more, ns), more, maxLen, utf8);
  }

  /** The call that rejects: the header is read, nothing else, and the reader is spent. */
  lemma RejectingCall(size: nat, tail: Bytes, maxLen: nat, utf8: Bytes -> bool, ns: seq<nat>)
    requires maxLen < size < U64_LIMIT && ns == [8]
    ensures Call(Holding([]), maxLen, utf8, U64(size) + tail, ns)
            == Some((Answer(Err(TooLong), Spent(size, U64(size), 0)), tail))
  {
    var none: seq<nat> := [];
    HeadOfU64(size, []);
    assert U64(size) + [] == U64(size) && [] + U64(size) == U64(size) && U64(size)[..8] == U64(size);
    CallNext(Holding([]), maxLen, utf8, U64(size) + tail, none, Holding([]), U64(size), tail);
    assert none + [|U64(size)|] == ns;
  }

  /** The call after it, for a rejected string that is short: it returns the bytes of that string, filled up to eight
      with the end of the old header, as if they were the next string. */
  lemma TooLongThenGarbage(payload: Bytes, rest: Bytes, maxLen: nat, utf8: Bytes -> bool, ns: seq<nat>)
    requires maxLen < |payload| <= 8 && ns == [|payload|]
    ensures Call(Spent(|payload|, U64(|payload|), 0), maxLen, utf8, payload + rest, ns)
            == Some((Answer(Text(utf8, payload + U64(|payload|)[|payload|..]), Holding([])), rest))
  {
    var none: seq<nat> := [];
    var rd := Spent(|payload|, U64(|payload|), 0);
    assert Call(rd, maxLen, utf8, payload + rest, none) == Some((Waiting(rd), payload + rest));
    GarbageRead(payload, maxLen, utf8);
    hide Call, OneRead, U64, Text, SpentReading;
    CallNext(rd, maxLen, utf8, payload + rest, none, rd, payload, rest);
    assert none + [|payload|] == ns;
  }

  lemma GarbageRead(payload: Bytes, maxLen: nat, utf8: Bytes -> bool)
    requires maxLen < |payload| <= 8
    ensures OneRead(Spent(|payload|, U64(|payload|), 0), maxLen, utf8, payload)
            == Answer(Text(utf8, payload + U64(|payload|)[|payload|..]), Holding([]))
  {
    hide U64, Text;
    var header := U64(|payload|);
    assert Splice(header, 0, payload) == payload + header[|payload|..];
  }

  /** The call after it, for a rejected string that is longer: it reads eight bytes and reports a closed connection,
      whatever follows. */
  lemma TooLongThenClosed(size: nat, eight: Bytes, rest: Bytes, maxLen: nat, utf8: Bytes -> bool) returns (ns: seq<nat>)
    requires maxLen < size && 8 < size && size + 8 < U64_LIMIT && |eight| == 8
    ensures Call(Spent(size, U64(size), 0), maxLen, utf8, eight + rest, ns).Some?
    ensures var (answer, left) := Call(Spent(size, U64(size), 0), maxLen, utf8, eight + rest, ns).value;
            answer.Answer? && answer.result == Err(Closed) && answer.next.Spent? && left == rest
  {
    ns := [];
    var rd := Spent(size, U64(size), 0);
    assert Call(rd, maxLen, utf8, eight + rest, ns) == Some((Waiting(rd), eight + rest));
    CallNext(rd, maxLen, utf8, eight + rest, ns, rd, eight, rest);
    ns := ns + [|eight|];
    NoRoomNoRead(rd, maxLen, utf8, eight + rest, ns, OneRead(rd, maxLen, utf8, eight).next);
    ns := ns + [0];
  }

  /** The call after it, for a rejected length that the addition of 8 wraps: it reads nothing and returns the header. */
  lemma TooLongThenHeader(size: nat, stream: Bytes, maxLen: nat, utf8: Bytes -> bool, ns: seq<nat>)
    requires maxLen < size < U64_LIMIT <= size + 8 && ns == []
    ensures Call(Spent(size, U64(size), 0), maxLen, utf8, stream, ns)
            == Some((Answer(Text(utf8, U64(size)), Holding([])), stream))
  {
    assert EndOf(size) == size + 8 - U64_LIMIT;
  }

  /** The input of the repository's own test: the string "toolong" and a maximum of 3. The second call answers the eight
      bytes "toolong" 0x07; `read_string` finds the connection closed. */
  lemma TooLongExample(utf8: Bytes -> bool)
    ensures var text: Bytes := [116, 111, 111, 108, 111, 110, 103];
            && Call(Holding([]), 3, utf8, WriteString(text), [8])
               == Some((Answer(Err(TooLong), Spent(7, U64(7), 0)), text))
            && Call(Spent(7, U64(7), 0), 3, utf8, text, [7]) == Some((Answer(Text(utf8, text + [7]), Holding([])), []))
            && ReadString(text, 3, utf8) == (Err(Closed), [])
  {
    var text: Bytes := [116, 111, 111, 108, 111, 110, 103];
    RejectingCall(7, text, 3, utf8, [8]);
    TooLongThenGarbage(text, [], 3, utf8, [7]);
    assert text + [] == text;
    LastByte(7);
  }

  lemma LastByte(v: nat)
    requires v < 256
    ensures U64(v)[7..] == [v]
  {
  }
}
