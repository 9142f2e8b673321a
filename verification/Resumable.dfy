/**
 The resumable readers and writers of src/common.rs, over a transport that moves any number of
 bytes per call or lets `select!` cancel the call at any await.

 Each reader is proved against what the simple, uncancellable operation would do on the whole
 stream; each writer against the bytes it has still to write.
 */
module Resumable {
  import opened Wire
  import opened Geometry
  import opened Transport
  import opened StringReader

  /** How a loop over `read` calls ends. */
  datatype Progress = Cancelled | Reached | Failed(error: ReadError)

  /** `Vec::resize(n, 0)`. */
  function Resize(v: Bytes, n: nat): (r: Bytes)
    ensures |r| == n
    ensures forall i :: 0 <= i < n && i < |v| ==> r[i] == v[i]
  {
    if n <= |v| then v[..n] else v + seq(n - |v|, _ => 0)
  }

  /** The shift loop that assembles a 64-bit header; no bit is shifted out. */
  method ShiftIn(buf: Bytes) returns (v: nat)
    requires |buf| >= 8
    ensures v == Head(buf) < U64_LIMIT
    ensures v == 0x100_0000_0000_0000 * buf[0] as int + 0x1_0000_0000_0000 * buf[1] as int + 0x100_0000_0000 * buf[2] as int
                 + 0x1_0000_0000 * buf[3] as int + 0x100_0000 * buf[4] as int + 0x1_0000 * buf[5] as int + 0x100 * buf[6] as int + buf[7]
  {
    v := 0;
    Pow256Of8();
    for i := 0 to 8
      invariant v == FromBigEndian(buf[..i])
    {
      assert buf[..i + 1][..i] == buf[..i];
      v := v * 256 + buf[i];
    }
    FromBigEndianBound(buf[..8]);
    HeaderValue(buf);
  }

  /** The shift loop that takes a 64-bit header apart, last byte first. */
  method ShiftOut(a: array<Byte>, v: nat)
    requires a.Length >= 8
    modifies a
    ensures a[..8] == U64(v)
    ensures a[..8] == [v / 0x100_0000_0000_0000 % 256, v / 0x1_0000_0000_0000 % 256, v / 0x100_0000_0000 % 256,
                       v / 0x1_0000_0000 % 256, v / 0x100_0000 % 256, v / 0x1_0000 % 256, v / 0x100 % 256, v % 256]
    ensures forall i :: 8 <= i < a.Length ==> a[i] == old(a[i])
  {
    var len := v;
    var i := 8;
    while i > 0
      invariant 0 <= i <= 8
      invariant BigEndian(8, v) == BigEndian(i, len) + a[i..8]
      invariant forall k :: 8 <= k < a.Length ==> a[k] == old(a[k])
    {
      i := i - 1;
      ghost var tail := a[i + 1..8];
      a[i] := len % 256;
      assert a[i..8] == [len % 256] + tail;
      len := len / 256;
    }
    HeaderBytes(v);
  }

  // ---------------------------------------------------------------- strings

  class ResumableReadString {
    var offset: nat
    var size: nat
    const maxLen: nat
    const utf8: Bytes -> bool
    var buf: Bytes

    /** The reader is in step with its stream; `size == 0` doubles as "header not complete". */
    ghost predicate Valid()
      reads this
    {
      && maxLen < ALLOC_LIMIT
      && (size == 0 ==> offset < 8 && (|buf| == 8 || offset == 0))
      && (size > 0 ==> size <= maxLen && |buf| == size && 8 <= offset < size + 8)
    }

    /** The reader has rejected a string, and `size` still says so. */
    ghost predicate Exhausted()
      reads this
    {
      maxLen < ALLOC_LIMIT && maxLen < size < U64_LIMIT && |buf| == 8 && 8 <= offset <= 16
    }

    /** The bytes of the current string read so far. */
    ghost function Pending(): Bytes
      requires Valid()
      reads this
    {
      if size == 0 then (if offset == 0 then [] else buf[..offset]) else U64(size) + buf[..offset - 8]
    }

    /** The state of the object on values. */
    ghost function View(): Reader
      requires Valid() || Exhausted()
      reads this
    {
      if Valid() then Holding(Pending()) else Spent(size, buf, offset - 8)
    }

    constructor (maxLen: nat, utf8: Bytes -> bool)
      requires maxLen < ALLOC_LIMIT
      ensures Valid() && Pending() == [] && this.maxLen == maxLen && this.utf8 == utf8
    {
      offset, size, buf := 0, 0, [];
      this.maxLen, this.utf8 := maxLen, utf8;
    }

    /** Between calls the reader is in a state of the model. */
    lemma ViewIsValid()
      requires Valid() || Exhausted()
      ensures ValidReader(View(), maxLen)
    {
      if Valid() && size > 0 {
        HeadOfU64(size, buf[..offset - 8]);
      }
    }

    /** Reads of `ns` bytes each, from `rd` and `stream` on, have come to `reading` and left what the source holds. */
    ghost predicate Came(rd: Reader, stream: Bytes, ns: seq<nat>, reading: Reading, src: ByteSource)
      reads this, src
    {
      ValidReader(rd, maxLen) && Call(rd, maxLen, utf8, stream, ns) == Some((reading, src.data))
    }

    /** A call on `from` stands at `reading`: no read was left pending, unless the call waits, and then one had to be. */
    ghost predicate Stands(rd: Reader, from: Supply, ns: seq<nat>, reading: Reading, src: ByteSource)
      reads this, src
    {
      && Came(rd, from.data, ns, reading, src)
      && (reading.Waiting? ==> src.LeftPending(from, |ns|))
      && (reading.Answer? ==> src.Made(from, |ns|))
    }

    /** One read of a waiting call, into `max` bytes of room. */
    method Fetch(src: ByteSource, max: nat, ghost rd: Reader, ghost from: Supply, ghost before: seq<nat>, ghost now: Reader)
      returns (chunk: Option<Bytes>, ghost ns: seq<nat>)
      requires Came(rd, from.data, before, Waiting(now), src) && src.Made(from, |before|)
      requires ValidReader(now, maxLen) && Space(now, maxLen) == max
      modifies src
      ensures chunk.None? ==> Stands(rd, from, ns, Waiting(now), src)
      ensures chunk.Some? ==>
                && |chunk.value| <= max && ns == before + [|chunk.value|]
                && Came(rd, from.data, ns, OneRead(now, maxLen, utf8, chunk.value), src)
                && src.Made(from, |ns|) && |src.sched| < |old(src.sched)|
      ensures chunk == Some([]) ==> OneRead(now, maxLen, utf8, []) == Answer(Err(Closed), now)
      ensures chunk == Some([]) && max > 0 ==> src.closed
    {
      hide Call, OneRead, ValidReader, Stalled, Idle, Skip, Least, Space;
      ns := before;
      ghost var mid := src.Now();
      chunk := src.Read(max);
      src.OneMore(from, mid, |ns|);
      if chunk.Some? {
        CallNext(rd, maxLen, utf8, from.data, ns, now, chunk.value, src.data);
        ns := ns + [|chunk.value|];
        NothingRead(now, maxLen, utf8);
      }
    }

    /** The header: its bytes, the shift loop, the length check and the buffer for the payload. */
    method ReadHeader(src: ByteSource) returns (r: Progress, ghost ns: seq<nat>)
      requires Valid() && size == 0
      modifies this, src
      ensures r.Cancelled? ==> Valid() && Stands(old(View()), old(src.Now()), ns, Waiting(View()), src)
      ensures r == Failed(Closed) ==>
                Valid() && Stands(old(View()), old(src.Now()), ns, Answer(Err(Closed), View()), src) && src.closed
      ensures r == Failed(TooLong) ==>
                Exhausted() && Stands(old(View()), old(src.Now()), ns, Answer(Err(TooLong), View()), src)
      ensures r.Reached? ==>
                && offset == 8 && |buf| == size <= maxLen && src.Made(old(src.Now()), |ns|)
                && Came(old(View()), old(src.data), ns, Judged(maxLen, utf8, U64(size)), src)
      ensures r.Failed? ==> r.error.Closed? || r.error.TooLong?
    {
      hide Call, Judged, U64;
      ghost var rd := View();
      ns := [];
      CallStarts(Pending(), maxLen, utf8, src.data);
      ViewIsValid();
      buf := Resize(buf, 8);
      assert rd == Holding(buf[..offset]);
      while offset < 8
        invariant offset <= 8 && |buf| == 8 && size == 0 && src.Made(old(src.Now()), |ns|)
        invariant Came(rd, old(src.data), ns, Judged(maxLen, utf8, buf[..offset]), src)
        decreases |src.sched|
      {
        ghost var q := buf[..offset];
        ShortIsWaiting(q, maxLen, utf8);
        var chunk;
        chunk, ns := Fetch(src, 8 - offset, rd, old(src.Now()), ns, Holding(q));
        if chunk.None? {
          return Cancelled, ns;
        }
        if chunk.value == [] {
          return Failed(Closed), ns;
        }
        buf := Splice(buf, offset, chunk.value);
        offset := offset + |chunk.value|;
      }
      assert buf[..8] == buf;
      size := ShiftIn(buf);
      U64OfHead(buf);
      if size > maxLen {
        LongIsRejected(buf, maxLen, utf8);
        return Failed(TooLong), ns;
      }
      buf := Resize([], size);
      return Reached, ns;
    }

    /** Where a call stands in the payload loop: in step, or over a rejected string. */
    ghost function Status(): Reading
      requires 8 <= offset <= 8 + |buf| && size < U64_LIMIT
      reads this
    {
      PayloadReading(maxLen, utf8, size, buf, offset - 8)
    }

    ghost predicate InPayload()
      reads this
    {
      maxLen < ALLOC_LIMIT && ((|buf| == size <= maxLen && 8 <= offset <= size + 8) || Exhausted())
    }

    /** One pass of the payload loop; `Reached` if it got bytes. For a rejected string the buffer has eight places, and
        the slice to read into may be empty. */
    method ReadOnce(src: ByteSource, ghost rd: Reader, ghost from: Supply, ghost before: seq<nat>)
      returns (r: Progress, ghost ns: seq<nat>)
      requires InPayload() && offset < EndOf(size) && Came(rd, from.data, before, Status(), src)
      requires src.Made(from, |before|)
      modifies this`offset, this`buf, src
      ensures InPayload()
      ensures r.Reached? ==> Came(rd, from.data, ns, Status(), src) && src.Made(from, |ns|) && |src.sched| < |old(src.sched)|
      ensures !r.Reached? ==> Valid() || Exhausted()
      ensures r.Cancelled? ==> Stands(rd, from, ns, Waiting(View()), src)
      ensures r.Failed? ==> r == Failed(Closed) && Stands(rd, from, ns, Answer(Err(Closed), View()), src)
      ensures r.Failed? && Valid() ==> src.closed
    {
      hide Call, PayloadReading, PayloadReader, OneRead, Splice, U64, ValidReader, Stalled, Idle, Skip, Least;
      ns := before;
      StatusWaits();
      var chunk;
      chunk, ns := Fetch(src, |buf| - (offset - 8), rd, from, ns, View());
      if chunk.None? {
        return Cancelled, ns;
      }
      if chunk.value == [] {
        return Failed(Closed), ns;
      }
      PayloadNext(maxLen, utf8, size, buf, offset - 8, chunk.value);
      buf := Splice(buf, offset - 8, chunk.value);
      offset := offset + |chunk.value|;
      return Reached, ns;
    }

    /** The payload loop. */
    method ReadPayload(src: ByteSource, ghost rd: Reader, ghost from: Supply, ghost before: seq<nat>)
      returns (r: Progress, ghost ns: seq<nat>)
      requires InPayload() && Came(rd, from.data, before, Status(), src) && src.Made(from, |before|)
      modifies this`offset, this`buf, src
      ensures InPayload()
      ensures r.Reached? ==> Stands(rd, from, ns, Answer(Text(utf8, buf), Holding([])), src)
      ensures !r.Reached? ==> Valid() || Exhausted()
      ensures r.Cancelled? ==> Stands(rd, from, ns, Waiting(View()), src)
      ensures r.Failed? ==> r == Failed(Closed) && Stands(rd, from, ns, Answer(Err(Closed), View()), src)
      ensures r.Failed? && Valid() ==> src.closed
    {
      hide Call, PayloadReading, EndOf, Text, ValidReader;
      r, ns := Reached, before;
      while offset < EndOf(size)
        invariant InPayload() && Came(rd, from.data, ns, Status(), src) && src.Made(from, |ns|)
        decreases |src.sched|
      {
        r, ns := ReadOnce(src, rd, from, ns);
        if !r.Reached? {
          return;
        }
      }
      StatusAnswers();
      r := Reached;
    }

    /** Inside the loop the call waits, with room for what is missing of the string. */
    lemma StatusWaits()
      requires InPayload() && offset < EndOf(size)
      ensures Valid() || Exhausted()
      ensures Status() == Waiting(View()) && ValidReader(View(), maxLen)
      ensures View() == PayloadReader(maxLen, size, buf, offset - 8)
      ensures Space(View(), maxLen) == |buf| - (offset - 8)
    {
      if size <= maxLen {
        HeadOfU64(size, buf[..offset - 8]);
      }
    }

    /** Behind the loop the call has its string: the whole buffer. */
    lemma StatusAnswers()
      requires InPayload() && offset >= EndOf(size)
      ensures Status() == Answer(Text(utf8, buf), Holding([]))
    {
      if size <= maxLen {
        HeadOfU64(size, buf[..offset - 8]);
        assert (U64(size) + buf[..offset - 8])[8..] == buf;
      }
    }

    /** One call, from whatever state the last one left: it makes some reads and then stands where the model's call
        stands after them; it waits only if a read had to be left pending. */
    method Resume(src: ByteSource) returns (r: Option<Result<Bytes>>, ghost ns: seq<nat>)
      requires Valid() || Exhausted()
      modifies this, src
      ensures Valid() || Exhausted()
      ensures Stands(old(View()), old(src.Now()), ns, if r.None? then Waiting(View()) else Answer(r.value, View()), src)
      ensures r == Some(Err(Closed)) && Valid() ==> src.closed
    {
      hide Call, Judged, U64, SpentReading;
      ghost var rd, from := View(), src.Now();
      ViewIsValid();
      ns := [];
      if size == 0 {
        var h;
        h, ns := ReadHeader(src);
        if h.Cancelled? {
          return None, ns;
        }
        if h.Failed? {
          assert h == Failed(Closed) || h == Failed(TooLong);
          return Some(Err(h.error)), ns;
        }
        assert U64(size) + buf[..0] == U64(size);
      } else {
        EntersPayload(src.data);
      }
      var p;
      p, ns := ReadPayload(src, rd, from, ns);
      if p.Cancelled? {
        return None, ns;
      }
      if p.Failed? {
        return Some(Err(Closed)), ns;
      }
      var s := buf;
      offset, size := 0, 0;
      buf := [];
      return Some(if utf8(s) then Ok(s) else Err(NotUtf8)), ns;
    }

    lemma EntersPayload(stream: Bytes)
      requires (Valid() || Exhausted()) && size > 0
      ensures ValidReader(View(), maxLen) && Call(View(), maxLen, utf8, stream, []) == Some((Status(), stream))
    {
      ViewIsValid();
      if Valid() {
        StatusWaits();
      }
    }

    /** `read_on`, from any state. For a reader in step, whatever the chunking and however often earlier calls were
        cancelled, a call that completes answers what `read_string` answers on the whole stream and leaves the same rest;
        a cancelled call loses nothing, and a call is cancelled only when a read was left pending. After a too-long error the call still is the model's, whose
        `ReusableIffHeaderInBounds` says what that is worth. */
    method ReadOn(src: ByteSource) returns (r: Option<Result<Bytes>>, ghost ns: seq<nat>)
      requires Valid() || Exhausted()
      modifies this, src
      ensures Valid() || Exhausted()
      ensures Stands(old(View()), old(src.Now()), ns, if r.None? then Waiting(View()) else Answer(r.value, View()), src)
      ensures old(Valid()) ==>
                && (r.None? ==> Valid() && Pending() + src.data == old(View()).pending + old(src.data))
                && (r.Some? ==> (r.value, src.data) == ReadString(old(View()).pending + old(src.data), maxLen, utf8))
                && (r == Some(Err(Closed)) ==>
                      Valid() && src.closed && src.data == [] && Pending() == old(View()).pending + old(src.data))
                && (r.Some? && (r.value.Ok? || r.value.error.NotUtf8?) ==> Valid() && Pending() == [])
                && (Exhausted() <==> r == Some(Err(TooLong)))
    {
      hide Call, ReadString;
      ViewIsValid();
      ghost var inStep, rd, stream := Valid(), View(), src.data;
      r, ns := Resume(src);
      if inStep {
        CallRefinesReadString(rd.pending, maxLen, utf8, stream, ns);
        OutcomeOfReadString(rd.pending + stream, maxLen, utf8);
      }
    }
  }

  lemma CallStarts(p: Bytes, maxLen: nat, utf8: Bytes -> bool, stream: Bytes)
    requires |p| < 8
    ensures Call(Holding(p), maxLen, utf8, stream, []) == Some((Judged(maxLen, utf8, p), stream))
  {
  }

  lemma ShortIsWaiting(q: Bytes, maxLen: nat, utf8: Bytes -> bool)
    requires |q| < 8
    ensures Judged(maxLen, utf8, q) == Waiting(Holding(q)) && Space(Holding(q), maxLen) == 8 - |q|
  {
  }

  lemma LongIsRejected(q: Bytes, maxLen: nat, utf8: Bytes -> bool)
    requires |q| == 8 && Head(q) > maxLen
    ensures Judged(maxLen, utf8, q) == Answer(Err(TooLong), Spent(Head(q), q, 0))
  {
    assert q[..8] == q;
  }

  lemma OutcomeOfReadString(total: Bytes, maxLen: nat, utf8: Bytes -> bool)
    ensures var a := ReadString(total, maxLen, utf8).0;
            && (a == Err(TooLong) <==> |total| >= 8 && Head(total) > maxLen)
            && (a == Err(Closed) ==> ReadString(total, maxLen, utf8).1 == [])
  {
  }

  class ResumableWriteString {
    var offset: nat
    var buf: Bytes

    ghost predicate Valid()
      reads this
    {
      offset <= |buf|
    }

    /** The bytes still to be written. */
    ghost function Remaining(): Bytes
      requires Valid()
      reads this
    {
      buf[offset..]
    }

    constructor (src: Bytes)
      ensures Valid() && Remaining() == WriteString(src)
    {
      var vec := new Byte[8](_ => 0);
      ShiftOut(vec, |src|);
      offset := 0;
      buf := vec[..] + src;
      new;
      assert vec[..] == vec[..8];
    }

    /** Puts a prefix of what remains on the wire; true exactly when everything has been written. */
    method WriteTo(sink: ByteSink) returns (done: bool, ghost k: nat)
      requires Valid()
      modifies this, sink
      ensures Valid() && sink.data + Remaining() == old(sink.data + Remaining())
      ensures old(sink.data) <= sink.data
      ensures done <==> Remaining() == []
      ensures Wrote(old(sink.sched), sink.sched, k, |sink.data| - |old(sink.data)|, done)
    {
      ghost var total, sent := sink.data + buf[offset..], |sink.data|;
      k := 0;
      while offset < |buf|
        invariant offset <= |buf| == |old(buf)| && sink.data + buf[offset..] == total
        invariant old(sink.data) <= sink.data
        invariant Wrote(old(sink.sched), sink.sched, k, |sink.data| - sent, true)
        decreases |sink.sched|
      {
        ghost var mid, bytes, sentBefore := sink.sched, |sink.data| - sent, sink.data;
        var n := sink.Write(buf[offset..]);
        WriteStep(old(sink.sched), mid, k, bytes, |buf| - offset, n);
        if n == 0 {
          return false, k;
        }
        k := k + 1;
        SliceAppend(sentBefore, buf, offset, n);
        offset := offset + n;
      }
      return true, k;
    }
  }

  // ---------------------------------------------------------------- file blocks

  class ResumableWriteFileBlock {
    const offset: nat
    var offsetLen: nat
    const offsetBytes: array<Byte>
    var bufOffset: nat
    const buf: Bytes
    var step: nat // 0: init, 1: offset, 2: payload

    ghost predicate Valid()
      reads this, offsetBytes
    {
      && offsetBytes.Length == 8 && step <= 2 && offsetLen <= 8 && bufOffset <= |buf|
      && (step < 2 ==> bufOffset == 0)
    }

    ghost function Remaining(): Bytes
      requires Valid()
      reads this, offsetBytes
    {
      match step
      case 0 => U64(offset) + buf
      case 1 => offsetBytes[..offsetLen] + buf
      case _ => buf[bufOffset..]
    }

    constructor (offset: nat, data: Bytes)
      ensures Valid() && Remaining() == Encode(Frame(offset, data)) && fresh(offsetBytes)
    {
      this.offset, this.buf := offset, data;
      offsetBytes := new Byte[8](_ => 0);
      offsetLen, bufOffset, step := 0, 0, 0;
    }

    /** `copy_within(n.., 0)` after n header bytes were written: the rest of the header moves to the front. */
    method ShiftFront(n: nat)
      requires offsetBytes.Length == 8 && n <= offsetLen <= 8
      modifies offsetBytes, this`offsetLen
      ensures offsetLen == old(offsetLen) - n
      ensures offsetBytes[..offsetLen] == old(offsetBytes[..offsetLen])[n..]
    {
      forall i | 0 <= i < 8 - n {
        offsetBytes[i] := offsetBytes[i + n];
      }
      offsetLen := offsetLen - n;
    }

    /** One write out of the shifting header buffer; 0 if the caller is cancelled. */
    method WriteOffsetOnce(sink: ByteSink) returns (n: nat)
      requires offsetBytes.Length == 8 && 0 < offsetLen <= 8
      modifies this`offsetLen, offsetBytes, sink
      ensures n == (if old(sink.sched) == [] then 0 else Least(old(sink.sched)[0], old(offsetLen)))
      ensures offsetLen == old(offsetLen) - n && old(sink.data) <= sink.data
      ensures sink.data + offsetBytes[..offsetLen] == old(sink.data + offsetBytes[..offsetLen])
      ensures sink.sched == Skip(old(sink.sched), 1)
    {
      ghost var sent, header := sink.data, offsetBytes[..offsetLen];
      n := sink.Write(offsetBytes[..offsetLen]);
      ShiftFront(n);
      SplitAppend(sent, header, n);
    }

    /** The loop that writes the header. */
    method WriteOffset(sink: ByteSink) returns (done: bool, ghost k: nat)
      requires Valid() && step == 1
      modifies this`offsetLen, offsetBytes, sink
      ensures Valid() && step == 1
      ensures sink.data + Remaining() == old(sink.data + Remaining())
      ensures old(sink.data) <= sink.data && (done <==> offsetLen == 0)
      ensures Wrote(old(sink.sched), sink.sched, k, |sink.data| - |old(sink.data)|, done)
    {
      ghost var total, sent := sink.data + offsetBytes[..offsetLen], |sink.data|;
      done, k := true, 0;
      while offsetLen > 0
        invariant old(sink.data) <= sink.data
        invariant Valid() && sink.data + offsetBytes[..offsetLen] == total
        invariant Wrote(old(sink.sched), sink.sched, k, |sink.data| - sent, true)
        decreases |sink.sched|
      {
        ghost var mid, bytes, len := sink.sched, |sink.data| - sent, offsetLen;
        var n := WriteOffsetOnce(sink);
        assert |sink.data| == sent + bytes + n;
        WriteStep(old(sink.sched), mid, k, bytes, len, n);
        if n == 0 {
          done := false;
          break;
        }
        k := k + 1;
      }
      Regrouped(sink.data, offsetBytes[..offsetLen], buf);
      Regrouped(old(sink.data), old(offsetBytes[..offsetLen]), buf);
    }

    /** The loop that writes the payload. */
    method WritePayload(sink: ByteSink) returns (done: bool, ghost k: nat)
      requires Valid() && step == 2
      modifies this, sink
      ensures Valid() && step == 2
      ensures sink.data + Remaining() == old(sink.data + Remaining())
      ensures old(sink.data) <= sink.data && (done <==> bufOffset == |buf|)
      ensures Wrote(old(sink.sched), sink.sched, k, |sink.data| - |old(sink.data)|, done)
    {
      ghost var total, sent := sink.data + buf[bufOffset..], |sink.data|;
      done, k := true, 0;
      while bufOffset < |buf|
        invariant old(sink.data) <= sink.data
        invariant Valid() && step == 2 && sink.data + buf[bufOffset..] == total
        invariant Wrote(old(sink.sched), sink.sched, k, |sink.data| - sent, true)
        decreases |sink.sched|
      {
        ghost var mid, bytes, sentBefore := sink.sched, |sink.data| - sent, sink.data;
        var n := sink.Write(buf[bufOffset..]);
        WriteStep(old(sink.sched), mid, k, bytes, |buf| - bufOffset, n);
        if n == 0 {
          done := false;
          break;
        }
        k := k + 1;
        SliceAppend(sentBefore, buf, bufOffset, n);
        bufOffset := bufOffset + n;
      }
    }

    /** Puts a prefix of the frame's remaining bytes on the wire; true exactly when the frame is complete. */
    method WriteTo(sink: ByteSink) returns (done: bool, ghost k: nat)
      requires Valid()
      modifies this, offsetBytes, sink
      ensures Valid() && sink.data + Remaining() == old(sink.data + Remaining())
      ensures old(sink.data) <= sink.data
      ensures done <==> Remaining() == []
      ensures Wrote(old(sink.sched), sink.sched, k, |sink.data| - |old(sink.data)|, done)
    {
      hide Wrote;
      ghost var total, sent, before := sink.data + Remaining(), |sink.data|, sink.sched;
      k := 0;
      WroteNothing(before);
      if step == 0 {
        ShiftOut(offsetBytes, offset);
        offsetLen, step := 8, 1;
      }
      assert sink.data + Remaining() == total;
      if step == 1 {
        done, k := WriteOffset(sink);
        if !done {
          return;
        }
        step := 2;
        assert Remaining() == [] + buf;
      }
      ghost var mid, bytes, m := sink.sched, |sink.data| - sent, k;
      done, k := WritePayload(sink);
      WroteThen(before, mid, sink.sched, m, k, bytes, |sink.data| - sent - bytes, done);
      k := m + k;
    }
  }

  lemma WroteNothing(sched: Schedule)
    ensures Wrote(sched, sched, 0, 0, true)
  {
  }

  lemma SliceAppend(sent: Bytes, b: Bytes, at: nat, n: nat)
    requires at + n <= |b|
    ensures (sent + b[at..][..n]) + b[at + n..] == sent + b[at..]
  {
    assert b[at..] == b[at..][..n] + b[at + n..];
  }

  lemma SplitAppend(a: Bytes, b: Bytes, n: nat)
    requires n <= |b|
    ensures (a + b[..n]) + b[n..] == a + b
  {
  }

  /** A growable buffer owned by the caller, such as the server's receive buffer. */
  class Buffer {
    var bytes: Bytes

    constructor ()
      ensures bytes == []
    {
      bytes := [];
    }
  }

  class ResumableReadFileBlock {
    var offset: nat
    const blockSize: nat
    const fileSize: nat
    var bufOffset: nat

    /** While a header or a payload is incomplete its bytes sit in the caller's buffer. */
    ghost predicate Valid(buf: Buffer)
      reads this, buf
    {
      && fileSize < U64_LIMIT
      && (bufOffset < 8 ==> offset == 0 && bufOffset <= |buf.bytes|)
      && (bufOffset >= 8 ==>
            && offset < U64_LIMIT
            && |buf.bytes| == PayloadLen(FileBlocks(blockSize, fileSize), offset)
            && bufOffset < 8 + |buf.bytes|)
    }

    ghost function Pending(buf: Buffer): Bytes
      requires Valid(buf)
      reads this, buf
    {
      if bufOffset < 8 then buf.bytes[..bufOffset] else U64(offset) + buf.bytes[..bufOffset - 8]
    }

    constructor (blockSize: nat, fileSize: nat)
      requires fileSize < U64_LIMIT
      ensures this.blockSize == blockSize && this.fileSize == fileSize
      ensures forall buf: Buffer :: Valid(buf) && Pending(buf) == []
    {
      offset, bufOffset := 0, 0;
      this.blockSize, this.fileSize := blockSize, fileSize;
    }

    lemma ValidIsPartial(buf: Buffer)
      requires Valid(buf)
      ensures Partial(FileBlocks(blockSize, fileSize), Pending(buf))
    {
      if bufOffset >= 8 {
        HeadOfU64(offset, buf.bytes[..bufOffset - 8]);
      }
    }

    ghost function Blocks(): Framing {
      FileBlocks(blockSize, fileSize)
    }

    /** Reads of `ns` bytes each, from pending bytes `p` and `stream` on, have come to `fed` and left what the source
        holds. */
    ghost predicate Came(p: Bytes, stream: Bytes, ns: seq<nat>, fed: Fed, src: ByteSource)
      reads src
    {
      fileSize < U64_LIMIT && Partial(Blocks(), p) && FeedAll(Blocks(), p, stream, ns) == Some((fed, src.data))
    }

    /** A call on `from` has come to `fed` without completing: a read had to be left pending. */
    ghost predicate Waits(p: Bytes, from: Supply, ns: seq<nat>, fed: Fed, src: ByteSource)
      reads src
    {
      Came(p, from.data, ns, fed, src) && src.LeftPending(from, |ns|)
    }

    /** The same, but the next read found the end of the stream. */
    ghost predicate Ends(p: Bytes, from: Supply, ns: seq<nat>, fed: Fed, src: ByteSource)
      reads src
    {
      && Came(p, from.data, ns, fed, src) && src.Made(from, |ns| + 1)
      && !Stalled(from.sched, |ns|, src.data, src.closed) && src.data == [] && src.closed
    }

    /** One read of a waiting call, into all the room the reader has. */
    method Fetch(src: ByteSource, max: nat, ghost p: Bytes, ghost from: Supply, ghost before: seq<nat>, ghost q: Bytes)
      returns (chunk: Option<Bytes>, ghost ns: seq<nat>)
      requires Came(p, from.data, before, More(q), src) && src.Made(from, |before|)
      requires Partial(Blocks(), q) && Room(Blocks(), q) == max
      modifies src
      ensures chunk.None? ==> ns == before && Waits(p, from, ns, More(q), src)
      ensures chunk == Some([]) ==> ns == before && Ends(p, from, ns, More(q), src)
      ensures chunk.Some? && chunk.value != [] ==>
                && |chunk.value| <= max && Came(p, from.data, ns, Judge(Blocks(), q + chunk.value), src)
                && src.Made(from, |ns|) && |src.sched| < |old(src.sched)|
    {
      hide FeedAll, Judge, Partial, Room, Idle, Skip, Least;
      ns := before;
      ghost var mid := src.Now();
      chunk := src.Read(max);
      src.OneMore(from, mid, |ns|);
      if chunk.Some? && chunk.value != [] {
        FeedNext(Blocks(), p, from.data, ns, q, chunk.value, src.data);
        ns := ns + [|chunk.value|];
      }
    }

    /** The header: its bytes, the shift loop, and a buffer of the length the offset implies. */
    method ReadHeader(src: ByteSource, buf: Buffer) returns (r: Progress, ghost ns: seq<nat>)
      requires Valid(buf) && bufOffset < 8
      modifies this, src, buf
      ensures r.Cancelled? ==> Valid(buf) && Waits(old(Pending(buf)), old(src.Now()), ns, More(Pending(buf)), src)
      ensures r.Failed? ==> Valid(buf) && Ends(old(Pending(buf)), old(src.Now()), ns, More(Pending(buf)), src)
      ensures r.Reached? ==>
                && InPayload(buf) && bufOffset == 8 && src.Made(old(src.Now()), |ns|)
                && Came(old(Pending(buf)), old(src.data), ns, Judge(Blocks(), U64(offset)), src)
    {
      hide FeedAll, Judge, U64;
      ghost var p := Pending(buf);
      ns := [];
      FeedStarts(Blocks(), p, src.data);
      buf.bytes := Resize(buf.bytes, 8);
      assert p == buf.bytes[..bufOffset];
      while bufOffset < 8
        invariant bufOffset <= 8 && |buf.bytes| == 8 && offset == 0 && src.Made(old(src.Now()), |ns|)
        invariant Came(p, old(src.data), ns, Judge(Blocks(), buf.bytes[..bufOffset]), src)
        decreases |src.sched|
      {
        ghost var q := buf.bytes[..bufOffset];
        FeedIsJudge(Blocks(), q, []);
        var chunk;
        chunk, ns := Fetch(src, 8 - bufOffset, p, old(src.Now()), ns, q);
        if chunk.None? {
          return Cancelled, ns;
        }
        if chunk.value == [] {
          return Failed(Closed), ns;
        }
        buf.bytes := Splice(buf.bytes, bufOffset, chunk.value);
        bufOffset := bufOffset + |chunk.value|;
      }
      assert buf.bytes[..8] == buf.bytes;
      offset := ShiftIn(buf.bytes);
      U64OfHead(buf.bytes);
      var rem := WrappingSub(fileSize, offset);
      buf.bytes := Resize([], if rem < blockSize then rem else blockSize);
      return Reached, ns;
    }

    ghost predicate InPayload(buf: Buffer)
      reads this, buf
    {
      && offset < U64_LIMIT && fileSize < U64_LIMIT
      && |buf.bytes| == PayloadLen(Blocks(), offset) && 8 <= bufOffset <= 8 + |buf.bytes|
    }

    /** One pass of the payload loop; `Reached` if it got bytes. */
    method ReadOnce(src: ByteSource, buf: Buffer, ghost p: Bytes, ghost from: Supply, ghost before: seq<nat>)
      returns (r: Progress, ghost ns: seq<nat>)
      requires InPayload(buf) && bufOffset < 8 + |buf.bytes| && src.Made(from, |before|)
      requires Came(p, from.data, before, Judge(Blocks(), U64(offset) + buf.bytes[..bufOffset - 8]), src)
      modifies this`bufOffset, src, buf
      ensures InPayload(buf)
      ensures r.Reached? ==>
                && Came(p, from.data, ns, Judge(Blocks(), U64(offset) + buf.bytes[..bufOffset - 8]), src)
                && src.Made(from, |ns|) && |src.sched| < |old(src.sched)|
      ensures r.Cancelled? ==> Valid(buf) && Waits(p, from, ns, More(Pending(buf)), src)
      ensures r.Failed? ==> Valid(buf) && Ends(p, from, ns, More(Pending(buf)), src)
    {
      PayloadMissing(Blocks(), offset, buf.bytes[..bufOffset - 8]);
      hide FeedAll, Judge, U64, PayloadLen, Partial, Room, Splice, Idle, Skip, Least;
      ns := before;
      var chunk;
      chunk, ns := Fetch(src, |buf.bytes| - (bufOffset - 8), p, from, ns, U64(offset) + buf.bytes[..bufOffset - 8]);
      if chunk.None? {
        return Cancelled, ns;
      }
      if chunk.value == [] {
        return Failed(Closed), ns;
      }
      Regrouped(U64(offset), buf.bytes[..bufOffset - 8], chunk.value);
      buf.bytes := Splice(buf.bytes, bufOffset - 8, chunk.value);
      bufOffset := bufOffset + |chunk.value|;
      return Reached, ns;
    }

    /** The payload loop. */
    method ReadPayload(src: ByteSource, buf: Buffer, ghost p: Bytes, ghost from: Supply, ghost before: seq<nat>)
      returns (r: Progress, ghost ns: seq<nat>)
      requires InPayload(buf) && src.Made(from, |before|)
      requires Came(p, from.data, before, Judge(Blocks(), U64(offset) + buf.bytes[..bufOffset - 8]), src)
      modifies this`bufOffset, src, buf
      ensures InPayload(buf)
      ensures r.Reached? ==> Came(p, from.data, ns, Got(Frame(offset, buf.bytes)), src) && src.Made(from, |ns|)
      ensures r.Cancelled? ==> Valid(buf) && Waits(p, from, ns, More(Pending(buf)), src)
      ensures r.Failed? ==> Valid(buf) && Ends(p, from, ns, More(Pending(buf)), src)
    {
      hide FeedAll, Judge, U64, PayloadLen, Partial;
      r, ns := Reached, before;
      while bufOffset < 8 + |buf.bytes|
        invariant InPayload(buf) && src.Made(from, |ns|)
        invariant Came(p, from.data, ns, Judge(Blocks(), U64(offset) + buf.bytes[..bufOffset - 8]), src)
        decreases |src.sched|
      {
        r, ns := ReadOnce(src, buf, p, from, ns);
        if !r.Reached? {
          return;
        }
      }
      assert buf.bytes[..bufOffset - 8] == buf.bytes;
      PayloadComplete(Blocks(), offset, buf.bytes);
      r := Reached;
    }

    /** One call on values: it makes some reads and then stands where the model's reader stands after them. */
    method Resume(src: ByteSource, buf: Buffer) returns (r: Option<Result<nat>>, ghost ns: seq<nat>)
      requires Valid(buf)
      modifies this, src, buf
      ensures Valid(buf)
      ensures r.None? ==> Waits(old(Pending(buf)), old(src.Now()), ns, More(Pending(buf)), src)
      ensures r.Some? && r.value.Err? ==> Ends(old(Pending(buf)), old(src.Now()), ns, More(Pending(buf)), src)
      ensures r.Some? && r.value.Ok? ==>
                && Pending(buf) == [] && src.Made(old(src.Now()), |ns|)
                && Came(old(Pending(buf)), old(src.data), ns, Got(Frame(r.value.value, buf.bytes)), src)
    {
      hide FeedAll, Judge, U64, PayloadLen, Partial;
      ghost var p, from := Pending(buf), src.Now();
      ns := [];
      if bufOffset < 8 {
        var h;
        h, ns := ReadHeader(src, buf);
        if h.Cancelled? {
          return None, ns;
        }
        if h.Failed? {
          return Some(Err(Closed)), ns;
        }
        assert U64(offset) + buf.bytes[..0] == U64(offset);
      } else {
        ValidIsPartial(buf);
        FeedStarts(Blocks(), p, from.data);
      }
      var d;
      d, ns := ReadPayload(src, buf, p, from, ns);
      if d.Cancelled? {
        return None, ns;
      }
      if d.Failed? {
        return Some(Err(Closed)), ns;
      }
      var blockOffset := offset;
      offset, bufOffset := 0, 0;
      return Some(Ok(blockOffset)), ns;
    }

    /** `read_on`. The reads of a call, whatever their sizes, come to what the model's reader makes of them: a call that
        completes has taken exactly one frame off the stream, with the length its offset implies; a cancelled call loses
        nothing, and a call is cancelled only when a read was left pending; a failed one met the end of the stream inside
        (or right before) a frame. */
    method ReadOn(src: ByteSource, buf: Buffer) returns (r: Option<Result<nat>>, ghost ns: seq<nat>)
      requires Valid(buf)
      modifies this, src, buf
      ensures Valid(buf)
      ensures r.None? ==> Waits(old(Pending(buf)), old(src.Now()), ns, More(Pending(buf)), src)
      ensures r.None? || r.value.Err? ==> Pending(buf) + src.data == old(Pending(buf) + src.data)
      ensures r.Some? && r.value.Err? ==> Ends(old(Pending(buf)), old(src.Now()), ns, More(Pending(buf)), src)
      ensures r.Some? && r.value.Ok? ==>
                var f := Frame(r.value.value, buf.bytes);
                && Pending(buf) == [] && Came(old(Pending(buf)), old(src.data), ns, Got(f), src)
                && src.Made(old(src.Now()), |ns|)
                && ValidFrame(FileBlocks(blockSize, fileSize), f)
                && Encode(f) + src.data == old(Pending(buf) + src.data)
    {
      hide FeedAll, PayloadLen, Partial, Encode, ValidFrame;
      ghost var p, stream := Pending(buf), src.data;
      r, ns := Resume(src, buf);
      if r.None? || r.value.Err? {
        FeedAllKeepsBytes(Blocks(), p, stream, ns, More(Pending(buf)), src.data);
      } else {
        FeedAllKeepsBytes(Blocks(), p, stream, ns, Got(Frame(r.value.value, buf.bytes)), src.data);
      }
    }
  }

  lemma FeedStarts(fr: Framing, p: Bytes, stream: Bytes)
    requires ValidFraming(fr) && Partial(fr, p)
    ensures FeedAll(fr, p, stream, []) == Some((Judge(fr, p), stream))
  {
  }

  lemma PayloadMissing(fr: Framing, v: nat, got: Bytes)
    requires fr.FileBlocks? && ValidFraming(fr) && v < U64_LIMIT && |got| < PayloadLen(fr, v)
    ensures var q := U64(v) + got;
            Partial(fr, q) && Judge(fr, q) == More(q) && Room(fr, q) == PayloadLen(fr, v) - |got|
  {
    HeadOfU64(v, got);
  }

  lemma PayloadComplete(fr: Framing, v: nat, payload: Bytes)
    requires fr.FileBlocks? && ValidFraming(fr) && v < U64_LIMIT && |payload| == PayloadLen(fr, v)
    ensures Judge(fr, U64(v) + payload) == Got(Frame(v, payload))
  {
    HeadOfU64(v, payload);
    assert (U64(v) + payload)[8..] == payload;
  }

  // ---------------------------------------------------------------- disk

  class ResumableAsyncWriteAll {
    const write: DiskFile
    var offset: nat

    constructor (write: DiskFile)
      ensures this.write == write && offset == 0
    {
      this.write := write;
      offset := 0;
    }

    /** Writes a prefix of the data that is left, at the file position and nowhere else; not done only if a write was
        left pending. */
    method WriteAll(data: Bytes) returns (done: bool, ghost k: nat)
      requires offset <= |data|
      modifies this, write
      ensures old(offset) <= offset <= |data| && write.pos == old(write.pos) + (offset - old(offset))
      ensures write.content == WriteAt(old(write.content), old(write.pos), data[old(offset)..offset])
      ensures done <==> offset == |data|
      ensures Wrote(old(write.sched), write.sched, k, offset - old(offset), done)
    {
      hide WriteAt, Wrote;
      ghost var start, base := offset, write.pos;
      k := 0;
      WroteNothing(write.sched);
      WriteAtNothing(write.content, write.pos, data, offset);
      while offset < |data|
        invariant start <= offset <= |data| && write.pos == base + (offset - start)
        invariant write.content == WriteAt(old(write.content), base, data[start..offset])
        invariant Wrote(old(write.sched), write.sched, k, offset - start, true)
        decreases |write.sched|
      {
        ghost var mid := write.sched;
        var n := write.Write(data[offset..]);
        WriteStep(old(write.sched), mid, k, offset - start, |data| - offset, n);
        WriteAtContinues(old(write.content), base, data, start, offset, n);
        offset := offset + n;
        if n == 0 {
          return false, k;
        }
        k := k + 1;
      }
      return true, k;
    }
  }

  /** Two adjacent writes are one write of both pieces. */
  lemma WriteAtTwice(f: Bytes, at: nat, a: Bytes, b: Bytes)
    ensures WriteAt(WriteAt(f, at, a), at + |a|, b) == WriteAt(f, at, a + b)
  {
  }

  lemma WriteAtNothing(f: Bytes, at: nat, data: Bytes, k: nat)
    requires k <= |data|
    ensures WriteAt(f, at, data[k..k]) == f
  {
    assert data[k..k] == [];
  }

  /** A write that stopped after data[start..at] and went on for n bytes has written data[start..at + n]. */
  lemma WriteAtContinues(f: Bytes, base: nat, data: Bytes, start: nat, at: nat, n: nat)
    requires start <= at && at + n <= |data|
    ensures WriteAt(WriteAt(f, base, data[start..at]), base + (at - start), data[at..][..n])
         == WriteAt(f, base, data[start..at + n])
  {
    assert data[start..at] + data[at..][..n] == data[start..at + n];
    WriteAtTwice(f, base, data[start..at], data[at..][..n]);
  }

  // ---------------------------------------------------------------- round trips

  /** Writes one block to the end, resuming after every cancellation; it gives up only when the schedule is over, and a
      schedule with a write for every byte suffices. */
  method SendBlock(f: Frame, sink: ByteSink, ghost spare: nat) returns (done: bool)
    modifies sink
    ensures old(sink.data) <= sink.data <= old(sink.data) + Encode(f)
    ensures done ==> sink.data == old(sink.data) + Encode(f)
    ensures !done ==> sink.sched == []
    ensures Generous(old(sink.sched), |Encode(f)| + spare) ==> done && Generous(sink.sched, spare)
  {
    hide Encode;
    var w := new ResumableWriteFileBlock(f.v, f.payload);
    assert Frame(f.v, f.payload) == f;
    ghost var k;
    done, k := w.WriteTo(sink);
    if Generous(old(sink.sched), |Encode(f)| + spare) {
      GenerousWritesAll(old(sink.sched), sink.sched, k, |sink.data| - |old(sink.data)|, |Encode(f)|, done);
      GenerousSkip(old(sink.sched), k, |Encode(f)| + spare, spare);
    }
    while !done
      invariant w.Valid() && fresh(w) && fresh(w.offsetBytes) && old(sink.data) <= sink.data
      invariant sink.data + w.Remaining() == old(sink.data) + Encode(f)
      invariant done ==> w.Remaining() == []
      invariant Generous(old(sink.sched), |Encode(f)| + spare) ==> done && Generous(sink.sched, spare)
      decreases |sink.sched|, !done
    {
      if sink.sched == [] {
        return false;
      }
      done, k := w.WriteTo(sink);
    }
  }

  /** Writes a list of blocks the way the client's loop does, one writer per block, over any schedule. */
  method SendBlocks(fs: seq<Frame>, sink: ByteSink) returns (complete: bool)
    requires sink.data == []
    modifies sink
    ensures sink.data <= Stream(fs)
    ensures complete ==> sink.data == Stream(fs)
    ensures !complete ==> sink.sched == []
    ensures Generous(old(sink.sched), |Stream(fs)|) ==> complete
  {
    hide Encode, Generous;
    assert fs[..0] == [];
    ghost var enough := Generous(sink.sched, |Stream(fs)|);
    for i := 0 to |fs|
      invariant sink.data == Stream(fs[..i]) && |sink.data| <= |Stream(fs)|
      invariant enough ==> Generous(sink.sched, |Stream(fs)| - |sink.data|)
    {
      StreamPrefix(fs, i);
      ghost var m := |Stream(fs)| - |sink.data| - |Encode(fs[i])|;
      assert |Encode(fs[i])| + m == |Stream(fs)| - |sink.data|;
      var done := SendBlock(fs[i], sink, m);
      if !done {
        return false;
      }
      StreamAppend(fs[..i], fs[i]);
      assert fs[..i] + [fs[i]] == fs[..i + 1];
    }
    assert fs[..|fs|] == fs;
    return true;
  }

  lemma {:induction false} StreamPrefix(fs: seq<Frame>, i: nat)
    requires i < |fs|
    ensures Stream(fs[..i]) + Encode(fs[i]) <= Stream(fs)
  {
    if i == 0 {
      assert fs[..0] == [];
    } else {
      StreamPrefix(fs[1..], i - 1);
      assert fs[..i][1..] == fs[1..][..i - 1];
    }
  }

  /** A closed stream with a read for every byte and one for its end leaves no call pending. */
  lemma GenerousReads(sched: Schedule, k: nat, stream: Bytes, rest: Bytes)
    requires k + |rest| <= |stream| && Generous(sched, |stream| + 1)
    ensures !Stalled(sched, k, rest, true) && Generous(Skip(sched, k), |rest| + 1)
  {
    GenerousSkip(sched, k, |stream| + 1, |rest| + 1);
  }

  /** A call on a stream that starts with a whole frame is not left waiting if there is a read for each of its bytes. */
  lemma WholeFrameIsTaken(fr: Framing, p: Bytes, from: Supply, ns: seq<nat>, q: Bytes, rest: Bytes, f: Frame, tail: Bytes)
    requires ValidFraming(fr) && Partial(fr, p) && ValidFrame(fr, f) && p + from.data == Encode(f) + tail
    requires FeedAll(fr, p, from.data, ns) == Some((More(q), rest)) && Partial(fr, q)
    requires Generous(from.sched, |Encode(f)|)
    ensures !Stalled(from.sched, |ns|, rest, from.closed)
  {
    hide Encode, FeedAll, Partial;
    FeedAllKeepsBytes(fr, p, from.data, ns, More(q), rest);
    PartialShorterThanFrame(fr, q, rest, f, tail);
    FeedAllCount(fr, p, from.data, ns, More(q), rest);
    assert |q| + |rest| == |p| + |from.data| == |Encode(f)| + |tail|;
  }

  /** One call: the first block, nothing yet, or the end of the stream, which comes after the last block only. */
  method ReceiveBlock(rd: ResumableReadFileBlock, src: ByteSource, buf: Buffer, ghost fs: seq<Frame>)
    returns (r: Option<Result<nat>>)
    requires rd.Valid(buf) && rd.Pending(buf) + src.data == Stream(fs) && src.closed
    requires ValidFrames(FileBlocks(rd.blockSize, rd.fileSize), fs)
    modifies rd, src, buf
    ensures rd.Valid(buf) && src.closed && |src.sched| <= |old(src.sched)|
    ensures r.Some? || src.sched == [] || |src.sched| < |old(src.sched)|
    ensures r.None? || r.value.Err? ==> rd.Pending(buf) + src.data == Stream(fs)
    ensures r.Some? && r.value.Err? ==> fs == [] && src.data == []
    ensures r.Some? && r.value.Ok? ==>
              fs != [] && fs[0] == Frame(r.value.value, buf.bytes) && rd.Pending(buf) + src.data == Stream(fs[1..])
    ensures Generous(old(src.sched), |old(src.data)| + 1) ==>
              r.Some? && (r.value.Ok? ==> Generous(src.sched, |src.data| + 1))
  {
    hide Stream, Encode, PayloadLen, Partial, FeedAll, U64;
    ghost var fr, p, from := FileBlocks(rd.blockSize, rd.fileSize), rd.Pending(buf), src.Now();
    ghost var ns;
    r, ns := rd.ReadOn(src, buf);
    ghost var fed := if r.Some? && r.value.Ok? then Got(Frame(r.value.value, buf.bytes)) else More(rd.Pending(buf));
    FeedAllCount(fr, p, from.data, ns, fed, src.data);
    if Generous(from.sched, |from.data| + 1) {
      GenerousReads(from.sched, |ns|, from.data, src.data);
    }
    if r.Some? && r.value.Err? {
      rd.ValidIsPartial(buf);
      DrainedStream(fr, rd.Pending(buf), fs);
    } else if r.Some? {
      FirstFrame(fr, Frame(r.value.value, buf.bytes), src.data, fs);
    }
  }

  /** Reads blocks the way the server's loop does until the stream ends: whatever the chunking and the
      cancellations, the received list is a prefix of the sent one and the rest is still to come; at the end of the stream
      it is the whole list, every byte consumed, although no length was ever sent. The loop gives up only when the
      schedule is over, and a schedule with a read for every byte and one for the end suffices. */
  method ReceiveBlocks(rd: ResumableReadFileBlock, src: ByteSource, buf: Buffer, ghost fs: seq<Frame>)
    returns (got: seq<Frame>, ended: bool)
    requires rd.Valid(buf) && rd.Pending(buf) + src.data == Stream(fs) && src.closed
    requires ValidFrames(FileBlocks(rd.blockSize, rd.fileSize), fs)
    modifies rd, src, buf
    ensures rd.Valid(buf) && got <= fs && rd.Pending(buf) + src.data == Stream(fs[|got|..])
    ensures ended ==> got == fs && src.data == []
    ensures !ended ==> src.sched == []
    ensures Generous(old(src.sched), |old(src.data)| + 1) ==> ended
  {
    hide Stream, U64, PayloadLen, Generous;
    got, ended := [], false;
    ghost var left, enough := fs, Generous(src.sched, |src.data| + 1);
    while !ended && src.sched != []
      invariant rd.Valid(buf) && src.closed && got + left == fs
      invariant ValidFrames(FileBlocks(rd.blockSize, rd.fileSize), left)
      invariant rd.Pending(buf) + src.data == Stream(left)
      invariant ended ==> left == [] && src.data == []
      invariant enough && !ended ==> Generous(src.sched, |src.data| + 1)
      decreases |src.sched|, |left|, !ended
    {
      var r := ReceiveBlock(rd, src, buf, left);
      if r.Some? && r.value.Err? {
        ended := true;
      } else if r.Some? {
        NextFrame(FileBlocks(rd.blockSize, rd.fileSize), got, left);
        got, left := got + [Frame(r.value.value, buf.bytes)], left[1..];
      }
    }
    assert fs[|got|..] == left;
    if enough && !ended {
      NotGenerous(src.sched, |src.data| + 1);
    }
  }

  lemma NotGenerous(sched: Schedule, n: nat)
    requires n > 0
    ensures Generous(sched, n) ==> sched != []
  {
  }

  lemma NextFrame(fr: Framing, got: seq<Frame>, left: seq<Frame>)
    requires left != [] && ValidFraming(fr) && ValidFrames(fr, left)
    ensures (got + [left[0]]) + left[1..] == got + left && ValidFrames(fr, left[1..])
  {
  }

  lemma DrainedStream(fr: Framing, p: Bytes, fs: seq<Frame>)
    requires ValidFraming(fr) && ValidFrames(fr, fs) && Partial(fr, p) && p + [] == Stream(fs)
    ensures fs == [] && p == []
  {
    assert p + ([] + []) == p + [];
    FlowDrained(fr, p, fs);
  }

  /** The bytes of a list of strings, written by `write_string` or by a `ResumableWriteString` each. */
  function WriteStrings(ss: seq<Bytes>): Bytes {
    if ss == [] then [] else WriteString(ss[0]) + WriteStrings(ss[1..])
  }

  /** Strings a reader with this limit accepts. */
  predicate Acceptable(ss: seq<Bytes>, maxLen: nat, utf8: Bytes -> bool) {
    forall i :: 0 <= i < |ss| ==> |ss[i]| <= maxLen && utf8(ss[i])
  }

  /** One call: the first string, nothing yet, or the end of the stream, which comes after the last string only. */
  method ReceiveString(rd: ResumableReadString, src: ByteSource, ghost ss: seq<Bytes>) returns (r: Option<Result<Bytes>>)
    requires rd.Valid() && rd.Pending() + src.data == WriteStrings(ss) && src.closed
    requires Acceptable(ss, rd.maxLen, rd.utf8)
    modifies rd, src
    ensures rd.Valid() && src.closed && |src.sched| <= |old(src.sched)|
    ensures r.Some? || src.sched == [] || |src.sched| < |old(src.sched)|
    ensures r.None? || r.value.Err? ==> rd.Pending() + src.data == WriteStrings(ss)
    ensures r.Some? && r.value.Err? ==> ss == [] && src.data == []
    ensures r.Some? && r.value.Ok? ==>
              ss != [] && r.value.value == ss[0] && rd.Pending() + src.data == WriteStrings(ss[1..])
    ensures Generous(old(src.sched), |old(src.data)| + 1) ==>
              r.Some? && (r.value.Ok? ==> Generous(src.sched, |src.data| + 1))
  {
    hide WriteStrings, ReadString, Call, U64, ValidReader, Acceptable;
    FirstString(ss, rd.maxLen, rd.utf8);
    ghost var before, from := rd.View(), src.Now();
    ghost var ns;
    r, ns := rd.ReadOn(src);
    ghost var reading := if r.None? then Waiting(rd.View()) else Answer(r.value, rd.View());
    CallCount(before, rd.maxLen, rd.utf8, from.data, ns, reading, src.data);
    if Generous(from.sched, |from.data| + 1) && (r.None? || r.value.Ok?) {
      GenerousReads(from.sched, |ns|, from.data, src.data);
    }
  }

  /** Reads strings the way the client's loop does until the stream ends: the received list is a prefix of the
      sent one and the rest is still to come; at the end of the stream it is the whole list, empty strings included. The
      loop gives up only when the schedule is over, and a schedule with a read for every byte and one for the end
      suffices. */
  method ReceiveStrings(rd: ResumableReadString, src: ByteSource, ghost ss: seq<Bytes>)
    returns (got: seq<Bytes>, ended: bool)
    requires rd.Valid() && rd.Pending() + src.data == WriteStrings(ss) && src.closed
    requires Acceptable(ss, rd.maxLen, rd.utf8)
    modifies rd, src
    ensures rd.Valid() && got <= ss && rd.Pending() + src.data == WriteStrings(ss[|got|..])
    ensures ended ==> got == ss && src.data == []
    ensures !ended ==> src.sched == []
    ensures Generous(old(src.sched), |old(src.data)| + 1) ==> ended
  {
    hide WriteStrings, U64, Acceptable, Generous;
    got, ended := [], false;
    ghost var left, enough := ss, Generous(src.sched, |src.data| + 1);
    while !ended && src.sched != []
      invariant rd.Valid() && src.closed && got + left == ss && Acceptable(left, rd.maxLen, rd.utf8)
      invariant rd.Pending() + src.data == WriteStrings(left)
      invariant ended ==> left == [] && src.data == []
      invariant enough && !ended ==> Generous(src.sched, |src.data| + 1)
      decreases |src.sched|, |left|, !ended
    {
      var r := ReceiveString(rd, src, left);
      if r.Some? && r.value.Err? {
        ended := true;
      } else if r.Some? {
        NextString(got, left, rd.maxLen, rd.utf8);
        got, left := got + [r.value.value], left[1..];
      }
    }
    assert ss[|got|..] == left;
    if enough && !ended {
      NotGenerous(src.sched, |src.data| + 1);
    }
  }

  lemma NextString(got: seq<Bytes>, left: seq<Bytes>, maxLen: nat, utf8: Bytes -> bool)
    requires left != [] && Acceptable(left, maxLen, utf8)
    ensures (got + [left[0]]) + left[1..] == got + left && Acceptable(left[1..], maxLen, utf8)
  {
  }

  lemma FirstString(ss: seq<Bytes>, maxLen: nat, utf8: Bytes -> bool)
    requires Acceptable(ss, maxLen, utf8) && maxLen < U64_LIMIT
    ensures ReadString(WriteStrings(ss), maxLen, utf8)
            == if ss == [] then (Err(Closed), []) else (Ok(ss[0]), WriteStrings(ss[1..]))
    ensures WriteStrings([]) == []
  {
    if ss != [] {
      ReadStringInvertsWriteString(ss[0], WriteStrings(ss[1..]), maxLen, utf8);
    }
  }

  /** A stream of valid frames decomposes in only one way. */
  lemma FirstFrame(fr: Framing, f: Frame, rest: Bytes, fs: seq<Frame>)
    requires ValidFraming(fr) && ValidFrame(fr, f) && ValidFrames(fr, fs) && Encode(f) + rest == Stream(fs)
    ensures fs != [] && fs[0] == f && rest == Stream(fs[1..])
  {
    assert |Encode(f) + rest| > 0;
    SameFrame(fr, f, rest, fs[0], Stream(fs[1..]));
  }

  lemma SameFrame(fr: Framing, f: Frame, rest: Bytes, g: Frame, tail: Bytes)
    requires ValidFraming(fr) && ValidFrame(fr, f) && ValidFrame(fr, g) && Encode(f) + rest == Encode(g) + tail
    ensures f == g && rest == tail
  {
    HeadOfU64(f.v, f.payload + rest);
    HeadOfU64(g.v, g.payload + tail);
    hide U64;
    var whole := Encode(f) + rest;
    assert whole == U64(f.v) + (f.payload + rest) && whole == U64(g.v) + (g.payload + tail);
    assert f.payload == whole[8..8 + |f.payload|] && g.payload == whole[8..8 + |f.payload|];
    assert rest == whole[8 + |f.payload|..] && tail == whole[8 + |f.payload|..];
  }
}
