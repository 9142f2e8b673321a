/**
 The byte-level wire format of deltasync (src/common.rs): big-endian 64-bit headers, the two
 kinds of frames that follow a handshake (length-prefixed strings and file blocks whose length
 is never sent), and the value-level behaviour of a resumable frame reader.
 */
module Wire {

  type Byte = b: int | 0 <= b < 256
  type Bytes = seq<Byte>

  datatype Option<+T> = None | Some(value: T)

  const U64_LIMIT: nat := 0x1_0000_0000_0000_0000

  lemma Regrouped(a: Bytes, b: Bytes, c: Bytes)
    ensures (a + b) + c == a + (b + c)
  {
  }

  // ---------------------------------------------------------------- big-endian integers

  function Pow256(n: nat): nat {
    if n == 0 then 1 else 256 * Pow256(n - 1)
  }

  function BigEndian(n: nat, v: nat): (r: Bytes)
    ensures |r| == n
  {
    if n == 0 then [] else BigEndian(n - 1, v / 256) + [v % 256]
  }

  function FromBigEndian(s: Bytes): nat {
    if s == [] then 0 else 256 * FromBigEndian(s[..|s| - 1]) + s[|s| - 1]
  }

  lemma Pow256Of8()
    ensures Pow256(8) == U64_LIMIT
  {
    assert Pow256(2) == 65536;
    assert Pow256(4) == 256 * (256 * Pow256(2));
    assert Pow256(6) == 256 * (256 * Pow256(4));
    assert Pow256(8) == 256 * (256 * Pow256(6));
  }

  lemma {:induction false} BigEndianRoundTrip(n: nat, v: nat)
    requires v < Pow256(n)
    ensures FromBigEndian(BigEndian(n, v)) == v
  {
    if n > 0 {
      BigEndianRoundTrip(n - 1, v / 256);
      var s := BigEndian(n, v);
      assert s[..|s| - 1] == BigEndian(n - 1, v / 256);
    }
  }

  lemma {:induction false} FromBigEndianBound(s: Bytes)
    ensures FromBigEndian(s) < Pow256(|s|)
  {
    if s != [] {
      FromBigEndianBound(s[..|s| - 1]);
    }
  }

  lemma {:induction false} FromBigEndianInverse(s: Bytes)
    ensures BigEndian(|s|, FromBigEndian(s)) == s
  {
    if s != [] {
      FromBigEndianInverse(s[..|s| - 1]);
      assert FromBigEndian(s) / 256 == FromBigEndian(s[..|s| - 1]);
      assert s == s[..|s| - 1] + [s[|s| - 1]];
    }
  }

  function U64(v: nat): (r: Bytes)
    ensures |r| == 8
  {
    BigEndian(8, v)
  }

  /** The header value of a byte sequence that holds at least a header. */
  function Head(p: Bytes): (v: nat)
    requires |p| >= 8
    ensures v < U64_LIMIT
  {
    Pow256Of8();
    FromBigEndianBound(p[..8]);
    FromBigEndian(p[..8])
  }

  lemma HeadOfU64(v: nat, t: Bytes)
    requires v < U64_LIMIT
    ensures Head(U64(v) + t) == v
  {
    Pow256Of8();
    assert (U64(v) + t)[..8] == U64(v);
    BigEndianRoundTrip(8, v);
  }

  lemma U64OfHead(p: Bytes)
    requires |p| >= 8
    ensures U64(Head(p)) == p[..8]
  {
    FromBigEndianInverse(p[..8]);
  }

  // ---------------------------------------------------------------- the header format, byte by byte

  lemma DivDiv(v: nat, b: nat)
    requires b > 0
    ensures v / 256 / b == v / (256 * b)
  {
    var q, r := v / 256 / b, v / 256 % b;
    assert v / 256 == b * q + r;
    Associates(b, q);
    QuotientIs(v, 256 * b, q, 256 * r + v % 256);
  }

  lemma Associates(b: nat, q: nat)
    ensures 256 * (b * q) == (256 * b) * q
  {
  }

  lemma QuotientIs(v: nat, d: nat, q: nat, r: nat)
    requires v == d * q + r && r < d
    ensures v / d == q
  {
    var k := v / d - q;
    assert d * k == d * (v / d) - d * q;
    Multiple(d, k);
  }

  lemma Multiple(d: nat, k: int)
    ensures k >= 1 ==> d * k >= d
    ensures k <= -1 ==> d * k + d <= 0
  {
    if k >= 1 {
      assert d * k == d * (k - 1) + d;
    } else if k <= -1 {
      assert d * k == d * (k + 1) - d;
    }
  }

  lemma {:induction false} BigEndianAt(n: nat, v: nat, i: nat)
    requires i < n
    ensures Pow256(n - 1 - i) > 0 && BigEndian(n, v)[i] == v / Pow256(n - 1 - i) % 256
  {
    if i < n - 1 {
      BigEndianAt(n - 1, v / 256, i);
      DivDiv(v, Pow256(n - 2 - i));
    }
  }

  lemma Pow256Values()
    ensures Pow256(0) == 1 && Pow256(1) == 0x100 && Pow256(2) == 0x1_0000 && Pow256(3) == 0x100_0000
    ensures Pow256(4) == 0x1_0000_0000 && Pow256(5) == 0x100_0000_0000 && Pow256(6) == 0x1_0000_0000_0000
    ensures Pow256(7) == 0x100_0000_0000_0000
  {
    assert Pow256(0) == 1;
    assert Pow256(1) == 256 * Pow256(0);
    assert Pow256(2) == 256 * Pow256(1);
    assert Pow256(3) == 256 * Pow256(2);
    assert Pow256(4) == 256 * Pow256(3);
    assert Pow256(5) == 256 * Pow256(4);
    assert Pow256(6) == 256 * Pow256(5);
    assert Pow256(7) == 256 * Pow256(6);
  }

  /** A header is eight bytes, the most significant first. */
  lemma HeaderBytes(v: nat)
    ensures U64(v) == [v / 0x100_0000_0000_0000 % 256, v / 0x1_0000_0000_0000 % 256, v / 0x100_0000_0000 % 256,
                       v / 0x1_0000_0000 % 256, v / 0x100_0000 % 256, v / 0x1_0000 % 256, v / 0x100 % 256, v % 256]
  {
    Pow256Values();
    BigEndianAt(8, v, 0);
    BigEndianAt(8, v, 1);
    BigEndianAt(8, v, 2);
    BigEndianAt(8, v, 3);
    BigEndianAt(8, v, 4);
    BigEndianAt(8, v, 5);
    BigEndianAt(8, v, 6);
    BigEndianAt(8, v, 7);
  }

  /** The value of a header, byte by byte. */
  lemma HeaderValue(p: Bytes)
    requires |p| >= 8
    ensures Head(p) == 0x100_0000_0000_0000 * p[0] as int + 0x1_0000_0000_0000 * p[1] as int + 0x100_0000_0000 * p[2] as int
                       + 0x1_0000_0000 * p[3] as int + 0x100_0000 * p[4] as int + 0x1_0000 * p[5] as int + 0x100 * p[6] as int + p[7]
  {
    PrefixValue(p, 1);
    PrefixValue(p, 2);
    PrefixValue(p, 3);
    PrefixValue(p, 4);
    PrefixValue(p, 5);
    PrefixValue(p, 6);
    PrefixValue(p, 7);
    PrefixValue(p, 8);
  }

  lemma PrefixValue(p: Bytes, i: nat)
    requires 0 < i <= |p|
    ensures FromBigEndian(p[..i]) == 256 * FromBigEndian(p[..i - 1]) + p[i - 1]
    ensures FromBigEndian(p[..0]) == 0
  {
    assert p[..i][..i - 1] == p[..i - 1];
  }

  // ---------------------------------------------------------------- frames

  /** A frame is a header value followed by a payload. */
  datatype Frame = Frame(v: nat, payload: Bytes)

  /** How a reader turns a header into a payload length. */
  datatype Framing =
    | Strings(maxLen: nat)
    | FileBlocks(blockSize: nat, fileSize: nat)

  /** Unsigned 64-bit subtraction as a release build computes it. */
  function WrappingSub(a: nat, b: nat): nat
    requires a < U64_LIMIT && b < U64_LIMIT
  {
    if b <= a then a - b else a - b + U64_LIMIT
  }

  function PayloadLen(fr: Framing, v: nat): nat
    requires v < U64_LIMIT
    requires fr.FileBlocks? ==> fr.fileSize < U64_LIMIT
  {
    match fr
    case Strings(_) => v
    case FileBlocks(bs, size) =>
      var rem := WrappingSub(size, v);
      if rem < bs then rem else bs
  }

  predicate ValidFraming(fr: Framing) {
    fr.FileBlocks? ==> fr.fileSize < U64_LIMIT
  }

  predicate Rejects(fr: Framing, v: nat) {
    fr.Strings? && v > fr.maxLen
  }

  /** A frame that a writer may put on the wire for readers of framing `fr`. */
  predicate ValidFrame(fr: Framing, f: Frame)
    requires ValidFraming(fr)
  {
    f.v < U64_LIMIT && !Rejects(fr, f.v) && |f.payload| == PayloadLen(fr, f.v)
  }

  function Encode(f: Frame): Bytes {
    U64(f.v) + f.payload
  }

  function Stream(fs: seq<Frame>): Bytes {
    if fs == [] then [] else Encode(fs[0]) + Stream(fs[1..])
  }

  lemma {:induction false} StreamAppend(fs: seq<Frame>, f: Frame)
    ensures Stream(fs + [f]) == Stream(fs) + Encode(f)
  {
    if fs == [] {
      assert fs + [f] == [f];
      assert Stream([f]) == Encode(f) + Stream([]);
    } else {
      StreamAppend(fs[1..], f);
      assert (fs + [f])[1..] == fs[1..] + [f];
      assert (fs + [f])[0] == fs[0];
    }
  }

  /** The length that a block's offset implies: a full block, or what is left of the file; behind its end the unsigned
      difference wraps. */
  lemma ImpliedLength(bs: nat, size: nat, v: nat)
    requires size < U64_LIMIT && v < U64_LIMIT
    ensures var n := PayloadLen(FileBlocks(bs, size), v);
            && n <= bs
            && (v <= size ==> v + n <= size && (n == bs || v + n == size))
            && (v > size ==> n == bs || v + n == size + U64_LIMIT)
  {
  }

  // ---------------------------------------------------------------- the reader on values

  /** The bytes of a frame that a reader holds between two calls: never a whole frame. */
  predicate Partial(fr: Framing, p: Bytes)
    requires ValidFraming(fr)
  {
    |p| < 8 || (!Rejects(fr, Head(p)) && |p| - 8 < PayloadLen(fr, Head(p)))
  }

  /** How many bytes the reader's next `read` has room for. */
  function Room(fr: Framing, p: Bytes): (n: nat)
    requires ValidFraming(fr) && Partial(fr, p)
    ensures n > 0
  {
    if |p| < 8 then 8 - |p| else 8 + PayloadLen(fr, Head(p)) - |p|
  }

  datatype Fed = More(pending: Bytes) | Got(frame: Frame) | Reject

  /** What a reader makes of the bytes `q` of a frame. */
  function Judge(fr: Framing, q: Bytes): Fed
    requires ValidFraming(fr)
  {
    if |q| < 8 then More(q)
    else if Rejects(fr, Head(q)) then Reject
    else if |q| - 8 < PayloadLen(fr, Head(q)) then More(q)
    else Got(Frame(Head(q), q[8..]))
  }

  /** One successful `read` of chunk `c`, then the reader's code up to its next await. */
  function Feed(fr: Framing, p: Bytes, c: Bytes): (r: Fed)
    requires ValidFraming(fr) && Partial(fr, p)
    requires 0 < |c| <= Room(fr, p)
    ensures r.More? ==> r.pending == p + c && Partial(fr, r.pending)
    ensures r.Got? ==> Encode(r.frame) == p + c && ValidFrame(fr, r.frame)
    ensures r.Reject? ==> |p + c| == 8 && Rejects(fr, Head(p + c))
  {
    var q := p + c;
    assert |p| >= 8 ==> q[..8] == p[..8];
    assert |q| >= 8 ==> U64(Head(q)) + q[8..] == q by {
      if |q| >= 8 {
        U64OfHead(q);
        assert q == q[..8] + q[8..];
      }
    }
    Judge(fr, q)
  }

  /** A reader that holds `p` makes successful reads of the sizes `ns` from `stream`: what they come to and what is left
      of the stream; None if the frame was over before the last read, or a read has no room or no bytes. */
  function FeedAll(fr: Framing, p: Bytes, stream: Bytes, ns: seq<nat>): (r: Option<(Fed, Bytes)>)
    requires ValidFraming(fr) && Partial(fr, p)
    ensures r.Some? && r.value.0.More? ==> Partial(fr, r.value.0.pending)
    decreases |ns|
  {
    if ns == [] then Some((More(p), stream))
    else
      match FeedAll(fr, p, stream, ns[..|ns| - 1])
      case Some((More(q), rest)) =>
        var n := ns[|ns| - 1];
        if 0 < n <= |rest| && n <= Room(fr, q) then Some((Feed(fr, q, rest[..n]), rest[n..])) else None
      case _ => None
  }

  /** One more read. */
  lemma FeedNext(fr: Framing, p: Bytes, stream: Bytes, ns: seq<nat>, q: Bytes, chunk: Bytes, rest: Bytes)
    requires ValidFraming(fr) && Partial(fr, p) && FeedAll(fr, p, stream, ns) == Some((More(q), chunk + rest))
    requires Partial(fr, q) && 0 < |chunk| <= Room(fr, q)
    ensures FeedAll(fr, p, stream, ns + [|chunk|]) == Some((Judge(fr, q + chunk), rest))
  {
    var ns' := ns + [|chunk|];
    assert ns'[..|ns'| - 1] == ns;
    assert (chunk + rest)[..|chunk|] == chunk && (chunk + rest)[|chunk|..] == rest;
  }

  lemma FeedIsJudge(fr: Framing, p: Bytes, c: Bytes)
    requires ValidFraming(fr) && Partial(fr, p)
    ensures Judge(fr, p) == More(p)
    ensures 0 < |c| <= Room(fr, p) ==> Feed(fr, p, c) == Judge(fr, p + c)
  {
  }

  /** The chunking does not matter: the outcome is that of all bytes used, at once. */
  lemma {:induction false} FeedAllIsJudge(fr: Framing, p: Bytes, stream: Bytes, ns: seq<nat>, fed: Fed, rest: Bytes) returns (used: Bytes)
    requires ValidFraming(fr) && Partial(fr, p) && FeedAll(fr, p, stream, ns) == Some((fed, rest))
    ensures used + rest == stream && fed == Judge(fr, p + used)
    decreases |ns|
  {
    hide Judge, Feed, Partial, Room;
    if ns == [] {
      used := [];
      assert [] + rest == rest && p + [] == p;
      FeedIsJudge(fr, p, []);
    } else {
      var n := ns[|ns| - 1];
      var (more, rest0) := FeedAll(fr, p, stream, ns[..|ns| - 1]).value;
      var used0 := FeedAllIsJudge(fr, p, stream, ns[..|ns| - 1], more, rest0);
      PendingIsUsed(fr, p + used0, more.pending);
      FeedIsJudge(fr, more.pending, rest0[..n]);
      used := used0 + rest0[..n];
      Regrouped(used0, rest0[..n], rest);
      Regrouped(p, used0, rest0[..n]);
      TakeDrop(rest0, n);
    }
  }

  lemma TakeDrop(b: Bytes, n: nat)
    requires n <= |b|
    ensures b[..n] + b[n..] == b
  {
  }

  lemma PendingIsUsed(fr: Framing, all: Bytes, q: Bytes)
    requires ValidFraming(fr) && Judge(fr, all) == More(q)
    ensures q == all
  {
  }

  /** No read loses or invents a byte, and only valid frames come out. */
  lemma FeedAllKeepsBytes(fr: Framing, p: Bytes, stream: Bytes, ns: seq<nat>, fed: Fed, rest: Bytes)
    requires ValidFraming(fr) && Partial(fr, p) && FeedAll(fr, p, stream, ns) == Some((fed, rest))
    ensures fed.More? ==> fed.pending + rest == p + stream
    ensures fed.Got? ==> Encode(fed.frame) + rest == p + stream && ValidFrame(fr, fed.frame)
  {
    hide Judge, Feed, Partial, Room, Encode, ValidFrame;
    if ns != [] {
      var n := ns[|ns| - 1];
      var (more, rest0) := FeedAll(fr, p, stream, ns[..|ns| - 1]).value;
      var used := FeedAllIsJudge(fr, p, stream, ns[..|ns| - 1], more, rest0);
      PendingIsUsed(fr, p + used, more.pending);
      TakeDrop(rest0, n);
      Regrouped(more.pending, rest0[..n], rest);
      Regrouped(p, used, rest0);
    }
  }

  /** Every read takes at least one byte. */
  lemma {:induction false} FeedAllCount(fr: Framing, p: Bytes, stream: Bytes, ns: seq<nat>, fed: Fed, rest: Bytes)
    requires ValidFraming(fr) && Partial(fr, p) && FeedAll(fr, p, stream, ns) == Some((fed, rest))
    ensures |ns| + |rest| <= |stream|
    decreases |ns|
  {
    hide Feed, Partial, Room;
    if ns != [] {
      var (more, rest0) := FeedAll(fr, p, stream, ns[..|ns| - 1]).value;
      FeedAllCount(fr, p, stream, ns[..|ns| - 1], more, rest0);
    }
  }

  /** Feeding a reader from a stream that starts with a valid frame yields exactly that frame,
      whatever the chunking, and leaves exactly the rest of the stream. */
  lemma FeedFromStream(fr: Framing, p: Bytes, c: Bytes, rest: Bytes, f: Frame, tail: Bytes)
    requires ValidFraming(fr) && Partial(fr, p) && ValidFrame(fr, f)
    requires 0 < |c| <= Room(fr, p)
    requires p + c + rest == Encode(f) + tail
    ensures Feed(fr, p, c) == if |p + c| < |Encode(f)| then More(p + c) else Got(f)
    ensures |p + c| <= |Encode(f)|
    ensures Feed(fr, p, c).Got? ==> rest == tail && p + c == Encode(f)
  {
    var q := p + c;
    var whole := q + rest;
    HeadOfU64(f.v, f.payload + tail);
    assert Encode(f) + tail == U64(f.v) + (f.payload + tail);
    if |p| >= 8 {
      assert p[..8] == whole[..8];
    }
    if |q| >= 8 {
      assert q[..8] == whole[..8];
    }
    assert |q| <= |Encode(f)|;
    if |q| == |Encode(f)| {
      assert q == whole[..|q|];
      assert Encode(f) == whole[..|q|];
      assert rest == whole[|q|..];
      assert tail == whole[|q|..];
      assert q[8..] == f.payload;
    }
  }

  /** What a reader holds is never as long as the frame it has started. */
  lemma PartialShorterThanFrame(fr: Framing, p: Bytes, rest: Bytes, f: Frame, tail: Bytes)
    requires ValidFraming(fr) && Partial(fr, p) && ValidFrame(fr, f)
    requires p + rest == Encode(f) + tail
    ensures |p| < |Encode(f)|
  {
    HeadOfU64(f.v, f.payload + tail);
    assert Encode(f) + tail == U64(f.v) + (f.payload + tail);
    if |p| >= 8 {
      assert p[..8] == (p + rest)[..8];
    }
  }

  // ---------------------------------------------------------------- a stream in flight

  predicate ValidFrames(fr: Framing, fs: seq<Frame>)
    requires ValidFraming(fr)
  {
    forall i :: 0 <= i < |fs| ==> ValidFrame(fr, fs[i])
  }

  /** Frames `fs` are between a writer and a reader: `p` is what the reader holds of the first one,
      `pipe` what the transport holds, and `rest` what the writer has still to write. */
  ghost predicate Flow(fr: Framing, p: Bytes, pipe: Bytes, rest: Bytes, fs: seq<Frame>) {
    && ValidFraming(fr)
    && ValidFrames(fr, fs)
    && Partial(fr, p)
    && p + (pipe + rest) == Stream(fs)
  }

  /** The writer moves n bytes into the transport. */
  lemma FlowWrite(fr: Framing, p: Bytes, pipe: Bytes, rest: Bytes, fs: seq<Frame>, n: nat)
    requires Flow(fr, p, pipe, rest, fs) && n <= |rest|
    ensures Flow(fr, p, pipe + rest[..n], rest[n..], fs)
  {
    assert (pipe + rest[..n]) + rest[n..] == pipe + rest;
  }

  /** The writer accepts one more frame. */
  lemma FlowAppend(fr: Framing, p: Bytes, pipe: Bytes, rest: Bytes, fs: seq<Frame>, f: Frame)
    requires Flow(fr, p, pipe, rest, fs) && ValidFrame(fr, f)
    ensures Flow(fr, p, pipe, rest + Encode(f), fs + [f])
  {
    StreamAppend(fs, f);
    assert p + (pipe + (rest + Encode(f))) == (p + (pipe + rest)) + Encode(f);
  }

  /** The reader takes n bytes out of the transport: it either holds more of the first frame or has
      received exactly that frame. */
  lemma FlowRead(fr: Framing, p: Bytes, pipe: Bytes, rest: Bytes, fs: seq<Frame>, n: nat)
    requires Flow(fr, p, pipe, rest, fs) && 0 < n <= |pipe| && n <= Room(fr, p)
    ensures fs != []
    ensures var fed := Feed(fr, p, pipe[..n]);
            || (fed == More(p + pipe[..n]) && Flow(fr, p + pipe[..n], pipe[n..], rest, fs))
            || (fed == Got(fs[0]) && Flow(fr, [], pipe[n..], rest, fs[1..]))
  {
    assert |p + (pipe + rest)| > 0;
    var c, rest' := pipe[..n], pipe[n..] + rest;
    assert p + (pipe + rest) == p + c + rest';
    FeedFromStream(fr, p, c, rest', fs[0], Stream(fs[1..]));
  }

  /** Nothing in the transport and nothing left to write: every frame has been received. */
  lemma FlowDrained(fr: Framing, p: Bytes, fs: seq<Frame>)
    requires Flow(fr, p, [], [], fs)
    ensures fs == [] && p == []
  {
    assert p + ([] + []) == p;
    if fs != [] {
      PartialShorterThanFrame(fr, p, [], fs[0], Stream(fs[1..]));
    }
  }

  /** Two ways of cutting the same bytes into transport and writer. */
  lemma FlowRegroup(fr: Framing, p: Bytes, pipe: Bytes, rest: Bytes, pipe': Bytes, rest': Bytes, fs: seq<Frame>)
    requires Flow(fr, p, pipe, rest, fs) && pipe + rest == pipe' + rest'
    ensures Flow(fr, p, pipe', rest', fs)
  {
  }

  // ---------------------------------------------------------------- strings

  function StringFrame(s: Bytes): Frame {
    Frame(|s|, s)
  }

  datatype ReadError = Closed | TooLong | NotUtf8
  datatype Result<+T> = Ok(value: T) | Err(error: ReadError)

  /** The bytes `write_string` puts on the wire. */
  function WriteString(s: Bytes): Bytes {
    Encode(StringFrame(s))
  }

  /** `read_string` on everything that will ever arrive: the result and the unread rest. */
  function ReadString(total: Bytes, maxLen: nat, utf8: Bytes -> bool): (Result<Bytes>, Bytes) {
    if |total| < 8 then (Err(Closed), [])
    else
      var size := Head(total);
      if size > maxLen then (Err(TooLong), total[8..])
      else if |total| - 8 < size then (Err(Closed), [])
      else
        var s := total[8..8 + size];
        (if utf8(s) then Ok(s) else Err(NotUtf8), total[8 + size..])
  }

  /** `read_string` inverts `write_string` and consumes exactly its bytes, the empty string included. */
  lemma ReadStringInvertsWriteString(s: Bytes, tail: Bytes, maxLen: nat, utf8: Bytes -> bool)
    requires |s| <= maxLen && |s| < U64_LIMIT && utf8(s)
    ensures ReadString(WriteString(s) + tail, maxLen, utf8) == (Ok(s), tail)
  {
    var total := WriteString(s) + tail;
    HeadOfU64(|s|, s + tail);
    assert total == U64(|s|) + (s + tail);
    assert total[8..8 + |s|] == s;
    assert total[8 + |s|..] == tail;
  }
}
