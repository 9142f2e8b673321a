/**
 The two event loops in the form of src/client.rs and src/server.rs: objects whose variables the
 `select!` branches update in place, over the resumable readers and writers.

 Each branch takes as ghost arguments a configuration and a state of the session model that the
 object represents, and returns the labels of a run of the model that ends in a state it represents.
 The labels are fixed by what the branch did: one for each read or write that moved bytes, and one
 for the branch's body; there is none only if the first read or write was left pending.
 */
module EventLoops {
  import opened Wire
  import opened Geometry
  import opened Transport
  import opened StringReader
  import opened HashPipeline
  import opened Resumable
  import opened Session
  import opened LoopRuns
  import Theorems = SessionTheorems

  // ---------------------------------------------------------------- client

  /** Once the hash stream has ended nobody looks at the bytes its reader holds. */
  function Observable(cl: Client): Client {
    if cl.remoteDone then cl.(pending := []) else cl
  }

  /** The loop variables of the client that decide what is compared, queued and sent next. */
  class ClientLoop {
    const layout: Layout
    const endIdx: nat
    const reader: ResumableReadString
    var remoteHashes: seq<Bytes>
    var remoteHashesDone: bool
    var comparisonOver: bool
    var blockIdx: nat
    var toSend: seq<Queued>
    var current: Option<Queued>
    var writer: ResumableWriteFileBlock?
    var finished: bool

    ghost predicate Valid()
      reads this, reader, writer, if writer == null then {} else {writer.offsetBytes}
    {
      && (!remoteHashesDone ==> reader.Valid())
      && (writer != null <==> current.Some?)
      && (writer != null ==> writer.Valid())
    }

    /** The client's state in the session model. */
    ghost function View(): Client
      requires Valid()
      reads this, reader, writer, if writer == null then {} else {writer.offsetBytes}
    {
      Client(if remoteHashesDone then [] else reader.Pending(), remoteHashes, remoteHashesDone, comparisonOver, blockIdx,
             endIdx, toSend,
             if writer == null then None
             else Some(BlockWriter(current.value.idx, current.value.loan, writer.Remaining())),
             finished)
    }

    /** The session is in a state whose client this object is. */
    ghost predicate Represents(c: Config, s: State)
      reads this, reader, writer, if writer == null then {} else {writer.offsetBytes}
    {
      && Valid() && View() == Observable(s.cli) && layout == c.layout
      && reader.maxLen == MAX_HASH && reader.utf8 == c.utf8 && ValidFraming(UpFraming(c.layout))
    }

    constructor (c: Config)
      requires ValidFraming(UpFraming(c.layout))
      ensures forall s: State :: Init(c, s) ==> Represents(c, s)
      ensures layout == c.layout && fresh(reader) && reader.maxLen == 256
    {
      layout, endIdx := c.layout, NumBlocks(c.layout);
      reader := new ResumableReadString(MAX_HASH, c.utf8);
      remoteHashes, remoteHashesDone, comparisonOver := [], false, false;
      blockIdx, toSend, current, writer, finished := 0, [], None, null, false;
    }

    /** `prepare_next_write_block`: the offset is `idx * block_size`. */
    method PrepareNextWriteBlock()
      requires Valid()
      modifies this`toSend, this`current, this`writer
      ensures Valid() && View() == PrepareNext(layout, old(View()))
      ensures ToSend() == old(ToSend()) && (writer == null <==> ToSend() == [])
      ensures old(writer) != null ==> writer == old(writer)
      ensures old(writer) == null && writer != null ==> fresh(writer) && fresh(writer.offsetBytes)
    {
      hide Encode, QueuedFrame, U64;
      if writer != null || toSend == [] {
        return;
      }
      var q := toSend[0];
      toSend := toSend[1..];
      var w := NewWriter(q);
      assert old(ToSend()) == [q] + toSend;
      current, writer := Some(q), w;
    }

    method NewWriter(q: Queued) returns (w: ResumableWriteFileBlock)
      ensures fresh(w) && fresh(w.offsetBytes) && w.Valid() && w.Remaining() == Encode(QueuedFrame(layout, q))
    {
      hide Encode;
      StartIsProduct(layout, q.idx);
      w := new ResumableWriteFileBlock(q.idx * layout.bs, q.loan.data);
    }

    /** The body of the branch "next block has been fully written". */
    method BlockWritten()
      requires Valid() && writer != null
      modifies this
      ensures Valid() && View() == OnBlockWritten(layout, old(View()))
      ensures ToSend() == old(ToSend())[1..] && (writer == null <==> ToSend() == [])
      ensures finished <==> old(finished) || (comparisonOver && ToSend() == [])
    {
      current, writer := None, null;
      if comparisonOver && toSend == [] {
        finished := true;
      } else {
        PrepareNextWriteBlock();
      }
    }

    /** The blocks the client has to send: the one being written, then the queue. */
    function ToSend(): seq<Queued>
      reads this
    {
      (if current.Some? then [current.value] else []) + toSend
    }

    /** The branch that writes a block, on variables: k writes put n bytes out and, if they were the last, the body
        runs. */
    method WriteSome(sink: ByteSink) returns (ghost n: nat, ghost k: nat)
      requires Valid() && writer != null
      modifies this, writer, writer.offsetBytes, sink
      ensures Valid()
      ensures n <= |old(View()).writer.value.rest|
      ensures sink.data == old(sink.data) + old(View()).writer.value.rest[..n]
      ensures Wrote(old(sink.sched), sink.sched, k, n, n == |old(View()).writer.value.rest|)
      ensures View() == AfterBlockWrite(layout, old(View()), n)
      ensures n == |old(View()).writer.value.rest| ==>
                && ToSend() == old(ToSend())[1..] && (writer == null <==> ToSend() == [])
                && (finished <==> old(finished) || (comparisonOver && ToSend() == []))
      ensures n < |old(View()).writer.value.rest| ==> ToSend() == old(ToSend()) && finished == old(finished)
    {
      hide Encode, U64, PrepareNext, Wrote;
      ghost var was, sent := View(), sink.data;
      ghost var rest := writer.Remaining();
      var done;
      done, k := writer.WriteTo(sink);
      n := |sink.data| - |sent|;
      SplitOf(sent, rest, sink.data, writer.Remaining());
      assert View() == was.(writer := Some(was.writer.value.(rest := rest[n..])));
      if done {
        BlockWritten();
      }
    }

    /** The branch that writes a block: as many bytes as the transport accepts, and the end of the block if that was
        all of it. */
    method WriteBlock(sink: ByteSink, ghost c: Config, ghost s: State)
      returns (ghost n: nat, ghost k: nat, ghost labels: seq<Label>)
      requires Represents(c, s) && writer != null && !finished
      modifies this, writer, writer.offsetBytes, sink
      ensures var rest := s.cli.writer.value.rest;
              && n <= |rest| && sink.data == old(sink.data) + rest[..n]
              && Wrote(old(sink.sched), sink.sched, k, n, n == |rest|)
              && labels == BlockWriteLabels(n, |rest|)
              && (n == |rest| ==>
                    && ToSend() == old(ToSend())[1..] && (writer == null <==> ToSend() == [])
                    && (finished <==> comparisonOver && ToSend() == []))
              && (n < |rest| ==> ToSend() == old(ToSend()) && !finished)
      ensures Accepts(s.cut, |s.up|, n, c.upCap) ==> Runs(c, s, labels) && Represents(c, Exec(c, s, labels))
    {
      hide Runs, Exec, Encode, Wrote;
      n, k := WriteSome(sink);
      labels := BlockWriteLabels(n, |s.cli.writer.value.rest|);
      if Accepts(s.cut, |s.up|, n, c.upCap) {
        ClientWriteRun(c, s, n);
        ObservableWrite(c.layout, s.cli, n);
      }
    }

    /** The branch that reads hashes, on variables: a cancelled read keeps its bytes, a whole string is queued, a failure
        ends the reading of hashes. `ns` are the sizes of the reads of this call that got bytes. */
    method ReadSome(src: ByteSource) returns (ghost fed: Option<Fed>, ghost ns: seq<nat>, ghost waits: bool)
      requires Valid() && reader.maxLen == MAX_HASH && !remoteHashesDone
      modifies this`remoteHashes, this`remoteHashesDone, reader, src
      ensures Valid() && Partial(DownFraming(), old(reader.Pending()))
      ensures waits ==>
                src.LeftPending(old(src.Now()), |ns|) && remoteHashes == old(remoteHashes) && !remoteHashesDone && fed.Some?
      ensures !waits ==>
                var (answer, rest) := ReadString(old(reader.Pending()) + old(src.data), MAX_HASH, reader.utf8);
                && src.data == rest && remoteHashesDone == answer.Err? && (fed.None? <==> answer == Err(Closed))
                && remoteHashes == old(remoteHashes) + (if answer.Ok? then [answer.value] else [])
                && src.Made(old(src.Now()), if fed.None? then |ns| + 1 else |ns|)
      ensures fed.Some? ==>
                && FeedAll(DownFraming(), old(reader.Pending()), old(src.data), ns) == Some((fed.value, src.data))
                && View() == Observable(OnRemoteRead(old(View()), fed.value, reader.utf8))
      ensures fed.None? ==>
                && src.data == [] && src.closed && View() == Observable(old(View()).(remoteDone := true))
                && exists q :: FeedAll(DownFraming(), old(reader.Pending()), old(src.data), ns) == Some((More(q), src.data))
      ensures ns == [] && fed.Some? ==> waits
    {
      hide FeedAll, Call, ReadString, Partial, U64, ValidReader, Stalled, Skip, Text;
      ghost var p, stream := reader.Pending(), src.data;
      reader.ViewIsValid();
      HoldsPartial(p, MAX_HASH);
      var r;
      r, ns := reader.ReadOn(src);
      waits := r.None?;
      ghost var reading := if r.None? then Waiting(reader.View()) else Answer(r.value, reader.View());
      fed, ns := FedByCall(p, reader.utf8, stream, ns, reading, src.data);
      if r.None? {
        return;
      }
      match r.value {
        case Ok(hash) => remoteHashes := remoteHashes + [hash];
        case Err(e) =>
          remoteHashesDone := true;
          assert e == Closed || e == TooLong || e == NotUtf8;
      }
    }

    /** The branch that reads hashes: one `ClientReads` step for each read of the call that got bytes, and `ClientHashEnd`
        if it found the stream ended. It waits only if a read was left pending; otherwise `read_string`'s answer on the
        stream decides whether a hash is queued or the reading of hashes ends. */
    method ReadRemoteHash(src: ByteSource, ghost c: Config, ghost s: State)
      returns (ghost ns: seq<nat>, ghost waits: bool, ghost labels: seq<Label>)
      requires Represents(c, s) && !remoteHashesDone && !finished && src.data == s.down && (src.closed ==> s.cut)
      modifies this`remoteHashes, this`remoteHashesDone, reader, src
      ensures Runs(c, s, labels) && Represents(c, Exec(c, s, labels)) && Exec(c, s, labels).down == src.data
      ensures waits ==>
                && src.LeftPending(old(src.Now()), |ns|) && labels == ClientReadLabels(ns)
                && remoteHashes == old(remoteHashes) && !remoteHashesDone
      ensures !waits ==>
                var answer := ReadString(s.cli.pending + s.down, MAX_HASH, c.utf8).0;
                && remoteHashesDone == answer.Err?
                && remoteHashes == old(remoteHashes) + (if answer.Ok? then [answer.value] else [])
                && labels == ClientReadLabels(ns) + (if answer == Err(Closed) then [ClientHashEnd] else [])
      ensures labels == [] ==> waits
    {
      hide Runs, Exec, FeedAll, Partial, CanStep, Step, ReadString;
      ghost var fed;
      fed, ns, waits := ReadSome(src);
      labels := ClientReadLabels(ns);
      if fed.Some? {
        ClientReadsRun(c, s, ns, fed.value, src.data);
        assert labels + [] == labels;
      } else {
        ghost var q :| FeedAll(DownFraming(), s.cli.pending, s.down, ns) == Some((More(q), src.data));
        ClientReadsRun(c, s, ns, More(q), src.data);
        HashEndStep(c, Exec(c, s, labels));
        AndThen(c, s, labels, ClientHashEnd);
        labels := labels + [ClientHashEnd];
      }
    }

    /** A block whose hash differs joins the queue. */
    method Enqueue(loan: Loan)
      requires Valid()
      modifies this`toSend, this`current, this`writer
      ensures Valid()
      ensures var was := old(View());
              View() == PrepareNext(layout, was.(queue := was.queue + [Queued(was.blockIdx, loan)]))
      ensures ToSend() == old(ToSend()) + [Queued(blockIdx, loan)] && writer != null
    {
      toSend := toSend + [Queued(blockIdx, loan)];
      PrepareNextWriteBlock();
    }

    /** Counts the comparison and detects the last one. */
    method CountComparison()
      requires Valid()
      modifies this`blockIdx, this`comparisonOver, this`finished
      ensures Valid()
      ensures var next := old(View()).(blockIdx := old(blockIdx) + 1);
              View() == if next.blockIdx == endIdx then next.(over := true, finished := next.writer.None?) else next
      ensures ToSend() == old(ToSend()) && blockIdx == old(blockIdx) + 1
      ensures comparisonOver <==> old(comparisonOver) || blockIdx == endIdx
      ensures finished <==> if blockIdx == endIdx then writer == null else old(finished)
    {
      blockIdx := blockIdx + 1;
      if blockIdx == endIdx {
        comparisonOver := true;
        finished := writer == null;
      }
    }

    method PopRemoteHash() returns (hash: Bytes)
      requires Valid() && remoteHashes != []
      modifies this`remoteHashes
      ensures [hash] + remoteHashes == old(remoteHashes)
      ensures Valid() && View() == old(View()).(remote := old(remoteHashes)[1..]) && ToSend() == old(ToSend())
    {
      hash := remoteHashes[0];
      remoteHashes := remoteHashes[1..];
    }

    /** The branch that compares, on variables: the oldest remote hash is used up, the block counted, and sent exactly if
        its hash differs; the last comparison ends the loop unless a block is still being written. */
    method Compare(item: Item)
      requires Valid() && remoteHashes != []
      modifies this
      ensures Valid() && View() == OnLocalHash(layout, old(View()), item)
      ensures remoteHashes == old(remoteHashes)[1..] && blockIdx == old(blockIdx) + 1
      ensures ToSend() == old(ToSend()) + if item.hash != old(remoteHashes)[0] then [Queued(old(blockIdx), item.loan)] else []
      ensures comparisonOver <==> old(comparisonOver) || blockIdx == endIdx
      ensures finished <==> if blockIdx == endIdx then writer == null else old(finished)
      ensures item.hash != old(remoteHashes)[0] ==> writer != null
    {
      hide PrepareNext, OnLocalHash, NumBlocks, Encode, U64;
      ghost var was := View();
      var remoteHash := PopRemoteHash();
      ghost var popped := View();
      if item.hash != remoteHash {
        Enqueue(item.loan);
      }
      ghost var queued := View();
      CountComparison();
      CompareInSteps(layout, was, popped, queued, View(), item);
    }

    /** The branch that compares the next local block with the oldest remote hash: the step `ClientTake`. */
    method CompareLocalHash(item: Item, ghost c: Config, ghost s: State) returns (ghost labels: seq<Label>)
      requires Represents(c, s) && remoteHashes != [] && !comparisonOver && !finished
      requires s.cp.st.receiving && s.cp.slot == Some(item)
      modifies this
      ensures labels == [ClientTake] && Runs(c, s, labels) && Represents(c, Exec(c, s, labels))
      ensures remoteHashes == old(remoteHashes)[1..] && blockIdx == old(blockIdx) + 1
      ensures ToSend() == old(ToSend()) + if item.hash != old(remoteHashes)[0] then [Queued(old(blockIdx), item.loan)] else []
      ensures comparisonOver <==> blockIdx == endIdx
      ensures finished <==> comparisonOver && writer == null
      ensures item.hash != old(remoteHashes)[0] ==> writer != null
    {
      hide Runs, Exec, Encode, NumBlocks;
      Compare(item);
      ObservableCompare(c.layout, s.cli, item);
      OneStep(c, s, ClientTake);
      labels := [ClientTake];
    }
  }

  lemma CompareInSteps(l: Layout, was: Client, popped: Client, queued: Client, now: Client, item: Item)
    requires was.remote != [] && popped == was.(remote := was.remote[1..])
    requires queued == if item.hash != was.remote[0]
                       then PrepareNext(l, popped.(queue := popped.queue + [Queued(popped.blockIdx, item.loan)]))
                       else popped
    requires var next := queued.(blockIdx := queued.blockIdx + 1);
             now == if next.blockIdx == next.endIdx then next.(over := true, finished := next.writer.None?) else next
    ensures now == OnLocalHash(l, was, item)
  {
  }

  lemma SplitOf(sent: Bytes, rest: Bytes, sent': Bytes, rest': Bytes)
    requires sent' + rest' == sent + rest && sent <= sent'
    ensures var n := |sent'| - |sent|; 0 <= n <= |rest| && sent' == sent + rest[..n] && rest' == rest[n..]
  {
    var n, all := |sent'| - |sent|, sent + rest;
    assert sent' == all[..|sent| + n] && rest' == all[|sent| + n..];
  }

  lemma HoldsPartial(p: Bytes, maxLen: nat)
    requires ValidReader(Holding(p), maxLen)
    ensures Partial(Strings(maxLen), p)
  {
  }

  /** What a call of the hash reader comes to, in terms of the frame reader. */
  lemma FedByCall(p: Bytes, utf8: Bytes -> bool, stream: Bytes, ns: seq<nat>, reading: Reading, rest: Bytes)
    returns (fed: Option<Fed>, sizes: seq<nat>)
    requires Partial(DownFraming(), p) && Call(Holding(p), MAX_HASH, utf8, stream, ns) == Some((reading, rest))
    ensures fed.Some? ==> FeedAll(DownFraming(), p, stream, sizes) == Some((fed.value, rest))
    ensures reading.Waiting? ==> reading.next.Holding? && fed == Some(More(reading.next.pending))
    ensures reading.Answer? && reading.result.Ok? ==>
              fed.Some? && fed.value.Got? && fed.value.frame.payload == reading.result.value && utf8(reading.result.value)
    ensures reading.Answer? && reading.result == Err(NotUtf8) ==>
              fed.Some? && fed.value.Got? && !utf8(fed.value.frame.payload)
    ensures reading.Answer? && reading.result == Err(TooLong) ==> fed == Some(Reject)
    ensures fed.Some? ==> sizes == ns && (ns == [] ==> reading.Waiting?)
    ensures fed.None? ==> ns != [] && sizes == ns[..|ns| - 1]
    ensures reading.Answer? && reading.result == Err(Closed) ==>
              fed == None && exists q :: FeedAll(DownFraming(), p, stream, sizes) == Some((More(q), rest))
  {
    NoReadNoAnswer(p, MAX_HASH, utf8, stream, ns);
    hide FeedAll, Call, Partial;
    CallIsFeeding(p, MAX_HASH, utf8, stream, ns, reading, rest);
    sizes := ns;
    if reading.Waiting? {
      fed := Some(More(reading.next.pending));
    } else if reading.result == Err(Closed) {
      fed, sizes := None, ns[..|ns| - 1];
    } else if reading.result == Err(TooLong) {
      fed := Some(Reject);
    } else {
      var f: Frame :| FeedAll(DownFraming(), p, stream, ns) == Some((Got(f), rest)) && reading.result == Text(utf8, f.payload);
      fed := Some(Got(f));
    }
  }

  lemma NoReadNoAnswer(p: Bytes, maxLen: nat, utf8: Bytes -> bool, stream: Bytes, ns: seq<nat>)
    requires Partial(Strings(maxLen), p)
    ensures ns == [] ==> Call(Holding(p), maxLen, utf8, stream, ns) == Some((Waiting(Holding(p)), stream))
  {
  }

  lemma HashEndStep(c: Config, s: State)
    requires ValidFraming(UpFraming(c.layout)) && s.cut && !s.cli.finished && !s.cli.remoteDone && s.down == []
    ensures CanStep(c, s, ClientHashEnd) && Step(c, s, ClientHashEnd) == s.(cli := s.cli.(remoteDone := true))
  {
  }

  lemma ObservableWrite(l: Layout, cl: Client, n: nat)
    requires cl.writer.Some? && n <= |cl.writer.value.rest|
    ensures Observable(AfterBlockWrite(l, cl, n)) == AfterBlockWrite(l, Observable(cl), n)
  {
  }

  lemma ObservableCompare(l: Layout, cl: Client, item: Item)
    requires cl.remote != []
    ensures Observable(OnLocalHash(l, cl, item)) == OnLocalHash(l, Observable(cl), item)
  {
    hide Encode;
  }

  // ---------------------------------------------------------------- server

  class ServerLoop {
    const reader: ResumableReadFileBlock
    const file: DiskFile
    var receiveBuffer: Buffer
    var writeBuffer: Buffer
    var disk: ResumableAsyncWriteAll?
    var hashOut: ResumableWriteString?
    var hashingDone: bool
    var finished: bool

    /** While a disk write is pending the reader is at a frame boundary and the two buffers are distinct. */
    ghost predicate Valid()
      reads this, reader, receiveBuffer, writeBuffer, disk, hashOut
    {
      && receiveBuffer != writeBuffer
      && reader.Valid(receiveBuffer)
      && (disk != null ==> disk.write == file && disk.offset <= |writeBuffer.bytes| && reader.bufOffset == 0)
      && (hashOut != null ==> hashOut.Valid())
    }

    /** The server's state in the session model. */
    ghost function View(): Server
      requires Valid()
      reads this, reader, receiveBuffer, writeBuffer, disk, hashOut, file
    {
      Server(reader.Pending(receiveBuffer),
             if disk == null then None else Some(DiskWrite(writeBuffer.bytes, disk.offset)), file.pos,
             if hashOut == null then None else Some(hashOut.Remaining()), hashingDone, finished)
    }

    /** The session is in a state whose server this object is, with the destination in its file. */
    ghost predicate Represents(c: Config, s: State)
      reads this, reader, receiveBuffer, writeBuffer, disk, hashOut, file
    {
      && Valid() && View() == s.srv && file.content == s.dest
      && reader.blockSize == c.layout.bs && reader.fileSize == c.layout.size && ValidFraming(UpFraming(c.layout))
    }

    constructor (c: Config, file: DiskFile)
      requires ValidFraming(UpFraming(c.layout)) && file.pos == 0 && file.content == c.dst0
      ensures forall s: State :: Init(c, s) ==> Represents(c, s)
    {
      this.file := file;
      receiveBuffer := new Buffer();
      writeBuffer := new Buffer();
      reader := new ResumableReadFileBlock(c.layout.bs, c.layout.size);
      disk, hashOut, hashingDone, finished := null, null, false, false;
    }

    /** The branch that writes the current block to disk, on variables: it changes the file only from the file position
        on, by bytes of the write buffer, and nothing of the frame being received. */
    method WriteSome() returns (ghost n: nat, ghost k: nat)
      requires Valid() && disk != null
      modifies this`disk, disk, file
      ensures Valid()
      ensures var d := old(View()).disk.value;
              && d.written + n <= |d.data|
              && file.content == WriteAt(old(file.content), old(file.pos), d.data[d.written..d.written + n])
              && View() == AfterDiskWrite(old(View()), n)
              && Wrote(old(file.sched), file.sched, k, n, d.written + n == |d.data|)
    {
      hide Wrote, WriteAt;
      ghost var start := disk.offset;
      var done;
      done, k := disk.WriteAll(writeBuffer.bytes);
      n := disk.offset - start;
      if done {
        disk := null;
      }
    }

    /** The branch that writes the current block to disk; it is over when all of the block is written. */
    method WriteDisk(ghost c: Config, ghost s: State) returns (ghost n: nat, ghost k: nat, ghost labels: seq<Label>)
      requires Represents(c, s) && disk != null && !finished
      modifies this`disk, disk, file
      ensures Runs(c, s, labels) && Represents(c, Exec(c, s, labels))
      ensures var d := s.srv.disk.value;
              && d.written + n <= |d.data| && file.pos == old(file.pos) + n
              && Wrote(old(file.sched), file.sched, k, n, d.written + n == |d.data|)
              && labels == DiskLabels(n, |d.data| - d.written)
              && (disk == null <==> d.written + n == |d.data|)
    {
      hide Runs, Exec, Wrote, WriteAt;
      n, k := WriteSome();
      labels := DiskLabels(n, |s.srv.disk.value.data| - s.srv.disk.value.written);
      ServerDiskRun(c, s, n);
    }

    /** The branch that reads blocks, on variables: a cancelled read keeps its bytes; a whole frame is swapped into the
        write buffer and the file positioned at its offset; the end of the stream ends the loop. `ns` are the sizes of
        the reads of this call that got bytes. */
    method ReadSome(src: ByteSource) returns (ghost fed: Fed, ghost ns: seq<nat>)
      requires Valid() && disk == null && !finished
      modifies this`receiveBuffer, this`writeBuffer, this`disk, this`finished, reader, receiveBuffer, src, file`pos
      ensures Valid()
      ensures reader.Came(old(reader.Pending(receiveBuffer)), old(src.data), ns, fed, src)
      ensures finished <==> fed.More? && !Stalled(old(src.sched), |ns|, src.data, src.closed)
      ensures finished ==> src.data == [] && src.closed && src.Made(old(src.Now()), |ns| + 1)
      ensures fed.More? && !finished ==> src.LeftPending(old(src.Now()), |ns|)
      ensures fed.Got? ==>
                && src.Made(old(src.Now()), |ns|) && disk != null && disk.offset == 0
                && writeBuffer.bytes == fed.frame.payload && file.pos == fed.frame.v
      ensures !fed.Got? ==> disk == null && file.pos == old(file.pos)
      ensures View() == OnBlockRead(old(View()), fed).(finished := finished)
    {
      hide FeedAll, Partial, U64, PayloadLen, Encode, Idle;
      var r;
      r, ns := reader.ReadOn(src, receiveBuffer);
      fed := More(reader.Pending(receiveBuffer));
      if r.None? {
        return;
      }
      match r.value {
        case Err(_) => finished := true;
        case Ok(offset) =>
          fed := Got(Frame(offset, receiveBuffer.bytes));
          receiveBuffer, writeBuffer := writeBuffer, receiveBuffer;
          file.pos := offset;
          disk := new ResumableAsyncWriteAll(file);
      }
    }

    /** The branch that reads blocks: one `ServerReads` step for each read of the call that got bytes, and `ServerEof`
        exactly if the next read, not left pending, found the stream ended. */
    method ReadBlock(src: ByteSource, ghost c: Config, ghost s: State)
      returns (ghost fed: Fed, ghost ns: seq<nat>, ghost labels: seq<Label>)
      requires Represents(c, s) && disk == null && !finished && src.data == s.up && (src.closed ==> s.upClosed)
      modifies this`receiveBuffer, this`writeBuffer, this`disk, this`finished, reader, receiveBuffer, src, file`pos
      ensures Runs(c, s, labels) && Represents(c, Exec(c, s, labels)) && Exec(c, s, labels).up == src.data
      ensures labels == ServerReadLabels(ns) + if finished then [ServerEof] else []
      ensures finished <==> fed.More? && src.data == [] && src.closed && !Idle(old(src.sched), |ns|)
      ensures fed.More? && !finished ==> src.LeftPending(old(src.Now()), |ns|)
      ensures fed.Got? ==> disk != null && writeBuffer.bytes == fed.frame.payload && file.pos == fed.frame.v
      ensures fed.Got? ==> Exec(c, s, labels).frames == s.frames + [fed.frame]
      ensures labels == [] ==> src.LeftPending(old(src.Now()), 0)
    {
      hide Runs, Exec, FeedAll, Partial, CanStep, Step, Idle, Skip;
      fed, ns := ReadSome(src);
      labels := ServerReadLabels(ns);
      assert labels + [] == labels;
      NothingFed(UpFraming(c.layout), s.srv.pending, s.up, ns);
      ServerReadsRun(c, s, ns, fed, src.data);
      if finished {
        EofStep(c, Exec(c, s, labels));
        AndThen(c, s, labels, ServerEof);
        labels := labels + [ServerEof];
      }
    }

    /** The branch that received the next hash from the pipeline: `ServerTake`, which starts to write exactly that hash, or
        `ServerNone` at the end of the pipeline, which ends the hashing. */
    method NextHash(next: Option<Item>, ghost c: Config, ghost s: State) returns (ghost labels: seq<Label>)
      requires Represents(c, s) && hashOut == null && !hashingDone && !finished && s.sp.st.receiving && s.sp.slot == next
      requires next.None? ==> AllExited(s.sp)
      modifies this`hashOut, this`hashingDone
      ensures Runs(c, s, labels) && Represents(c, Exec(c, s, labels))
      ensures next.Some? ==>
                && labels == [ServerTake] && !hashingDone
                && hashOut != null && hashOut.Valid() && hashOut.Remaining() == WriteString(next.value.hash)
      ensures next.None? ==> labels == [ServerNone] && hashingDone && hashOut == null
    {
      hide Runs, Exec, U64;
      if next.Some? {
        hashOut := new ResumableWriteString(next.value.hash);
        labels := [ServerTake];
        OneStep(c, s, ServerTake);
      } else {
        hashingDone := true;
        labels := [ServerNone];
        OneStep(c, s, ServerNone);
      }
    }

    /** The branch that writes the current hash; it is over when all of the hash is written. */
    method WriteHash(sink: ByteSink, ghost c: Config, ghost s: State)
      returns (ghost n: nat, ghost k: nat, ghost labels: seq<Label>)
      requires Represents(c, s) && hashOut != null && !finished
      modifies this`hashOut, hashOut, sink
      ensures var rest := s.srv.hashOut.value;
              && n <= |rest| && sink.data == old(sink.data) + rest[..n]
              && Wrote(old(sink.sched), sink.sched, k, n, n == |rest|)
              && labels == HashWriteLabels(n, |rest|)
              && (hashOut == null <==> n == |rest|)
      ensures Accepts(s.cut, |s.down|, n, c.downCap) ==> Runs(c, s, labels) && Represents(c, Exec(c, s, labels))
    {
      hide Runs, Exec, Wrote;
      ghost var rest, sent := hashOut.Remaining(), sink.data;
      var done;
      done, k := hashOut.WriteTo(sink);
      n := |sink.data| - |sent|;
      SplitOf(sent, rest, sink.data, hashOut.Remaining());
      if done {
        hashOut := null;
      }
      labels := HashWriteLabels(n, |rest|);
      if Accepts(s.cut, |s.down|, n, c.downCap) {
        ServerHashRun(c, s, n);
      }
    }
  }

  lemma NothingFed(fr: Framing, p: Bytes, stream: Bytes, ns: seq<nat>)
    requires ValidFraming(fr) && Partial(fr, p)
    ensures ns == [] ==> FeedAll(fr, p, stream, ns) == Some((More(p), stream))
  {
  }

  lemma EofStep(c: Config, s: State)
    requires ValidFraming(UpFraming(c.layout)) && !s.srv.finished && s.srv.disk.None? && s.up == [] && s.upClosed
    ensures CanStep(c, s, ServerEof) && Step(c, s, ServerEof) == s.(srv := s.srv.(finished := true))
  {
  }

  /** What other participants do leaves a server loop representing the session. */
  lemma OthersKeepServer(l: ServerLoop, c: Config, s: State, lb: Label)
    requires l.Represents(c, s) && ClientEnabled(c, s, lb)
    ensures CanStep(c, s, lb) && l.Represents(c, Step(c, s, lb))
  {
    hide Enabled, Apply, Feed;
  }

  /** The file on disk when the server's loop has been left, in a session that was not cut and met no disk error. */
  lemma FileAtEnd(l: ServerLoop, c: Config, s0: State, labels: seq<Label>)
    requires ValidConfig(c) && Init(c, s0) && Runs(c, s0, labels) && Theorems.NoDiskErrors(labels)
    requires l.Represents(c, Exec(c, s0, labels)) && l.finished && !Exec(c, s0, labels).cut
    ensures l.file.content == c.src <==> Theorems.NoCollision(c)
  {
    Theorems.EndToEnd(c, s0, labels);
  }
}
