/**
 One synchronisation session after the handshake: the client's and the server's event loops
 (src/client.rs, src/server.rs), a hashing pipeline on each side, a bounded byte pipe in each
 direction and the destination file, which the server overwrites while its workers still read it.

 A state transition is one label. A `select!` loop is modelled by letting any of its ready branches
 fire, one `read` or `write` call at a time, so every cancellation point and every chunking is a run.
 */
module Session {
  import opened Wire
  import opened Geometry
  import opened HashPipeline

  const MAX_HASH: nat := 256

  /** What both sides agreed on in the handshake, plus the environment: file contents, worker counts
      and the capacities of the two transport directions. */
  datatype Config = Config(
    layout: Layout, src: Bytes, dst0: Bytes, hash: Bytes -> Bytes, utf8: Bytes -> bool,
    clientWorkers: pos, serverWorkers: pos, upCap: pos, downCap: pos)

  ghost predicate ValidConfig(c: Config) {
    && |c.src| == |c.dst0| == c.layout.size
    && 0 < c.layout.size < U64_LIMIT
    && forall b: Bytes :: |c.hash(b)| <= MAX_HASH && c.utf8(c.hash(b))
  }

  function ClientSetup(c: Config): Setup { Setup(c.layout, c.clientWorkers, c.hash) }
  function ServerSetup(c: Config): Setup { Setup(c.layout, c.serverWorkers, c.hash) }

  function UpFraming(l: Layout): Framing { FileBlocks(l.bs, l.size) }
  function DownFraming(): Framing { Strings(MAX_HASH) }

  // ---------------------------------------------------------------- the client's event loop

  datatype Queued = Queued(idx: nat, loan: Loan)

  /** A `ResumableWriteFileBlock`: the loan it keeps alive and the bytes it has still to write. */
  datatype BlockWriter = BlockWriter(idx: nat, loan: Loan, rest: Bytes)

  /** `pending` is what the hash reader holds; `finished` means the loop was left normally. */
  datatype Client = Client(
    pending: Bytes, remote: seq<Bytes>, remoteDone: bool, over: bool, blockIdx: nat, endIdx: nat,
    queue: seq<Queued>, writer: Option<BlockWriter>, finished: bool)

  function QueuedFrame(l: Layout, q: Queued): Frame {
    Frame(Start(l, q.idx), q.loan.data)
  }

  /** `prepare_next_write_block`. */
  function PrepareNext(l: Layout, cl: Client): Client {
    if cl.writer.Some? || cl.queue == [] then cl
    else
      var q := cl.queue[0];
      cl.(queue := cl.queue[1..], writer := Some(BlockWriter(q.idx, q.loan, Encode(QueuedFrame(l, q)))))
  }

  /** The branch "next block has been fully written". */
  function OnBlockWritten(l: Layout, cl: Client): Client {
    var cl1 := cl.(writer := None);
    if cl.over && cl.queue == [] then cl1.(finished := true) else PrepareNext(l, cl1)
  }

  /** The branch that received one more remote hash, or failed to. */
  function OnRemoteRead(cl: Client, fed: Fed, utf8: Bytes -> bool): Client {
    match fed
    case More(p) => cl.(pending := p)
    case Got(f) =>
      if utf8(f.payload) then cl.(pending := [], remote := cl.remote + [f.payload])
      else cl.(pending := [], remoteDone := true)
    case Reject => cl.(pending := [], remoteDone := true)
  }

  /** The branch that compares the next local block with the oldest remote hash. */
  function OnLocalHash(l: Layout, cl: Client, item: Item): Client
    requires cl.remote != []
  {
    var cl1 := cl.(remote := cl.remote[1..]);
    var cl2 :=
      if item.hash != cl.remote[0]
      then PrepareNext(l, cl1.(queue := cl1.queue + [Queued(cl.blockIdx, item.loan)]))
      else cl1;
    var cl3 := cl2.(blockIdx := cl.blockIdx + 1);
    if cl3.blockIdx == cl.endIdx then cl3.(over := true, finished := cl3.writer.None?) else cl3
  }

  // ---------------------------------------------------------------- the server's event loop

  /** A `ResumableAsyncWriteAll` over the write buffer. */
  datatype DiskWrite = DiskWrite(data: Bytes, written: nat)

  /** `hashOut` is what a `ResumableWriteString` has still to write. */
  datatype Server = Server(
    pending: Bytes, disk: Option<DiskWrite>, filePos: nat, hashOut: Option<Bytes>, hashingDone: bool, finished: bool)

  /** The branch that reads file blocks: a whole frame is swapped into the write buffer and the file is positioned. */
  function OnBlockRead(sv: Server, fed: Fed): Server {
    match fed
    case More(p) => sv.(pending := p)
    case Got(f) => sv.(pending := [], disk := Some(DiskWrite(f.payload, 0)), filePos := f.v)
    case Reject => sv
  }

  function OnHash(sv: Server, hash: Bytes): Server {
    sv.(hashOut := Some(WriteString(hash)))
  }

  // ---------------------------------------------------------------- the whole session

  /** `up` and `down` are the bytes in transit to the server and to the client. History: `frames` are the blocks the
      server has received, `landed` says for each of them whose disk write has ended how many bytes reached the file,
      and `lost` and `downLost` are the bytes that a cut connection has swallowed in the two directions. */
  datatype State = State(
    cli: Client, cp: Pipeline, srv: Server, sp: Pipeline,
    up: Bytes, upClosed: bool, down: Bytes, dest: Bytes,
    frames: seq<Frame>, landed: seq<nat>, lost: Bytes, downLost: Bytes, cut: bool)

  ghost predicate Init(c: Config, s: State) {
    && s.cli == Client([], [], false, false, 0, NumBlocks(c.layout), [], None, false)
    && s.srv == Server([], None, 0, None, false, false)
    && PipelineInit(ClientSetup(c), s.cp)
    && PipelineInit(ServerSetup(c), s.sp)
    && s.up == [] && !s.upClosed && s.down == [] && s.dest == c.dst0
    && s.frames == [] && s.landed == [] && s.lost == [] && s.downLost == [] && !s.cut
  }

  datatype Label =
    | ClientThread(a: Action) | ServerThread(a: Action)
    | ClientWrites(n: nat) | ClientWrote | ClientReads(n: nat) | ClientWant | ClientTake | ClientClose
    | ServerDisk(n: nat) | ServerDiskDone | ServerReads(n: nat) | ServerEof
    | ServerHashWrites(n: nat) | ServerHashWrote | ServerWant | ServerTake | ServerNone | ServerClose
    | Cut(k: nat, j: nat)                                // the connection dies
    | ClientWriteFails | ClientHashEnd | ServerHashLost  // what the loops then see
    | ServerDiskFails                                    // a disk write fails, and `Some(_)` ignores it

  /** How many bytes a write may move into a direction that holds `held` of `cap` bytes; a dead connection takes any. */
  predicate Accepts(cut: bool, held: nat, n: nat, cap: nat) {
    cut || held + n <= cap
  }

  predicate ClientEnabled(c: Config, s: State, lb: Label)
    requires ValidFraming(DownFraming())
  {
    match lb
    case ClientThread(a) => ThreadAction(a) && Enabled(ClientSetup(c), s.cp, a, c.src)
    case ClientWrites(n) =>
      && !s.cli.finished && s.cli.writer.Some?
      && 0 < n <= |s.cli.writer.value.rest| && Accepts(s.cut, |s.up|, n, c.upCap)
    case ClientWrote => !s.cli.finished && s.cli.writer.Some? && s.cli.writer.value.rest == []
    case ClientReads(n) =>
      && !s.cli.finished && !s.cli.remoteDone && Partial(DownFraming(), s.cli.pending)
      && 0 < n <= |s.down| && n <= Room(DownFraming(), s.cli.pending)
    case ClientWant => !s.cli.finished && s.cli.remote != [] && !s.cli.over && !s.cp.st.receiving
    case ClientTake =>
      !s.cli.finished && s.cli.remote != [] && !s.cli.over && s.cp.st.receiving && s.cp.slot.Some?
    case ClientClose => s.cli.finished && !s.cp.st.closed
    case ClientWriteFails => s.cut && !s.cli.finished && s.cli.writer.Some?
    case ClientHashEnd => s.cut && !s.cli.finished && !s.cli.remoteDone && s.down == []
    case _ => false
  }

  predicate ServerEnabled(c: Config, s: State, lb: Label)
    requires ValidFraming(UpFraming(c.layout))
  {
    match lb
    case ServerThread(a) => ThreadAction(a) && Enabled(ServerSetup(c), s.sp, a, s.dest)
    case ServerDisk(n) =>
      && !s.srv.finished && s.srv.disk.Some?
      && 0 < n && s.srv.disk.value.written + n <= |s.srv.disk.value.data|
    case ServerDiskDone =>
      !s.srv.finished && s.srv.disk.Some? && s.srv.disk.value.written == |s.srv.disk.value.data|
    case ServerReads(n) =>
      && !s.srv.finished && s.srv.disk.None? && Partial(UpFraming(c.layout), s.srv.pending)
      && 0 < n <= |s.up| && n <= Room(UpFraming(c.layout), s.srv.pending)
    case ServerEof => !s.srv.finished && s.srv.disk.None? && s.up == [] && s.upClosed
    case ServerHashWrites(n) =>
      && !s.srv.finished && s.srv.hashOut.Some?
      && 0 < n <= |s.srv.hashOut.value| && Accepts(s.cut, |s.down|, n, c.downCap)
    case ServerHashWrote => !s.srv.finished && s.srv.hashOut == Some([])
    case ServerWant => !s.srv.finished && s.srv.hashOut.None? && !s.srv.hashingDone && !s.sp.st.receiving
    case ServerTake =>
      !s.srv.finished && s.srv.hashOut.None? && !s.srv.hashingDone && s.sp.st.receiving && s.sp.slot.Some?
    case ServerNone =>
      && !s.srv.finished && s.srv.hashOut.None? && !s.srv.hashingDone
      && s.sp.st.receiving && s.sp.slot.None? && AllExited(s.sp)
    case ServerClose => s.srv.finished && !s.sp.st.closed
    case Cut(k, j) => !s.cut && k <= |s.up| && j <= |s.down|
    case ServerDiskFails => !s.srv.finished && s.srv.disk.Some?
    case ServerHashLost => !s.srv.finished && s.cut && s.srv.hashOut.Some?
    case _ => false
  }

  predicate CanStep(c: Config, s: State, lb: Label)
    requires ValidFraming(UpFraming(c.layout))
  {
    ClientEnabled(c, s, lb) || ServerEnabled(c, s, lb)
  }

  // ---- client transitions

  /** What the client has still to write: the rest of the current block and the queue. */
  function ClientRest(l: Layout, cl: Client): Bytes {
    (if cl.writer.Some? then cl.writer.value.rest else []) + Stream(QueueFrames(l, cl.queue))
  }

  function QueueFrames(l: Layout, q: seq<Queued>): (fs: seq<Frame>)
    ensures |fs| == |q| && forall i :: 0 <= i < |q| ==> fs[i] == QueuedFrame(l, q[i])
  {
    seq(|q|, i requires 0 <= i < |q| => QueuedFrame(l, q[i]))
  }

  function DoClientWrites(s: State, n: nat): State
    requires s.cli.writer.Some? && n <= |s.cli.writer.value.rest|
  {
    var wr := s.cli.writer.value;
    var cl := s.cli.(writer := Some(wr.(rest := wr.rest[n..])));
    if s.cut then s.(cli := cl, lost := s.lost + wr.rest[..n]) else s.(cli := cl, up := s.up + wr.rest[..n])
  }

  function DoClientWrote(c: Config, s: State): State
    requires s.cli.writer.Some?
  {
    var cl := OnBlockWritten(c.layout, s.cli);
    s.(cli := cl, cp := ReturnLoan(s.cp, s.cli.writer.value.loan), upClosed := s.upClosed || cl.finished)
  }

  /** A failed write is taken for a finished one: whatever the block had left to write is lost. */
  function DoClientWriteFails(c: Config, s: State): State
    requires s.cli.writer.Some?
  {
    var wr := s.cli.writer.value;
    DoClientWrote(c, s.(cli := s.cli.(writer := Some(wr.(rest := []))), lost := s.lost + wr.rest))
  }

  function DoClientReads(c: Config, s: State, n: nat): State
    requires ValidFraming(DownFraming()) && Partial(DownFraming(), s.cli.pending)
    requires 0 < n <= |s.down| && n <= Room(DownFraming(), s.cli.pending)
  {
    s.(cli := OnRemoteRead(s.cli, Feed(DownFraming(), s.cli.pending, s.down[..n]), c.utf8), down := s.down[n..])
  }

  function DoClientTake(c: Config, s: State): State
    requires s.cp.slot.Some? && s.cli.remote != []
  {
    var item := s.cp.slot.value;
    var cl := OnLocalHash(c.layout, s.cli, item);
    var cp := DoTake(s.cp);
    s.(cli := cl,
       cp := if item.hash != s.cli.remote[0] then cp else ReturnLoan(cp, item.loan),
       upClosed := s.upClosed || cl.finished)
  }

  // ---- server transitions

  function DoServerDisk(s: State, n: nat): State
    requires s.srv.disk.Some? && s.srv.disk.value.written + n <= |s.srv.disk.value.data|
  {
    var d := s.srv.disk.value;
    s.(dest := WriteAt(s.dest, s.srv.filePos, d.data[d.written..d.written + n]),
       srv := s.srv.(filePos := s.srv.filePos + n, disk := Some(d.(written := d.written + n))))
  }

  /** The disk write is over, completed or failed: the loop forgets it either way. */
  function DoServerDiskEnds(s: State): State
    requires s.srv.disk.Some?
  {
    s.(srv := s.srv.(disk := None), landed := s.landed + [s.srv.disk.value.written])
  }

  function DoServerReads(c: Config, s: State, n: nat): State
    requires ValidFraming(UpFraming(c.layout)) && Partial(UpFraming(c.layout), s.srv.pending)
    requires 0 < n <= |s.up| && n <= Room(UpFraming(c.layout), s.srv.pending)
  {
    var fed := Feed(UpFraming(c.layout), s.srv.pending, s.up[..n]);
    s.(srv := OnBlockRead(s.srv, fed), up := s.up[n..],
       frames := if fed.Got? then s.frames + [fed.frame] else s.frames)
  }

  function DoServerHashWrites(s: State, n: nat): State
    requires s.srv.hashOut.Some? && n <= |s.srv.hashOut.value|
  {
    var rest := s.srv.hashOut.value;
    var sv := s.srv.(hashOut := Some(rest[n..]));
    if s.cut then s.(srv := sv, downLost := s.downLost + rest[..n]) else s.(srv := sv, down := s.down + rest[..n])
  }

  function DoServerTake(s: State): State
    requires s.sp.slot.Some?
  {
    var item := s.sp.slot.value;
    s.(srv := OnHash(s.srv, item.hash), sp := ReturnLoan(DoTake(s.sp), item.loan))
  }

  function DoServerHashLost(s: State): State
    requires s.srv.hashOut.Some?
  {
    s.(srv := s.srv.(hashOut := None), downLost := s.downLost + s.srv.hashOut.value)
  }

  /** The connection dies: k of the bytes in transit still reach the server and j the client, each of which then sees
      the end of the stream. What either side writes afterwards is lost. */
  function DoCut(s: State, k: nat, j: nat): State
    requires k <= |s.up| && j <= |s.down|
  {
    s.(up := s.up[..k], lost := s.lost + s.up[k..], upClosed := true,
       down := s.down[..j], downLost := s.downLost + s.down[j..], cut := true)
  }

  function Step(c: Config, s: State, lb: Label): State
    requires ValidFraming(UpFraming(c.layout)) && CanStep(c, s, lb)
  {
    match lb
    case ClientThread(a) => s.(cp := Apply(ClientSetup(c), s.cp, a, c.src))
    case ServerThread(a) => s.(sp := Apply(ServerSetup(c), s.sp, a, s.dest))
    case ClientWrites(n) => DoClientWrites(s, n)
    case ClientWrote => DoClientWrote(c, s)
    case ClientReads(n) => DoClientReads(c, s, n)
    case ClientWant => s.(cp := DoWant(s.cp))
    case ClientTake => DoClientTake(c, s)
    case ClientClose => s.(cp := DoClose(s.cp))
    case ServerDisk(n) => DoServerDisk(s, n)
    case ServerDiskDone => DoServerDiskEnds(s)
    case ServerReads(n) => DoServerReads(c, s, n)
    case ServerEof => s.(srv := s.srv.(finished := true))
    case ServerHashWrites(n) => DoServerHashWrites(s, n)
    case ServerHashWrote => s.(srv := s.srv.(hashOut := None))
    case ServerWant => s.(sp := DoWant(s.sp))
    case ServerTake => DoServerTake(s)
    case ServerNone => s.(srv := s.srv.(hashingDone := true))
    case ServerClose => s.(sp := DoClose(s.sp))
    case Cut(k, j) => DoCut(s, k, j)
    case ClientWriteFails => DoClientWriteFails(c, s)
    case ClientHashEnd => s.(cli := s.cli.(remoteDone := true))
    case ServerHashLost => DoServerHashLost(s)
    case ServerDiskFails => DoServerDiskEnds(s)
  }

  /** The hashes that have reached the client. */
  function HashesReceived(s: State): nat {
    s.cli.blockIdx + |s.cli.remote|
  }

  /** Both loops have ended and every worker thread of both sides has exited. */
  predicate Final(s: State) {
    s.cli.finished && s.srv.finished && AllExited(s.cp) && AllExited(s.sp)
  }

  // ---------------------------------------------------------------- runs

  predicate Runs(c: Config, s: State, labels: seq<Label>)
    requires ValidFraming(UpFraming(c.layout))
    decreases |labels|
  {
    labels == [] || (CanStep(c, s, labels[0]) && Runs(c, Step(c, s, labels[0]), labels[1..]))
  }

  function Exec(c: Config, s: State, labels: seq<Label>): State
    requires ValidFraming(UpFraming(c.layout)) && Runs(c, s, labels)
    decreases |labels|
  {
    if labels == [] then s else Exec(c, Step(c, s, labels[0]), labels[1..])
  }

  lemma {:induction false} RunsConcat(c: Config, s: State, xs: seq<Label>, ys: seq<Label>)
    requires ValidFraming(UpFraming(c.layout)) && Runs(c, s, xs) && Runs(c, Exec(c, s, xs), ys)
    ensures Runs(c, s, xs + ys) && Exec(c, s, xs + ys) == Exec(c, Exec(c, s, xs), ys)
    decreases |xs|
  {
    hide CanStep, Step;
    if xs == [] {
      assert xs + ys == ys;
    } else {
      assert (xs + ys)[0] == xs[0] && (xs + ys)[1..] == xs[1..] + ys;
      RunsConcat(c, Step(c, s, xs[0]), xs[1..], ys);
    }
  }
}
