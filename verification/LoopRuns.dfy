/** What one branch of an event loop does between two awaits, as runs of the session model. */
module LoopRuns {
  import opened Wire
  import opened Geometry
  import opened Session

  lemma OneStep(c: Config, s: State, a: Label)
    requires ValidFraming(UpFraming(c.layout)) && CanStep(c, s, a)
    ensures Runs(c, s, [a]) && Exec(c, s, [a]) == Step(c, s, a)
  {
    hide CanStep, Step;
    assert [a][1..] == [];
    assert Runs(c, Step(c, s, a), []) && Exec(c, Step(c, s, a), []) == Step(c, s, a);
  }

  /** Runs one more step. */
  lemma AndThen(c: Config, s: State, labels: seq<Label>, a: Label)
    requires ValidFraming(UpFraming(c.layout)) && Runs(c, s, labels) && CanStep(c, Exec(c, s, labels), a)
    ensures Runs(c, s, labels + [a]) && Exec(c, s, labels + [a]) == Step(c, Exec(c, s, labels), a)
  {
    OneStep(c, Exec(c, s, labels), a);
    RunsConcat(c, s, labels, [a]);
  }

  // ---------------------------------------------------------------- reading

  function ServerReadLabels(ns: seq<nat>): seq<Label> {
    seq(|ns|, i requires 0 <= i < |ns| => ServerReads(ns[i]))
  }

  function ClientReadLabels(ns: seq<nat>): seq<Label> {
    seq(|ns|, i requires 0 <= i < |ns| => ClientReads(ns[i]))
  }

  function AfterServerReads(s: State, fed: Fed, rest: Bytes): State {
    s.(srv := OnBlockRead(s.srv, fed), up := rest, frames := if fed.Got? then s.frames + [fed.frame] else s.frames)
  }

  lemma ServerReadStep(c: Config, s: State, q: Bytes, rest: Bytes, n: nat)
    requires ValidFraming(UpFraming(c.layout)) && !s.srv.finished && s.srv.disk.None?
    requires Partial(UpFraming(c.layout), q) && 0 < n <= |rest| && n <= Room(UpFraming(c.layout), q)
    ensures var s1 := AfterServerReads(s, More(q), rest);
            && CanStep(c, s1, ServerReads(n))
            && Step(c, s1, ServerReads(n)) == AfterServerReads(s, Feed(UpFraming(c.layout), q, rest[..n]), rest[n..])
  {
    hide Feed, Partial, Room;
  }

  /** The reads of one call of the block reader are steps of the server. */
  lemma {:induction false} ServerReadsRun(c: Config, s: State, ns: seq<nat>, fed: Fed, rest: Bytes)
    requires ValidFraming(UpFraming(c.layout)) && !s.srv.finished && s.srv.disk.None?
    requires Partial(UpFraming(c.layout), s.srv.pending)
    requires FeedAll(UpFraming(c.layout), s.srv.pending, s.up, ns) == Some((fed, rest))
    ensures Runs(c, s, ServerReadLabels(ns)) && Exec(c, s, ServerReadLabels(ns)) == AfterServerReads(s, fed, rest)
    decreases |ns|
  {
    if ns == [] {
      assert s == AfterServerReads(s, fed, rest);
    } else {
      var before, n := ns[..|ns| - 1], ns[|ns| - 1];
      var (more, rest0) := FeedAll(UpFraming(c.layout), s.srv.pending, s.up, before).value;
      ServerReadsRun(c, s, before, more, rest0);
      assert ServerReadLabels(ns) == ServerReadLabels(before) + [ServerReads(n)];
      ServerReadStep(c, s, more.pending, rest0, n);
      hide CanStep, Step, Runs, Exec;
      AndThen(c, s, ServerReadLabels(before), ServerReads(n));
    }
  }

  function AfterClientReads(c: Config, s: State, fed: Fed, rest: Bytes): State {
    s.(cli := OnRemoteRead(s.cli, fed, c.utf8), down := rest)
  }

  lemma ClientReadStep(c: Config, s: State, q: Bytes, rest: Bytes, n: nat)
    requires ValidFraming(UpFraming(c.layout)) && !s.cli.finished && !s.cli.remoteDone
    requires Partial(DownFraming(), q) && 0 < n <= |rest| && n <= Room(DownFraming(), q)
    ensures var s1 := AfterClientReads(c, s, More(q), rest);
            && CanStep(c, s1, ClientReads(n))
            && Step(c, s1, ClientReads(n)) == AfterClientReads(c, s, Feed(DownFraming(), q, rest[..n]), rest[n..])
  {
    hide Feed, Partial, Room;
    var s1 := AfterClientReads(c, s, More(q), rest);
    SamePending(s.cli, q, Feed(DownFraming(), q, rest[..n]), c.utf8);
    assert s1.cli == s.cli.(pending := q) && s1.down == rest;
  }

  lemma SamePending(cl: Client, q: Bytes, fed: Fed, utf8: Bytes -> bool)
    ensures OnRemoteRead(cl.(pending := q), fed, utf8) == OnRemoteRead(cl, fed, utf8)
  {
  }

  /** The reads of one call of the hash reader are steps of the client. */
  lemma {:induction false} ClientReadsRun(c: Config, s: State, ns: seq<nat>, fed: Fed, rest: Bytes)
    requires ValidFraming(UpFraming(c.layout)) && !s.cli.finished && !s.cli.remoteDone
    requires Partial(DownFraming(), s.cli.pending)
    requires FeedAll(DownFraming(), s.cli.pending, s.down, ns) == Some((fed, rest))
    ensures Runs(c, s, ClientReadLabels(ns)) && Exec(c, s, ClientReadLabels(ns)) == AfterClientReads(c, s, fed, rest)
    decreases |ns|
  {
    if ns == [] {
      assert s == AfterClientReads(c, s, fed, rest);
    } else {
      var before, n := ns[..|ns| - 1], ns[|ns| - 1];
      var (more, rest0) := FeedAll(DownFraming(), s.cli.pending, s.down, before).value;
      ClientReadsRun(c, s, before, more, rest0);
      assert ClientReadLabels(ns) == ClientReadLabels(before) + [ClientReads(n)];
      ClientReadStep(c, s, more.pending, rest0, n);
      hide CanStep, Step, Runs, Exec;
      AndThen(c, s, ClientReadLabels(before), ClientReads(n));
    }
  }

  // ---------------------------------------------------------------- writing

  /** What n bytes written of the current block make of the client's loop. */
  function AfterBlockWrite(l: Layout, cl: Client, n: nat): Client
    requires cl.writer.Some? && n <= |cl.writer.value.rest|
  {
    var wr := cl.writer.value;
    var cl1 := cl.(writer := Some(wr.(rest := wr.rest[n..])));
    if n == |wr.rest| then OnBlockWritten(l, cl1) else cl1
  }

  /** The steps of a call that wrote n of `len` bytes of a block: the write, if any, and the branch's body at the end. */
  function BlockWriteLabels(n: nat, len: nat): seq<Label> {
    (if n > 0 then [ClientWrites(n)] else []) + (if n == len then [ClientWrote] else [])
  }

  lemma ClientWriteRun(c: Config, s: State, n: nat)
    requires ValidFraming(UpFraming(c.layout)) && !s.cli.finished && s.cli.writer.Some?
    requires n <= |s.cli.writer.value.rest| && Accepts(s.cut, |s.up|, n, c.upCap)
    ensures var labels := BlockWriteLabels(n, |s.cli.writer.value.rest|);
            Runs(c, s, labels) && Exec(c, s, labels).cli == AfterBlockWrite(c.layout, s.cli, n)
  {
    var rest := s.cli.writer.value.rest;
    assert rest[0..] == rest;
    var labels: seq<Label> := [];
    if n > 0 {
      OneStep(c, s, ClientWrites(n));
      labels := [ClientWrites(n)];
    }
    if n == |rest| {
      AndThen(c, s, labels, ClientWrote);
      labels := labels + [ClientWrote];
    }
    assert labels == BlockWriteLabels(n, |rest|);
  }

  /** What n bytes written of the current hash make of the server's loop. */
  function AfterHashWrite(sv: Server, n: nat): Server
    requires sv.hashOut.Some? && n <= |sv.hashOut.value|
  {
    sv.(hashOut := if n == |sv.hashOut.value| then None else Some(sv.hashOut.value[n..]))
  }

  function HashWriteLabels(n: nat, len: nat): seq<Label> {
    (if n > 0 then [ServerHashWrites(n)] else []) + (if n == len then [ServerHashWrote] else [])
  }

  lemma ServerHashRun(c: Config, s: State, n: nat)
    requires ValidFraming(UpFraming(c.layout)) && !s.srv.finished && s.srv.hashOut.Some?
    requires n <= |s.srv.hashOut.value| && Accepts(s.cut, |s.down|, n, c.downCap)
    ensures var labels := HashWriteLabels(n, |s.srv.hashOut.value|);
            Runs(c, s, labels) && Exec(c, s, labels).srv == AfterHashWrite(s.srv, n) && Exec(c, s, labels).dest == s.dest
  {
    var rest := s.srv.hashOut.value;
    assert rest[0..] == rest;
    var labels: seq<Label> := [];
    if n > 0 {
      OneStep(c, s, ServerHashWrites(n));
      labels := [ServerHashWrites(n)];
    }
    if n == |rest| {
      AndThen(c, s, labels, ServerHashWrote);
      labels := labels + [ServerHashWrote];
    }
    assert labels == HashWriteLabels(n, |rest|);
  }

  /** What n bytes written to disk make of the server's loop. */
  function AfterDiskWrite(sv: Server, n: nat): Server
    requires sv.disk.Some? && sv.disk.value.written + n <= |sv.disk.value.data|
  {
    var d := sv.disk.value;
    sv.(filePos := sv.filePos + n,
        disk := if d.written + n == |d.data| then None else Some(d.(written := d.written + n)))
  }

  /** The steps of a call that wrote n of `len` bytes to disk. */
  function DiskLabels(n: nat, len: nat): seq<Label> {
    (if n > 0 then [ServerDisk(n)] else []) + (if n == len then [ServerDiskDone] else [])
  }

  lemma ServerDiskRun(c: Config, s: State, n: nat)
    requires ValidFraming(UpFraming(c.layout)) && !s.srv.finished && s.srv.disk.Some?
    requires s.srv.disk.value.written + n <= |s.srv.disk.value.data|
    ensures var d := s.srv.disk.value;
            var labels := DiskLabels(n, |d.data| - d.written);
            && Runs(c, s, labels) && Exec(c, s, labels).srv == AfterDiskWrite(s.srv, n)
            && Exec(c, s, labels).dest == WriteAt(s.dest, s.srv.filePos, d.data[d.written..d.written + n])
  {
    var d := s.srv.disk.value;
    var labels: seq<Label> := [];
    if n > 0 {
      OneStep(c, s, ServerDisk(n));
      labels := [ServerDisk(n)];
    } else {
      assert d.data[d.written..d.written + n] == [];
    }
    if d.written + n == |d.data| {
      AndThen(c, s, labels, ServerDiskDone);
      labels := labels + [ServerDiskDone];
    }
    assert labels == DiskLabels(n, |d.data| - d.written);
  }
}
