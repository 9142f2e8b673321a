/**
 The handshake of src/client.rs and src/server.rs: three messages, three status replies, the resize
 of the destination file, and the agreement that a session then starts from.
 */
module Handshake {
  import opened Wire
  import opened Geometry
  import opened Session

  const PROTOCOL_VERSION: Byte := 1
  const MAX_PATH: nat := 4096
  const MAX_BLOCK: nat := 1024 * 1024 * 1024

  datatype Status =
    | Ack | InvalidSecret | FileSizeDiffers | PermissionDenied | ClientAlreadyConnected
    | UnknownHashAlgorithm | UnsupportedProtocolVersion | InvalidBlockSize

  function StatusByte(s: Status): Byte {
    match s
    case Ack => 0
    case InvalidSecret => 1
    case FileSizeDiffers => 2
    case PermissionDenied => 3
    case ClientAlreadyConnected => 4
    case UnknownHashAlgorithm => 5
    case UnsupportedProtocolVersion => 6
    case InvalidBlockSize => 7
  }

  function StatusOf(b: Byte): Option<Status> {
    match b
    case 0 => Some(Ack)
    case 1 => Some(InvalidSecret)
    case 2 => Some(FileSizeDiffers)
    case 3 => Some(PermissionDenied)
    case 4 => Some(ClientAlreadyConnected)
    case 5 => Some(UnknownHashAlgorithm)
    case 6 => Some(UnsupportedProtocolVersion)
    case 7 => Some(InvalidBlockSize)
    case _ => None
  }

  /** What the client makes of a reply: it goes on, has been told a reason, does not know the status, or gets none. */
  datatype Checked = Passed | Told(status: Status) | Unknown | Lost

  /** `check_status`. */
  function CheckStatus(reply: Bytes): Checked {
    if reply == [] then Lost
    else
      match StatusOf(reply[0])
      case Some(status) => if status.Ack? then Passed else Told(status)
      case None => Unknown
  }

  datatype Algorithm = CRC32 | MD5

  function AlgorithmByte(a: Algorithm): Byte {
    if a.CRC32? then 1 else 2
  }

  function AlgorithmOf(b: Byte): Option<Algorithm> {
    if b == 1 then Some(CRC32) else if b == 2 then Some(MD5) else None
  }

  /** What the client was asked to do. */
  datatype Options = Options(
    secret: Bytes, dest: Bytes, blockSize: nat, force: bool, algorithm: Algorithm, srcSize: nat)

  /** Machine integers of the client. */
  predicate ValidOptions(o: Options) {
    |o.secret| < U64_LIMIT && |o.dest| < U64_LIMIT && o.blockSize < U64_LIMIT && o.srcSize < U64_LIMIT
  }

  /** What the server finds at a path: nothing, where a file can or cannot be created; a file that can or cannot be
      opened for writing and resized; a refusal to look; or another error. */
  datatype Entry = Missing(creatable: bool) | File(content: Bytes, writable: bool) | Denied | Broken

  /** The server's view of its machine: its secret and its files. */
  datatype Host = Host(secret: Bytes, files: Bytes -> Entry, utf8: Bytes -> bool)

  // ---------------------------------------------------------------- messages

  function SecretMessage(o: Options): Bytes
    requires |o.secret| <= 255
  {
    [|o.secret|] + o.secret
  }

  function RequestMessage(o: Options): Bytes {
    WriteString(o.dest) + (U64(o.blockSize) + (U64(o.srcSize) + [if o.force then 1 else 0, AlgorithmByte(o.algorithm)]))
  }

  // ---------------------------------------------------------------- server

  /** What a stage of the server answers: a status, or a dropped connection. */
  datatype Reply<+T> = Continue(value: T) | Stop(status: Status) | Dropped

  /** Compares the length byte with the secret's length truncated to a byte, then the bytes. */
  function ServerSecret(input: Bytes, secret: Bytes): Reply<()> {
    if input == [] then Dropped
    else if input[0] != |secret| % 256 then Stop(InvalidSecret)
    else if |input| - 1 < input[0] then Dropped
    else if input[1..1 + input[0]] != secret then Stop(InvalidSecret)
    else Continue(())
  }

  function ServerVersion(input: Bytes): Reply<()> {
    if input == [] then Dropped
    else if input[0] != PROTOCOL_VERSION then Stop(UnsupportedProtocolVersion)
    else Continue(())
  }

  /** What the server knows when it starts hashing. */
  datatype Agreed = Agreed(dest: Bytes, blockSize: nat, fileSize: nat, algorithm: Algorithm, content: Bytes)

  function ServerRequest(input: Bytes, host: Host): Reply<Agreed> {
    match ReadString(input, MAX_PATH, host.utf8)
    case (Err(_), _) => Dropped
    case (Ok(path), rest) =>
      if |rest| < 8 then Dropped
      else if Head(rest) == 0 || Head(rest) > MAX_BLOCK then Stop(InvalidBlockSize)
      else if |rest| < 18 then Dropped
      else
        match AlgorithmOf(rest[17])
        case None => Stop(UnknownHashAlgorithm)
        case Some(algorithm) =>
          var size := Head(rest[8..]);
          match PrepareFile(host.files(path), size, rest[16] != 0)
          case Continue(content) => Continue(Agreed(path, Head(rest), size, algorithm, content))
          case Stop(status) => Stop(status)
          case Dropped => Dropped
  }

  /** `set_len`: cut off or fill with zeros. */
  function SetLen(content: Bytes, size: nat): (r: Bytes)
    ensures |r| == size
    ensures forall i :: 0 <= i < size ==> r[i] == if i < |content| then content[i] else 0
    ensures |content| == size ==> r == content
  {
    if size <= |content| then content[..size] else content + seq(size - |content|, _ => 0)
  }

  function PrepareFile(entry: Entry, size: nat, force: bool): Reply<Bytes> {
    match entry
    case File(content, writable) =>
      if |content| == size || force then (if writable then Continue(SetLen(content, size)) else Dropped)
      else Stop(FileSizeDiffers)
    case Missing(creatable) => if creatable then Continue(SetLen([], size)) else Dropped
    case Denied => Stop(PermissionDenied)
    case Broken => Dropped
  }

  /** The reply bytes the client sees after a stage. */
  function ReplyBytes<T>(r: Reply<T>): Bytes {
    match r
    case Continue(_) => [StatusByte(Ack)]
    case Stop(status) => [StatusByte(status)]
    case Dropped => []
  }

  // ---------------------------------------------------------------- the dialogue

  /** How the three checks end for a client: all passed, one of them failed, or the client itself gave up. */
  datatype Checks = AllPassed | Failed(stage: nat, why: Checked) | GaveUp

  /** The client's side of the dialogue with any server, which answers message `m` of stage i with `server(i, m)`. */
  function ClientChecks(o: Options, server: (nat, Bytes) -> Bytes): Checks {
    if |o.secret| > 255 then GaveUp
    else
      var first := CheckStatus(server(0, SecretMessage(o)));
      if first != Passed then Failed(0, first)
      else
        var second := CheckStatus(server(1, [PROTOCOL_VERSION]));
        if second != Passed then Failed(1, second)
        else if o.srcSize == 0 then GaveUp
        else
          var third := CheckStatus(server(2, RequestMessage(o)));
          if third != Passed then Failed(2, third) else AllPassed
  }

  /** The server of this repository. */
  function ServerReply(host: Host, stage: nat, message: Bytes): Bytes {
    match stage
    case 0 => ReplyBytes(ServerSecret(message, host.secret))
    case 1 => ReplyBytes(ServerVersion(message))
    case _ => ReplyBytes(ServerRequest(message, host))
  }

  /** How the handshake ends: the session starts, a check fails, or the client gives up. */
  datatype Ending = Started(agreed: Agreed) | Refused(why: Checked) | GivenUp

  function ClientHandshake(o: Options, host: Host): Ending
    requires ValidOptions(o)
  {
    match ClientChecks(o, (stage: nat, message: Bytes) => ServerReply(host, stage, message))
    case GaveUp => GivenUp
    case Failed(_, why) => Refused(why)
    case AllPassed =>
      var r := ServerRequest(RequestMessage(o), host);
      if r.Continue? then Started(r.value) else Refused(Unknown)
  }

  /** A client goes on exactly as long as every reply is 0: to its secret behind its length, to the version 1 and to its
      request. It stops at the first other reply, and before the request if the source is empty. */
  lemma ClientFollowsReplies(o: Options, server: (nat, Bytes) -> Bytes)
    ensures var h := ClientChecks(o, server);
            |o.secret| > 255 ==> h == GaveUp
    ensures |o.secret| <= 255 ==>
              var h := ClientChecks(o, server);
              var first, second := server(0, [|o.secret|] + o.secret), server(1, [1]);
              var third := server(2, RequestMessage(o));
              && (h.Failed? && h.stage == 0 <==> first == [] || first[0] != 0)
              && (h.Failed? && h.stage == 1 <==> first != [] && first[0] == 0 && (second == [] || second[0] != 0))
              && (h == AllPassed <==>
                    && first != [] && first[0] == 0 && second != [] && second[0] == 0
                    && o.srcSize > 0 && third != [] && third[0] == 0)
              && (h == GaveUp <==> first != [] && first[0] == 0 && second != [] && second[0] == 0 && o.srcSize == 0)
  {
    if |o.secret| <= 255 {
      CheckedReplies(server(0, SecretMessage(o)));
      CheckedReplies(server(1, [PROTOCOL_VERSION]));
      CheckedReplies(server(2, RequestMessage(o)));
    }
  }

  // ---------------------------------------------------------------- every reply of the server

  /** The bytes of the protocol: a status is one byte, and reading it back gives the status. */
  lemma StatusRoundTrip(s: Status)
    ensures StatusOf(StatusByte(s)) == Some(s)
    ensures CheckStatus([StatusByte(s)]) == if s == Ack then Passed else Told(s)
  {
  }

  /** Only the byte 0 lets the client go on; bytes above 7 mean nothing to it. */
  lemma CheckedReplies(reply: Bytes)
    ensures CheckStatus(reply) == Passed <==> reply != [] && reply[0] == 0
    ensures CheckStatus(reply) == Lost <==> reply == []
    ensures CheckStatus(reply) == Unknown <==> reply != [] && reply[0] > 7
    ensures CheckStatus(reply).Told? ==> reply != [] && StatusByte(CheckStatus(reply).status) == reply[0]
  {
  }

  /** Every message the server may get as a secret: it is accepted iff its length byte, as far as a byte tells, and then
      all its bytes are those of the secret; wrong bytes are answered with 1; a message that ends too early is not
      answered. */
  lemma SecretReplies(input: Bytes, secret: Bytes)
    ensures var reply := ReplyBytes(ServerSecret(input, secret));
            && (reply == [0] <==> |secret| <= 255 && [|secret|] + secret <= input)
            && (reply == [] <==> input == [] || (input[0] == |secret| % 256 && |input| <= input[0]))
            && (reply == [0] || reply == [] || reply == [1])
  {
    if |secret| <= 255 && [|secret|] + secret <= input {
      assert input[0] == ([|secret|] + secret)[0];
      assert input[1..1 + |secret|] == ([|secret|] + secret)[1..];
    }
  }

  /** Every message the server may get as a version: 1 is accepted, anything else is answered with 6. */
  lemma VersionReplies(input: Bytes)
    ensures ReplyBytes(ServerVersion(input)) == if input == [] then [] else if input[0] == 1 then [0] else [6]
  {
  }

  /** The path of a request, if one can be read: at most 4096 bytes of UTF-8 behind their length. */
  predicate HasPath(input: Bytes, utf8: Bytes -> bool) {
    |input| >= 8 && Head(input) <= 4096 && 8 + Head(input) <= |input| && utf8(input[8..8 + Head(input)])
  }

  /** The reply to a request for a file of `size` bytes at this entry. */
  predicate EntryReply(entry: Entry, size: nat, force: bool, reply: Bytes) {
    match entry
    case File(content, writable) =>
      if |content| != size && !force then reply == [2] else if writable then reply == [0] else reply == []
    case Missing(creatable) => if creatable then reply == [0] else reply == []
    case Denied => reply == [3]
    case Broken => reply == []
  }

  /** Every message the server may get as a request. Behind the path stand eight bytes of block size, eight of file size,
      one for the force flag and one for the algorithm. No reply: no path, or a message that ends too early. 7: a block
      size of 0 or above 2^30, even if nothing follows. 5: an algorithm other than 1 and 2. Otherwise the file decides. */
  lemma RequestReplies(input: Bytes, host: Host)
    ensures var reply := ReplyBytes(ServerRequest(input, host));
            && (!HasPath(input, host.utf8) ==> reply == [])
            && (HasPath(input, host.utf8) ==>
                  var path, at := input[8..8 + Head(input)], 8 + Head(input);
                  && (|input| < at + 8 ==> reply == [])
                  && (|input| >= at + 8 ==>
                        var bs := Head(input[at..]);
                        && (bs == 0 || bs > 0x4000_0000 ==> reply == [7])
                        && (1 <= bs <= 0x4000_0000 && |input| < at + 18 ==> reply == [])
                        && (1 <= bs <= 0x4000_0000 && |input| >= at + 18 ==>
                              if input[at + 17] == 1 || input[at + 17] == 2
                              then EntryReply(host.files(path), Head(input[at + 8..]), input[at + 16] != 0, reply)
                              else reply == [5])))
  {
    hide Head;
    if HasPath(input, host.utf8) {
      var at := 8 + Head(input);
      assert |input| >= at + 8 ==> input[at..][8..] == input[at + 8..];
    }
  }

  /** An accepted request: what both sides now hold. */
  lemma RequestAccepted(input: Bytes, host: Host)
    requires ServerRequest(input, host).Continue?
    ensures HasPath(input, host.utf8)
    ensures var a, at := ServerRequest(input, host).value, 8 + Head(input);
            && |input| >= at + 18
            && a.dest == input[8..at] && a.blockSize == Head(input[at..]) && a.fileSize == Head(input[at + 8..])
            && a.algorithm == (if input[at + 17] == 1 then CRC32 else MD5)
            && FileReady(host.files(a.dest), a.fileSize, input[at + 16] != 0)
            && a.content == ReadyContent(host.files(a.dest), a.fileSize)
  {
    hide Head;
    var at := 8 + Head(input);
    assert input[at..][8..] == input[at + 8..];
  }

  // ---------------------------------------------------------------- client and server together

  predicate FileReady(entry: Entry, size: nat, force: bool) {
    || (entry.Missing? && entry.creatable)
    || (entry.File? && entry.writable && (|entry.content| == size || force))
  }

  /** The destination as the session finds it. */
  function ReadyContent(entry: Entry, size: nat): Bytes
    requires entry.Missing? || entry.File?
  {
    if entry.Missing? then SetLen([], size) else SetLen(entry.content, size)
  }

  /** The client's request on the wire. */
  lemma RequestFormat(o: Options)
    requires ValidOptions(o)
    ensures var m, at := RequestMessage(o), 8 + |o.dest|;
            && |m| == at + 18
            && Head(m) == |o.dest| && m[8..at] == o.dest
            && Head(m[at..]) == o.blockSize && Head(m[at + 8..]) == o.srcSize
            && m[at + 16] == (if o.force then 1 else 0)
            && m[at + 17] == (if o.algorithm.CRC32? then 1 else 2)
  {
    var flags: Bytes := [if o.force then 1 else 0, AlgorithmByte(o.algorithm)];
    var sizes := U64(o.blockSize) + (U64(o.srcSize) + flags);
    var m, at := RequestMessage(o), 8 + |o.dest|;
    Regrouped(U64(|o.dest|), o.dest, sizes);
    HeadOfU64(|o.dest|, o.dest + sizes);
    HeadOfU64(o.blockSize, U64(o.srcSize) + flags);
    HeadOfU64(o.srcSize, flags);
    assert m[at..] == sizes && m[at + 8..] == U64(o.srcSize) + flags;
    assert m[at + 16..] == flags;
    assert m[at + 16] == m[at + 16..][0] && m[at + 17] == m[at + 16..][1];
  }

  /** The secret check between the two programs: accepted iff the secrets are equal, answered with 1 otherwise. */
  lemma SecretAccepted(o: Options, secret: Bytes)
    requires |o.secret| <= 255
    ensures ReplyBytes(ServerSecret(SecretMessage(o), secret)) == if o.secret == secret then [0] else [1]
  {
    var m := SecretMessage(o);
    assert m[1..1 + m[0]] == o.secret;
  }

  /** The server's answer to the client's request, whatever it asks for. */
  lemma RequestOutcome(o: Options, host: Host)
    requires ValidOptions(o)
    ensures var r, entry := ServerRequest(RequestMessage(o), host), host.files(o.dest);
            && (|o.dest| > 4096 || !host.utf8(o.dest) ==> ReplyBytes(r) == [])
            && (|o.dest| <= 4096 && host.utf8(o.dest) ==>
                  && (o.blockSize == 0 || o.blockSize > 0x4000_0000 ==> ReplyBytes(r) == [7])
                  && (1 <= o.blockSize <= 0x4000_0000 ==> EntryReply(entry, o.srcSize, o.force, ReplyBytes(r))))
            && (r.Continue? ==>
                  && FileReady(entry, o.srcSize, o.force)
                  && r.value == Agreed(o.dest, o.blockSize, o.srcSize, o.algorithm, ReadyContent(entry, o.srcSize)))
  {
    RequestFormat(o);
    RequestReplies(RequestMessage(o), host);
    if ServerRequest(RequestMessage(o), host).Continue? {
      RequestAccepted(RequestMessage(o), host);
    }
  }

  lemma ReplyOfContinue<T>(r: Reply<T>)
    ensures CheckStatus(ReplyBytes(r)) == Passed <==> r.Continue? || r == Stop(Ack)
  {
  }

  /** How every handshake ends. The client gives up a secret of more than 255 bytes or an empty source; it is told a wrong
      secret, a block size outside 1..2^30, a size mismatch without the force flag, a denied path; it loses the connection
      on a path too long or not UTF-8, on a file that cannot be created, opened or resized, and on other file errors.
      Otherwise the session starts, and both sides hold the same path, block size, file size and algorithm, and the
      destination has the source's size. */
  lemma HandshakeAgreement(o: Options, host: Host)
    requires ValidOptions(o)
    ensures var h, entry := ClientHandshake(o, host), host.files(o.dest);
            && (h == GivenUp <==> |o.secret| > 255 || (o.secret == host.secret && o.srcSize == 0))
            && (h == Refused(Told(InvalidSecret)) <==> |o.secret| <= 255 && o.secret != host.secret)
            && (h != GivenUp && o.secret == host.secret ==>
                  && (|o.dest| > 4096 || !host.utf8(o.dest) ==> h == Refused(Lost))
                  && (|o.dest| <= 4096 && host.utf8(o.dest) ==>
                        if o.blockSize == 0 || o.blockSize > 0x4000_0000 then h == Refused(Told(InvalidBlockSize))
                        else HandshakeEnds(entry, o.srcSize, o.force, h)))
            && (h.Started? ==>
                  && FileReady(entry, o.srcSize, o.force)
                  && h.agreed == Agreed(o.dest, o.blockSize, o.srcSize, o.algorithm, ReadyContent(entry, o.srcSize))
                  && 1 <= o.blockSize <= 0x4000_0000 && 0 < o.srcSize && o.secret == host.secret)
  {
    if |o.secret| <= 255 {
      SecretAccepted(o, host.secret);
      VersionReplies([PROTOCOL_VERSION]);
      RequestOutcome(o, host);
      ReplyOfContinue(ServerRequest(RequestMessage(o), host));
      NeverStopsWithAck(RequestMessage(o), host);
    }
  }

  lemma NeverStopsWithAck(input: Bytes, host: Host)
    ensures ServerRequest(input, host) != Stop(Ack)
  {
  }

  /** How the handshake ends once the request is well-formed. */
  predicate HandshakeEnds(entry: Entry, size: nat, force: bool, h: Ending) {
    match entry
    case File(content, writable) =>
      if |content| != size && !force then h == Refused(Told(FileSizeDiffers))
      else if writable then h.Started? else h == Refused(Lost)
    case Missing(creatable) => if creatable then h.Started? else h == Refused(Lost)
    case Denied => h == Refused(Told(PermissionDenied))
    case Broken => h == Refused(Lost)
  }

  /** A passed handshake is a valid starting point for a session: both pipelines cut files of the same size into
      the same number of blocks. */
  lemma HandshakeStartsSession(o: Options, host: Host, src: Bytes, hash: Bytes -> Bytes, cw: pos, sw: pos, up: pos, down: pos)
    requires ValidOptions(o) && |src| == o.srcSize && ClientHandshake(o, host).Started?
    requires forall b: Bytes :: |hash(b)| <= MAX_HASH && host.utf8(hash(b))
    ensures var a := ClientHandshake(o, host).agreed;
            && a.blockSize == o.blockSize > 0 && a.fileSize == |a.content| == |src|
            && ValidConfig(Config(Layout(o.blockSize, o.srcSize), src, a.content, hash, host.utf8, cw, sw, up, down))
            && NumBlocks(Layout(a.blockSize, |a.content|)) == NumBlocks(Layout(o.blockSize, |src|))
  {
    HandshakeAgreement(o, host);
  }
}
