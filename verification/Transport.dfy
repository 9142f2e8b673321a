/**
 The byte streams and the file that the resumable objects of src/common.rs work on, with an adversary that
 decides how many bytes each `read` or `write` moves and which of them are left pending, so that `select!`
 cancels the caller.
 */
module Transport {
  import opened Wire
  import opened Geometry

  // ---------------------------------------------------------------- schedules

  /** A schedule has one entry per call: 0 leaves the call pending, n lets it move at most n bytes; so does its end. */
  type Schedule = seq<nat>

  function Skip(sched: Schedule, k: nat): Schedule {
    if k <= |sched| then sched[k..] else []
  }

  predicate Idle(sched: Schedule, k: nat) {
    k >= |sched| || sched[k] == 0
  }

  /** The read after k others is left pending: the schedule says so, or there is nothing to read yet. */
  predicate Stalled(sched: Schedule, k: nat, rest: Bytes, closed: bool) {
    Idle(sched, k) || (rest == [] && !closed)
  }

  /** The next n calls all move something. */
  predicate Generous(sched: Schedule, n: nat) {
    n <= |sched| && forall i :: 0 <= i < n ==> sched[i] > 0
  }

  lemma ScheduleStep(sched: Schedule, k: nat)
    requires k <= |sched|
    ensures Skip(sched[k..], 1) == Skip(sched, k + 1)
    ensures Idle(sched[k..], 0) == Idle(sched, k)
    ensures k < |sched| ==> sched[k..][1..] == sched[k + 1..]
  {
  }

  lemma GenerousSkip(sched: Schedule, k: nat, n: nat, m: nat)
    requires Generous(sched, n) && k + m <= n
    ensures Generous(Skip(sched, k), m)
  {
  }

  function Least(a: nat, b: nat): nat {
    if a < b then a else b
  }

  // ---------------------------------------------------------------- reading

  /** What a source will deliver, and how. */
  datatype Supply = Supply(data: Bytes, closed: bool, sched: Schedule)

  /** The reading end of a transport. */
  class ByteSource {
    var data: Bytes
    var closed: bool
    var sched: Schedule

    constructor (data: Bytes, closed: bool, sched: Schedule)
      ensures Now() == Supply(data, closed, sched)
    {
      this.data, this.closed, this.sched := data, closed, sched;
    }

    ghost function Now(): Supply
      reads this
    {
      Supply(data, closed, sched)
    }

    /** k reads have been made since `from`, none of them left pending. */
    ghost predicate Made(from: Supply, k: nat)
      reads this
    {
      closed == from.closed && k <= |from.sched| && sched == from.sched[k..]
    }

    /** After k such reads one more was left pending, and it had to be. */
    ghost predicate LeftPending(from: Supply, k: nat)
      reads this
    {
      closed == from.closed && Stalled(from.sched, k, data, closed) && sched == Skip(from.sched, k + 1)
    }

    /** One read after k others. */
    lemma OneMore(from: Supply, mid: Supply, k: nat)
      requires mid.closed == from.closed && k <= |from.sched| && mid.sched == from.sched[k..]
      ensures Idle(mid.sched, 0) == Idle(from.sched, k)
      ensures LeftPending(mid, 0) ==> LeftPending(from, k)
      ensures Made(mid, 1) ==> Made(from, k + 1) && |sched| < |mid.sched|
    {
      ScheduleStep(from.sched, k);
    }

    /** None: still pending when the caller is cancelled. Some([]): end of stream, or no room to read into. */
    method Read(max: nat) returns (r: Option<Bytes>)
      modifies this
      ensures r.None? <==> Stalled(old(sched), 0, old(data), old(closed))
      ensures r.None? ==> data == old(data) && LeftPending(old(Now()), 0)
      ensures r.Some? ==> Made(old(Now()), 1) && r.value + data == old(data) && |r.value| <= max
      ensures r.Some? ==> |r.value| == Least(Least(old(sched)[0], max), |old(data)|)
      ensures r == Some([]) ==> max == 0 || (data == [] && closed)
    {
      if sched == [] {
        return None;
      }
      var n := sched[0];
      sched := sched[1..];
      if n == 0 || (data == [] && !closed) {
        return None;
      }
      var k := Least(Least(n, max), |data|);
      r := Some(data[..k]);
      data := data[k..];
    }
  }

  // ---------------------------------------------------------------- writing

  /** k writes that each moved something, `bytes` in all, took the schedule from `before` to `after`; if the caller was
      not done, one more write was left pending, and it had to be. */
  predicate Wrote(before: Schedule, after: Schedule, k: nat, bytes: nat, done: bool) {
    && k <= bytes
    && (done ==> k <= |before| && after == before[k..])
    && (!done ==> Idle(before, k) && after == Skip(before, k + 1))
  }

  /** A caller with `left` bytes to write is done if that many writes move something. */
  lemma GenerousWritesAll(before: Schedule, after: Schedule, k: nat, bytes: nat, left: nat, done: bool)
    requires Wrote(before, after, k, bytes, done) && (!done ==> bytes < left) && Generous(before, left)
    ensures done
  {
  }

  /** One more write, of up to `len` bytes. */
  lemma WriteStep(before: Schedule, mid: Schedule, k: nat, bytes: nat, len: nat, n: nat)
    requires Wrote(before, mid, k, bytes, true) && len > 0 && n == (if mid == [] then 0 else Least(mid[0], len))
    ensures n > 0 ==> Wrote(before, Skip(mid, 1), k + 1, bytes + n, true) && |Skip(mid, 1)| < |mid|
    ensures n == 0 ==> Wrote(before, Skip(mid, 1), k, bytes, false)
  {
    ScheduleStep(before, k);
  }

  lemma WroteThen(a: Schedule, b: Schedule, c: Schedule, k: nat, m: nat, kBytes: nat, mBytes: nat, done: bool)
    requires Wrote(a, b, k, kBytes, true) && Wrote(b, c, m, mBytes, done)
    ensures Wrote(a, c, k + m, kBytes + mBytes, done)
  {
    if done {
      assert a[k..][m..] == a[k + m..];
    }
  }

  /** The writing end of a transport. */
  class ByteSink {
    var data: Bytes
    var sched: Schedule

    constructor (sched: Schedule)
      ensures data == [] && this.sched == sched
    {
      data, this.sched := [], sched;
    }

    /** Writes n >= 1 bytes of `b`, or none if the caller is cancelled. */
    method Write(b: Bytes) returns (n: nat)
      requires b != []
      modifies this
      ensures n == (if old(sched) == [] then 0 else Least(old(sched)[0], |b|))
      ensures data == old(data) + b[..n] && sched == Skip(old(sched), 1)
    {
      if sched == [] {
        return 0;
      }
      n := Least(sched[0], |b|);
      sched := sched[1..];
      data := data + b[..n];
    }
  }

  /** A file with a position. */
  class DiskFile {
    var content: Bytes
    var pos: nat
    var sched: Schedule

    /** `write` at the file position: n >= 1 bytes, or none if the caller is cancelled. */
    method Write(b: Bytes) returns (n: nat)
      requires b != []
      modifies this
      ensures n == (if old(sched) == [] then 0 else Least(old(sched)[0], |b|))
      ensures pos == old(pos) + n && content == WriteAt(old(content), old(pos), b[..n])
      ensures sched == Skip(old(sched), 1)
    {
      if sched == [] {
        assert content == WriteAt(content, pos, b[..0]);
        return 0;
      }
      n := Least(sched[0], |b|);
      sched := sched[1..];
      content := WriteAt(content, pos, b[..n]);
      pos := pos + n;
    }
  }
}
