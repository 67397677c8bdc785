/**
 Streaming a file over an `F` connection: the chunked copy, the two ends of the
 offset handshake, and resumption over any number of interrupted attempts.
 Reads may be short, writes may stop part-way, and either may fail at any point.
 */
module TransferIo {
  import opened Bytes
  import opened RateLimiting
  import Wire

  const CHUNK: nat := 64 * 1024
  const OFFSET_LEN: nat := 8
  const INIT_LEN: nat := 4

  datatype IoError = UnexpectedEof | InvalidInput | Fault

  /** A file or the receiving half of a connection. It ends where `data` ends. */
  class ByteSource {
    const data: seq<byte>
    const reliable: bool
    var pos: nat

    ghost function Unread(): seq<byte>
      reads this
    {
      if pos <= |data| then data[pos..] else []
    }

    constructor (data: seq<byte>, reliable: bool)
      ensures this.data == data && this.reliable == reliable && Unread() == data
    {
      this.data, this.reliable, pos := data, reliable, 0;
    }

    method Seek(offset: nat)
      modifies this
      ensures Unread() == if offset <= |data| then data[offset..] else []
    {
      pos := offset;
    }

    /** Some bytes, at most `want`; none only at the end. */
    method Read(want: nat) returns (r: Result<seq<byte>, IoError>)
      requires want > 0
      modifies this
      ensures r.Success? ==>
        && |r.value| <= want
        && (r.value == [] <==> old(Unread()) == [])
        && old(Unread()) == r.value + Unread()
      ensures r.Failure? ==> r.error == Fault && !reliable && Unread() == old(Unread())
    {
      var fault: bool := *;
      if fault && !reliable {
        return Failure(Fault);
      }
      if pos >= |data| {
        return Success([]);
      }
      assert 1 <= want && pos + 1 <= |data|;
      var n: nat :| 1 <= n <= want && pos + n <= |data|;
      var chunk := data[pos..pos + n];
      assert data[pos..] == chunk + data[pos + n..];
      pos := pos + n;
      r := Success(chunk);
    }

    /** Exactly `n` bytes, by as many reads as it takes. */
    method ReadExact(n: nat) returns (r: Result<seq<byte>, IoError>)
      modifies this
      ensures r.Success? ==> |r.value| == n && old(Unread()) == r.value + Unread()
      ensures r == Failure(UnexpectedEof) ==> |old(Unread())| < n
      ensures r.Failure? ==> r.error == UnexpectedEof || (r.error == Fault && !reliable)
    {
      var got: seq<byte> := [];
      while |got| < n
        invariant |got| <= n
        invariant old(Unread()) == got + Unread()
      {
        ghost var left := Unread();
        var more :- Read(n - |got|);
        if more == [] {
          return Failure(UnexpectedEof);
        }
        Wire.AppendAssoc(got, more, Unread());
        got := got + more;
      }
      r := Success(got);
    }
  }

  /** A write: how long the sink was after it, and when it was made. */
  datatype Stamp = Stamp(length: nat, at: real)

  /** A file or the sending half of a connection. What is past `durable` is buffered. */
  class ByteSink {
    var reliable: bool
    var data: seq<byte>
    var durable: nat
    ghost var stamps: seq<Stamp>

    ghost predicate Valid()
      reads this
    {
      durable <= |data|
    }

    constructor (data: seq<byte>, reliable: bool)
      ensures Valid() && this.data == data && this.reliable == reliable && durable == |data| && stamps == []
    {
      this.reliable, this.data, durable, stamps := reliable, data, |data|, [];
    }

    /** Reopening: a truncated file starts empty, an appended one where it ended. It may fail again, or no longer. */
    method Open(truncate: bool, reliable: bool)
      modifies this
      ensures this.reliable == reliable && stamps == old(stamps)
      ensures Valid() && data == (if truncate then [] else old(data)) && durable == |data|
    {
      this.reliable := reliable;
      if truncate {
        data := [];
      }
      durable := |data|;
    }

    method WriteAll(b: seq<byte>, ghost at: real) returns (r: Result<(), IoError>)
      requires Valid()
      modifies this
      ensures Valid() && durable == old(durable) && reliable == old(reliable)
      ensures stamps == old(stamps) + [Stamp(|data|, at)]
      ensures r.Success? ==> data == old(data) + b
      ensures r.Failure? ==> r.error == Fault && !reliable && old(data) <= data <= old(data) + b
    {
      var fault: bool := *;
      if fault && !reliable {
        var k: nat :| k <= |b|;
        assert b == b[..k] + b[k..];
        assert data + b[..k] + b[k..] == data + b;
        data := data + b[..k];
        stamps := stamps + [Stamp(|data|, at)];
        return Failure(Fault);
      }
      data := data + b;
      stamps := stamps + [Stamp(|data|, at)];
      r := Success(());
    }

    /** A failed flush may lose any buffered tail. */
    method Flush() returns (r: Result<(), IoError>)
      requires Valid()
      modifies this
      ensures Valid() && reliable == old(reliable) && stamps == old(stamps)
      ensures r.Success? ==> data == old(data) && durable == |data|
      ensures r.Failure? ==> r.error == Fault && !reliable && old(data)[..old(durable)] <= data <= old(data)
      ensures r.Failure? ==> durable == old(durable)
    {
      var fault: bool := *;
      if fault && !reliable {
        var k: nat :| durable <= k <= |data|;
        assert data[..k][..durable] == data[..durable];
        data := data[..k];
        return Failure(Fault);
      }
      durable := |data|;
      r := Success(());
    }
  }

  /** The values passed to a progress callback. */
  class Progress {
    var seen: seq<nat>

    constructor ()
      ensures seen == []
    {
      seen := [];
    }

    method Report(n: nat)
      modifies this
      ensures seen == old(seen) + [n]
    {
      seen := seen + [n];
    }
  }

  // ---- what a copy does ----------------------------------------------------------

  /**
   `taken` bytes left the source and the first `moved` of them reached the
   destination, in order, and nothing past `len` was taken.
   */
  ghost predicate Copied(from: seq<byte>, left: seq<byte>, before: seq<byte>, after: seq<byte>, len: nat) {
    && |left| <= |from|
    && |before| <= |after|
    && left == from[|from| - |left|..]
    && |after| - |before| <= |from| - |left| <= len
    && after == before + from[..|after| - |before|]
  }

  ghost predicate CopyOutcome(from: seq<byte>, left: seq<byte>, before: seq<byte>, after: seq<byte>, len: nat,
                              r: Result<nat, IoError>) {
    && Copied(from, left, before, after, len)
    && (r.Success? ==> r.value == len && |from| - |left| == len && |after| - |before| == len)
    && (r == Failure(UnexpectedEof) ==> |from| < len && left == [] && after == before + from)
    && (r.Failure? ==> r.error == UnexpectedEof || r.error == Fault)
  }

  /** The reports appended to `before` rise strictly from above `base` to at most `top`. */
  ghost predicate Rising(before: seq<nat>, after: seq<nat>, base: nat, top: nat) {
    && before <= after
    && (forall i :: |before| <= i < |after| ==> base < after[i] <= top)
    && (forall i, j :: |before| <= i < j < |after| ==> after[i] < after[j])
  }

  /** Everything moved so far has been reported. */
  ghost predicate UpToDate(before: seq<nat>, after: seq<nat>, base: nat, top: nat) {
    && Rising(before, after, base, top)
    && (if base == top then after == before else |after| > |before| && after[|after| - 1] == top)
  }

  /** The bytes granted to `owner` in a log it shares with others. */
  function OwnBytes(log: seq<Grant>, owner: nat): nat {
    if log == [] then 0
    else OwnBytes(log[..|log| - 1], owner) + if log[|log| - 1].owner == owner then log[|log| - 1].bytes else 0
  }

  /** Everything granted since `before` went to others than `owner`. */
  ghost predicate OthersGranted(before: seq<Grant>, after: seq<Grant>, owner: nat) {
    before <= after && forall i :: |before| <= i < |after| ==> after[i].owner != owner
  }

  /** Everything granted since `before` went to `owner`. */
  ghost predicate OnlyGranted(before: seq<Grant>, after: seq<Grant>, owner: nat) {
    before <= after && forall i :: |before| <= i < |after| ==> after[i].owner == owner
  }

  /** `owner` was granted `n` bytes in chunks since `before`, whatever others were granted. */
  ghost predicate Admitted(before: seq<Grant>, after: seq<Grant>, owner: nat, n: nat) {
    && before <= after
    && OwnBytes(after, owner) == OwnBytes(before, owner) + n
    && forall i :: |before| <= i < |after| && after[i].owner == owner ==> 1 <= after[i].bytes <= CHUNK
  }

  /**
   Of `owner`'s grants since `before`, each came only when the one before it had
   resumed, which is no earlier than it was due.
   */
  ghost predicate Paced(b: Bucket, rate: real, owner: nat, before: seq<Grant>, after: seq<Grant>)
    requires rate > 0.0
  {
    forall i, j :: |before| <= i < j < |after| && after[i].owner == after[j].owner == owner ==>
      DueAt(b, rate, after, i) <= after[j].at
  }

  /** By time `awake` every wait of `owner` since `before` is over. */
  ghost predicate Rested(b: Bucket, rate: real, owner: nat, before: seq<Grant>, after: seq<Grant>, awake: real)
    requires rate > 0.0
  {
    forall i :: |before| <= i < |after| && after[i].owner == owner ==> DueAt(b, rate, after, i) <= awake
  }

  /** The bytes granted to `owner`, after the first `from` grants, that are due by `t`. */
  function OwnReleased(b: Bucket, rate: real, owner: nat, from: nat, log: seq<Grant>, t: real): nat
    requires rate > 0.0
    decreases |log|
  {
    if |log| <= from then 0
    else
      OwnReleased(b, rate, owner, from, log[..|log| - 1], t)
      + if log[|log| - 1].owner == owner && Due(b, rate, log) <= t then log[|log| - 1].bytes else 0
  }

  /** The two ends of a copy and its reports. */
  datatype View = View(left: seq<byte>, data: seq<byte>, seen: seq<nat>, stamps: seq<Stamp>)

  ghost function ViewOf(src: ByteSource, dst: ByteSink, progress: Progress): View
    reads src, dst, progress
  {
    View(src.Unread(), dst.data, progress.seen, dst.stamps)
  }

  /** Where a copy started, and what it was asked to do. */
  datatype CopyJob = CopyJob(start: View, log: seq<Grant>, len: nat, base: nat, owner: nat, bucket: Bucket, rate: nat)

  ghost predicate Metered(c: CopyJob, log: seq<Grant>, n: nat)
    requires c.rate > 0
  {
    && Admitted(c.log, log, c.owner, n)
    && Paced(c.bucket, c.rate as real, c.owner, c.log, log)
  }

  /**
   At each write since `before`, no more had been moved past the first `length`
   bytes than `owner` had been granted and was due to be released.
   */
  ghost predicate InTime(b: Bucket, rate: real, owner: nat, from: nat, log: seq<Grant>, length: nat,
                         before: seq<Stamp>, after: seq<Stamp>)
    requires rate > 0.0
  {
    && before <= after
    && forall k :: |before| <= k < |after| ==>
      after[k].length - length <= OwnReleased(b, rate, owner, from, log, after[k].at)
  }

  ghost predicate WrittenInTime(c: CopyJob, stamps: seq<Stamp>, log: seq<Grant>)
    requires c.rate > 0
  {
    InTime(c.bucket, c.rate as real, c.owner, |c.log|, log, |c.start.data|, c.start.stamps, stamps)
  }

  /** `sent` bytes have been taken, admitted, written no earlier than they were due, and reported. */
  ghost predicate InFlight(c: CopyJob, sent: nat, v: View, log: seq<Grant>, awake: real) {
    && Copied(c.start.left, v.left, c.start.data, v.data, c.len)
    && |v.data| - |c.start.data| == |c.start.left| - |v.left| == sent
    && UpToDate(c.start.seen, v.seen, c.base, c.base + sent)
    && c.start.stamps <= v.stamps
    && (c.rate > 0 ==>
          && Metered(c, log, sent) && Rested(c.bucket, c.rate as real, c.owner, c.log, log, awake)
          && WrittenInTime(c, v.stamps, log))
  }

  /** All that a finished copy promises. */
  ghost predicate Finished(c: CopyJob, v: View, log: seq<Grant>, r: Result<nat, IoError>) {
    && CopyOutcome(c.start.left, v.left, c.start.data, v.data, c.len, r)
    && Rising(c.start.seen, v.seen, c.base, c.base + |v.data| - |c.start.data|)
    && (r != Failure(Fault) ==> UpToDate(c.start.seen, v.seen, c.base, c.base + |v.data| - |c.start.data|))
    && c.start.stamps <= v.stamps
    && (c.rate > 0 ==> Metered(c, log, |c.start.left| - |v.left|) && WrittenInTime(c, v.stamps, log))
  }

  lemma CopyStarts(c: CopyJob, awake: real)
    ensures InFlight(c, 0, c.start, c.log, awake)
  {
    assert c.start.data + c.start.left[..0] == c.start.data;
  }

  lemma CopyEnds(c: CopyJob, sent: nat, v: View, log: seq<Grant>, awake: real)
    requires InFlight(c, sent, v, log, awake)
    ensures sent == c.len ==> Finished(c, v, log, Success(c.len))
    ensures sent < c.len ==> Finished(c, v, log, Failure(Fault))
    ensures sent < c.len && v.left == [] ==> Finished(c, v, log, Failure(UnexpectedEof))
  {
    hide Metered, WrittenInTime;
    if v.left == [] {
      assert c.start.left[..|c.start.left|] == c.start.left;
    }
  }

  lemma CopiedMore(from: seq<byte>, left: seq<byte>, before: seq<byte>, after: seq<byte>, len: nat,
                   chunk: seq<byte>, left': seq<byte>, after': seq<byte>)
    requires Copied(from, left, before, after, len) && |after| - |before| == |from| - |left|
    requires left == chunk + left' && |from| - |left'| <= len
    requires after <= after' <= after + chunk
    ensures Copied(from, left', before, after', len)
    ensures after' == after + chunk ==> |after'| - |before| == |from| - |left'|
  {
    var sent := |after| - |before|;
    var k := |after'| - |after|;
    assert after' == after + chunk[..k];
    assert from[sent..] == left;
    assert from[..sent + k] == from[..sent] + from[sent..][..k];
    assert left' == left[|chunk|..];
  }

  lemma ReportedMore(before: seq<nat>, after: seq<nat>, base: nat, top: nat, n: nat)
    requires UpToDate(before, after, base, top)
    ensures base <= top < n ==> UpToDate(before, after + [n], base, n)
    ensures top <= n ==> Rising(before, after, base, n)
  {
  }

  lemma NoReports(before: seq<nat>)
    ensures forall base: nat, top: nat {:trigger Rising(before, before, base, top)} :: Rising(before, before, base, top)
  {
  }

  lemma CopyWithin(from: seq<byte>, left: seq<byte>, before: seq<byte>, after: seq<byte>, len: nat,
                   r: Result<nat, IoError>)
    requires CopyOutcome(from, left, before, after, len, r)
    ensures 0 <= |after| - |before| <= len
    ensures r.Success? ==> |after| - |before| == len
  {
  }

  lemma RisingWithin(before: seq<nat>, after: seq<nat>, base: nat, top: nat, limit: nat)
    requires Rising(before, after, base, top) && top <= limit
    ensures Rising(before, after, base, limit)
  {
  }

  lemma CopyMore(c: CopyJob, sent: nat, v: View, log: seq<Grant>, awake: real,
                 chunk: seq<byte>, v': View, log': seq<Grant>, awake': real)
    requires InFlight(c, sent, v, log, awake)
    requires v.left == chunk + v'.left && 1 <= |chunk| && sent + |chunk| <= c.len
    requires v.data <= v'.data <= v.data + chunk && v'.seen == v.seen
    requires log <= log' && v'.stamps == v.stamps + [Stamp(|v'.data|, awake')]
    requires c.rate > 0 ==>
      Metered(c, log', sent + |chunk|) && Rested(c.bucket, c.rate as real, c.owner, c.log, log', awake')
    ensures v'.data == v.data + chunk ==>
      InFlight(c, sent + |chunk|, v'.(seen := v.seen + [c.base + sent + |chunk|]), log', awake')
    ensures Finished(c, v', log', Failure(Fault))
  {
    hide Copied, UpToDate, Rising, Metered, Rested, WrittenInTime;
    CopiedMore(c.start.left, v.left, c.start.data, v.data, c.len, chunk, v'.left, v'.data);
    CopiedGrows(c.start.left, v.left, c.start.data, v.data, c.len);
    ReportedMore(c.start.seen, v.seen, c.base, c.base + sent, c.base + sent + |chunk|);
    ReportedMore(c.start.seen, v.seen, c.base, c.base + sent, c.base + |v'.data| - |c.start.data|);
    if c.rate > 0 {
      WrittenMore(c, sent + |chunk|, v.stamps, log, log', Stamp(|v'.data|, awake'));
    }
  }

  lemma CopiedGrows(from: seq<byte>, left: seq<byte>, before: seq<byte>, after: seq<byte>, len: nat)
    requires Copied(from, left, before, after, len)
    ensures |before| <= |after|
  {
  }

  lemma MeterMore(c: CopyJob, sent: nat, v: View, log: seq<Grant>, awake: real, g: Grant, awake': real)
    requires c.rate > 0 && InFlight(c, sent, v, log, awake)
    requires g.owner == c.owner && 1 <= g.bytes <= CHUNK && awake <= g.at
    requires Due(c.bucket, c.rate as real, log + [g]) <= awake' && g.at <= awake'
    ensures Metered(c, log + [g], sent + g.bytes)
    ensures Rested(c.bucket, c.rate as real, c.owner, c.log, log + [g], awake')
  {
    hide Due, Copied, UpToDate, WrittenInTime;
    var log' := log + [g];
    var rate := c.rate as real;
    DueStays(c.bucket, rate, log, log');
    assert log'[..|log|] == log;
    assert log'[..|log'|] == log';
    assert forall j :: 0 <= j < |log| ==> log'[j] == log[j];
  }

  /** More grants release no less. */
  lemma {:induction false} OwnReleasedGrows(b: Bucket, rate: real, owner: nat, from: nat, log: seq<Grant>,
                                            log': seq<Grant>, t: real)
    requires rate > 0.0 && log <= log'
    ensures OwnReleased(b, rate, owner, from, log, t) <= OwnReleased(b, rate, owner, from, log', t)
    decreases |log'|
  {
    hide Due;
    if |log'| == |log| {
      assert log' == log;
    } else if |log'| <= from {
      assert |log| <= from;
    } else {
      OwnReleasedGrows(b, rate, owner, from, log, log'[..|log'| - 1], t);
    }
  }

  lemma RestedFront(b: Bucket, rate: real, owner: nat, before: seq<Grant>, log: seq<Grant>, awake: real)
    requires rate > 0.0 && Rested(b, rate, owner, before, log, awake) && |before| < |log|
    ensures Rested(b, rate, owner, before, log[..|log| - 1], awake)
    ensures log[|log| - 1].owner == owner ==> Due(b, rate, log) <= awake
  {
    hide Due;
    DueStays(b, rate, log[..|log| - 1], log);
    assert log[..|log| - 1 + 1] == log;
    assert log[|log| - 1].owner == owner ==> DueAt(b, rate, log, |log| - 1) <= awake;
  }

  /** Once every wait is over, all that was granted has been released. */
  lemma {:induction false} RestedIsReleased(b: Bucket, rate: real, owner: nat, before: seq<Grant>, log: seq<Grant>,
                                            awake: real)
    requires rate > 0.0 && before <= log && Rested(b, rate, owner, before, log, awake)
    ensures OwnReleased(b, rate, owner, |before|, log, awake) + OwnBytes(before, owner) == OwnBytes(log, owner)
    decreases |log|
  {
    hide Due, Rested;
    if |log| == |before| {
      assert log == before;
    } else {
      RestedFront(b, rate, owner, before, log, awake);
      RestedIsReleased(b, rate, owner, before, log[..|log| - 1], awake);
    }
  }

  lemma WrittenMore(c: CopyJob, n: nat, stamps: seq<Stamp>, log: seq<Grant>, log': seq<Grant>, s: Stamp)
    requires c.rate > 0 && log <= log' && WrittenInTime(c, stamps, log) && Metered(c, log', n)
    requires Rested(c.bucket, c.rate as real, c.owner, c.log, log', s.at) && s.length - |c.start.data| <= n
    ensures WrittenInTime(c, stamps + [s], log')
  {
    hide Rested, Paced, OwnReleased, OwnBytes;
    WrittenStays(c, stamps, log, log');
    RestedIsReleased(c.bucket, c.rate as real, c.owner, c.log, log', s.at);
  }

  lemma WrittenStays(c: CopyJob, stamps: seq<Stamp>, log: seq<Grant>, log': seq<Grant>)
    requires c.rate > 0 && log <= log' && WrittenInTime(c, stamps, log)
    ensures WrittenInTime(c, stamps, log')
  {
    hide OwnReleased;
    var (rate, from) := (c.rate as real, |c.log|);
    forall k | |c.start.stamps| <= k < |stamps|
      ensures stamps[k].length - |c.start.data| <= OwnReleased(c.bucket, rate, c.owner, from, log', stamps[k].at)
    {
      OwnReleasedGrows(c.bucket, rate, c.owner, from, log, log', stamps[k].at);
    }
  }

  /** Later grants change no due time. */
  lemma DueStays(b: Bucket, rate: real, log: seq<Grant>, log': seq<Grant>)
    requires rate > 0.0 && log <= log'
    ensures forall i :: 0 <= i < |log| ==> DueAt(b, rate, log', i) == DueAt(b, rate, log, i)
  {
    hide Due;
    forall i | 0 <= i < |log| ensures DueAt(b, rate, log', i) == DueAt(b, rate, log, i) {
      assert log'[..i + 1] == log[..i + 1];
    }
  }

  lemma {:induction false} OwnBytesStay(log: seq<Grant>, log': seq<Grant>, owner: nat)
    requires OthersGranted(log, log', owner)
    ensures OwnBytes(log', owner) == OwnBytes(log, owner)
    decreases |log'|
  {
    if |log'| == |log| {
      assert log' == log;
    } else {
      OwnBytesStay(log, log'[..|log'| - 1], owner);
    }
  }

  /** What others are granted leaves a copy's own account as it was. */
  lemma MeterStays(c: CopyJob, n: nat, log: seq<Grant>, log': seq<Grant>, awake: real)
    requires c.rate > 0 && Metered(c, log, n) && OthersGranted(log, log', c.owner)
    ensures Metered(c, log', n)
    ensures Rested(c.bucket, c.rate as real, c.owner, c.log, log, awake) ==>
      Rested(c.bucket, c.rate as real, c.owner, c.log, log', awake)
  {
    hide DueAt, OwnBytes;
    DueStays(c.bucket, c.rate as real, log, log');
    OwnBytesStay(log, log', c.owner);
    assert forall i :: 0 <= i < |log| ==> log'[i] == log[i];
  }

  lemma InFlightStays(c: CopyJob, sent: nat, v: View, log: seq<Grant>, awake: real, log': seq<Grant>)
    requires InFlight(c, sent, v, log, awake) && OthersGranted(log, log', c.owner)
    ensures InFlight(c, sent, v, log', awake)
  {
    hide Metered, Rested, Copied, UpToDate, WrittenInTime;
    if c.rate > 0 {
      MeterStays(c, sent, log, log', awake);
      WrittenStays(c, v.stamps, log, log');
    }
  }

  lemma FinishedStays(c: CopyJob, v: View, log: seq<Grant>, r: Result<nat, IoError>, log': seq<Grant>)
    requires Finished(c, v, log, r) && OthersGranted(log, log', c.owner)
    ensures Finished(c, v, log', r)
  {
    hide Metered, Rested, CopyOutcome, UpToDate, Rising, WrittenInTime;
    if c.rate > 0 {
      assert |v.left| <= |c.start.left| by {
        LeftWithin(c, v, r);
      }
      MeterStays(c, |c.start.left| - |v.left|, log, log', 0.0);
      WrittenStays(c, v.stamps, log, log');
    }
  }

  lemma LeftWithin(c: CopyJob, v: View, r: Result<nat, IoError>)
    requires CopyOutcome(c.start.left, v.left, c.start.data, v.data, c.len, r)
    ensures |v.left| <= |c.start.left|
  {
  }

  /** Any number of acquires by transfers other than `owner`, of any size and at any times. */
  method OthersAcquire(limiter: RateLimiter, ghost owner: nat)
    requires limiter.Valid()
    modifies limiter
    ensures limiter.Valid() && limiter.rate == old(limiter.rate) && limiter.start == old(limiter.start)
    ensures OthersGranted(old(limiter.log), limiter.log, owner)
  {
    hide After, InLockOrder, Due;
    var turns: nat :| true;
    while turns > 0
      invariant limiter.Valid() && limiter.rate == old(limiter.rate) && limiter.start == old(limiter.start)
      invariant OthersGranted(old(limiter.log), limiter.log, owner)
    {
      var now: real := *;
      if now < limiter.last {
        now := limiter.last;
      }
      var n: nat :| true;
      ghost var any: nat :| true;
      ghost var other := if any == owner then any + 1 else any;
      var _ := limiter.Acquire(n, now, other);
      turns := turns - 1;
    }
  }

  /** Takes a chunk from the bucket no earlier than `awake` and sleeps off the delay. */
  method Wait(limiter: RateLimiter, n: nat, awake: real, ghost owner: nat) returns (awake': real, ghost at: real)
    requires limiter.Valid()
    modifies limiter
    ensures limiter.Valid() && limiter.rate == old(limiter.rate) && limiter.start == old(limiter.start)
    ensures awake <= at <= awake'
    ensures limiter.rate > 0 ==>
      && limiter.log == old(limiter.log) + [Grant(owner, n, at)]
      && Due(limiter.start, limiter.rate as real, limiter.log) <= awake'
  {
    hide After, InLockOrder, Due;
    var now: real := *;
    if now < limiter.last {
      now := limiter.last;
    }
    if now < awake {
      now := awake;
    }
    at := now;
    var sleep := limiter.Acquire(n, now, owner);
    awake' := *;
    var due := if sleep.Some? then now + sleep.value else now;
    if awake' < due {
      awake' := due;
    }
    if awake' < now {
      awake' := now;
    }
  }

  /** One turn of the copy loop: read a chunk, wait for it to be admitted, write it, report. */
  method Turn(src: ByteSource, dst: ByteSink, want: nat, limiter: RateLimiter, progress: Progress, base: nat,
              sent: nat, awake: real, ghost c: CopyJob) returns (r: Result<nat, IoError>, awake': real)
    requires dst.Valid() && limiter.Valid() && 1 <= want <= CHUNK && sent + want <= c.len
    requires InFlight(c, sent, ViewOf(src, dst, progress), limiter.log, awake)
    requires c.rate == limiter.rate && c.bucket == limiter.start && c.base == base
    modifies src, dst, limiter, progress
    ensures dst.Valid() && dst.durable == old(dst.durable) && dst.reliable == old(dst.reliable)
    ensures limiter.Valid() && limiter.rate == old(limiter.rate) && limiter.start == old(limiter.start)
    ensures OnlyGranted(old(limiter.log), limiter.log, c.owner)
    ensures r.Success? ==>
      && r.value <= want
      && (r.value == 0 ==> src.Unread() == [])
      && InFlight(c, sent + r.value, ViewOf(src, dst, progress), limiter.log, awake')
    ensures r.Failure? ==>
      && r.error == Fault && !(src.reliable && dst.reliable)
      && Finished(c, ViewOf(src, dst, progress), limiter.log, Failure(Fault))
  {
    hide InFlight, Finished, Metered, Rested, After, InLockOrder, Due;
    ghost var v, log := ViewOf(src, dst, progress), limiter.log;
    awake' := awake;
    CopyEnds(c, sent, v, log, awake);
    var chunk :- src.Read(want);
    if chunk == [] {
      return Success(0), awake;
    }
    ghost var at;
    awake', at := Wait(limiter, |chunk|, awake, c.owner);
    if limiter.rate > 0 {
      MeterMore(c, sent, v, log, awake, Grant(c.owner, |chunk|, at), awake');
    }
    var written := dst.WriteAll(chunk, awake');
    CopyMore(c, sent, v, log, awake, chunk, ViewOf(src, dst, progress), limiter.log, awake');
    if written.Failure? {
      return Failure(written.error), awake';
    }
    progress.Report(base + sent + |chunk|);
    r := Success(|chunk|);
  }

  /**
   Copies exactly `len` bytes in chunks of at most 64 KiB, each admitted by the
   limiter, and due, before it is written. `base` is what the progress callback
   adds. Other transfers may take from the limiter between any two turns.
   */
  method CopyExact(src: ByteSource, dst: ByteSink, len: nat, limiter: RateLimiter, ghost owner: nat,
                   base: nat, progress: Progress) returns (r: Result<nat, IoError>)
    requires dst.Valid() && limiter.Valid()
    modifies src, dst, limiter, progress
    ensures dst.Valid() && dst.durable == old(dst.durable) && dst.reliable == old(dst.reliable)
    ensures limiter.Valid() && limiter.rate == old(limiter.rate) && limiter.start == old(limiter.start)
    ensures old(dst.stamps) <= dst.stamps
    ensures src.reliable && dst.reliable ==> r != Failure(Fault)
    ensures CopyOutcome(old(src.Unread()), src.Unread(), old(dst.data), dst.data, len, r)
    ensures Rising(old(progress.seen), progress.seen, base, base + |dst.data| - |old(dst.data)|)
    ensures r != Failure(Fault) ==>
      UpToDate(old(progress.seen), progress.seen, base, base + |dst.data| - |old(dst.data)|)
    ensures limiter.rate > 0 ==>
      && Admitted(old(limiter.log), limiter.log, owner, |old(src.Unread())| - |src.Unread()|)
      && Paced(limiter.start, limiter.rate as real, owner, old(limiter.log), limiter.log)
      && InTime(limiter.start, limiter.rate as real, owner, |old(limiter.log)|, limiter.log, |old(dst.data)|,
                old(dst.stamps), dst.stamps)
  {
    hide InFlight, CopyOutcome, Rising, UpToDate, Admitted, Paced, InTime, After, InLockOrder, OthersGranted,
      OnlyGranted;
    ghost var c := CopyJob(ViewOf(src, dst, progress), limiter.log, len, base, owner, limiter.start, limiter.rate);
    var remaining: nat := len;
    var awake: real := *;
    CopyStarts(c, awake);
    while remaining > 0
      invariant remaining <= len
      invariant dst.Valid() && dst.durable == old(dst.durable) && dst.reliable == old(dst.reliable)
      invariant limiter.Valid() && limiter.rate == old(limiter.rate) && limiter.start == old(limiter.start)
      invariant InFlight(c, len - remaining, ViewOf(src, dst, progress), limiter.log, awake)
    {
      ghost var log := limiter.log;
      OthersAcquire(limiter, owner);
      InFlightStays(c, len - remaining, ViewOf(src, dst, progress), log, awake, limiter.log);
      var want := if remaining <= CHUNK then remaining else CHUNK;
      var read;
      read, awake :- Turn(src, dst, want, limiter, progress, base, len - remaining, awake, c);
      if read == 0 {
        CopyEnds(c, len - remaining, ViewOf(src, dst, progress), limiter.log, awake);
        return Failure(UnexpectedEof);
      }
      remaining := remaining - read;
    }
    CopyEnds(c, len, ViewOf(src, dst, progress), limiter.log, awake);
    r := Success(len);
  }

  // ---- what metering is for -----------------------------------------------------------

  lemma {:induction false} OwnWithinReleased(b: Bucket, rate: real, owner: nat, from: nat, log: seq<Grant>, t: real)
    requires rate > 0.0
    ensures OwnReleased(b, rate, owner, from, log, t) <= Released(b, rate, log, t)
    decreases |log|
  {
    hide Due;
    if |log| > from {
      OwnWithinReleased(b, rate, owner, from, log[..|log| - 1], t);
    }
  }

  /** At no write has a transfer put more on its way than the rate allows since the bucket was made. */
  lemma WritesAreWithinRate(b: Bucket, rate: real, owner: nat, from: nat, log: seq<Grant>, length: nat,
                            before: seq<Stamp>, after: seq<Stamp>, k: nat)
    requires rate > 0.0 && InLockOrder(b, log) && b.allowance >= 0.0
    requires InTime(b, rate, owner, from, log, length, before, after)
    requires |before| <= k < |after| && after[k].at >= b.last
    ensures (after[k].length - length) as real <= b.allowance + Earned(after[k].at - b.last, rate)
  {
    hide Earned, InLockOrder, OwnReleased, Released;
    OwnWithinReleased(b, rate, owner, from, log, after[k].at);
    ReleaseBound(b, rate, log, after[k].at);
  }

  /** What a transfer took from the limiter: paced, and for between `least` and `most` bytes. */
  ghost predicate Charged(b: Bucket, rate: nat, owner: nat, before: seq<Grant>, after: seq<Grant>, least: int,
                          most: nat) {
    rate > 0 ==>
      && Paced(b, rate as real, owner, before, after)
      && exists n: nat :: least <= n <= most && Admitted(before, after, owner, n)
  }

  /** A transfer's account with the limiter: what it took, with every write in time. */
  ghost predicate Accounted(b: Bucket, rate: nat, owner: nat, before: seq<Grant>, after: seq<Grant>, length: nat,
                            stamps: seq<Stamp>, stamps': seq<Stamp>, least: int, most: nat) {
    && Charged(b, rate, owner, before, after, least, most)
    && (rate > 0 ==> InTime(b, rate as real, owner, |before|, after, length, stamps, stamps'))
  }

  /** Nothing granted and nothing written. */
  lemma NothingToAccount(b: Bucket, rate: nat, owner: nat, log: seq<Grant>, length: nat, stamps: seq<Stamp>, most: nat)
    ensures forall least: int :: least <= 0 ==>
      Accounted(b, rate, owner, log, log, length, stamps, stamps, least, most)
  {
    if rate > 0 {
      assert Admitted(log, log, owner, 0);
    }
  }

  lemma CopyAccounts(from: seq<byte>, left: seq<byte>, before: seq<byte>, after: seq<byte>, len: nat,
                     r: Result<nat, IoError>, b: Bucket, rate: nat, owner: nat, log: seq<Grant>, log': seq<Grant>,
                     stamps: seq<Stamp>, stamps': seq<Stamp>)
    requires CopyOutcome(from, left, before, after, len, r)
    requires rate > 0 ==>
      && Paced(b, rate as real, owner, log, log')
      && InTime(b, rate as real, owner, |log|, log', |before|, stamps, stamps')
      && Admitted(log, log', owner, |from| - |left|)
    ensures forall least: int :: least <= |after| - |before| ==>
      Accounted(b, rate, owner, log, log', |before|, stamps, stamps', least, len)
    ensures r.Success? && rate > 0 ==> Admitted(log, log', owner, len)
  {
    hide Paced, InTime, Admitted;
  }

  lemma AccountsCharge(b: Bucket, rate: nat, owner: nat, before: seq<Grant>, after: seq<Grant>, length: nat,
                       stamps: seq<Stamp>, stamps': seq<Stamp>, least: int, most: nat, less: int)
    requires Accounted(b, rate, owner, before, after, length, stamps, stamps', least, most) && less <= least
    ensures Charged(b, rate, owner, before, after, less, most)
  {
    hide Paced, Admitted;
  }

  // ---- the two ends ----------------------------------------------------------------

  /** The part of the file an uploader may send for a request. */
  function Sendable(file: seq<byte>, offset: nat, size: nat): seq<byte>
    requires offset <= size
  {
    if offset >= |file| then [] else if size <= |file| then file[offset..size] else file[offset..]
  }

  /** The offset a peer asked for, once all eight bytes of it have arrived. */
  function Requested(request: seq<byte>): Option<u64> {
    if |request| >= OFFSET_LEN then Some(BytesU64(request[..OFFSET_LEN])) else None
  }

  /**
   What the uploader's half leaves on the wire once it has an offset within the
   size. Of what was there `before`, at least the first `keep` bytes stay.
   */
  ghost predicate Sent(file: seq<byte>, offset: nat, size: nat, before: seq<byte>, keep: nat, after: seq<byte>,
                       r: Result<nat, IoError>, reliable: bool)
    requires offset <= size && keep <= |before|
  {
    && before[..keep] <= after <= before + Sendable(file, offset, size)
    && (r.Success? ==>
          && r.value == size - offset == |Sendable(file, offset, size)|
          && after == before + Sendable(file, offset, size))
    && (reliable ==>
          && after == before + Sendable(file, offset, size)
          && (r.Success? <==> size <= |file| || offset == size)
          && (r.Failure? ==> r.error == UnexpectedEof))
    && r != Failure(InvalidInput)
  }

  lemma SendablePart(file: seq<byte>, offset: nat, size: nat, n: nat)
    requires offset <= size
    ensures var from := if offset <= |file| then file[offset..] else [];
      var all := Sendable(file, offset, size);
      && |all| == (if |from| < size - offset then |from| else size - offset)
      && (n <= |all| ==> from[..n] == all[..n])
    ensures |Sendable(file, offset, size)| == size - offset <==> size <= |file| || offset == size
  {
  }

  lemma PartAppended(before: seq<byte>, all: seq<byte>, n: nat, keep: nat)
    requires n <= |all| && keep <= |before|
    ensures before[..keep] <= before + all[..n] <= before + all
    ensures n == |all| ==> before + all[..n] == before + all
  {
    assert all == all[..n] + all[n..];
    assert before + all[..n] + all[n..] == before + all;
  }

  lemma CopySends(file: seq<byte>, offset: nat, size: nat, before: seq<byte>, keep: nat, after: seq<byte>,
                  left: seq<byte>, r: Result<nat, IoError>, reliable: bool)
    requires offset <= size && keep <= |before|
    requires CopyOutcome(if offset <= |file| then file[offset..] else [], left, before, after, size - offset, r)
    requires reliable ==> r != Failure(Fault)
    ensures Sent(file, offset, size, before, keep, after, r, reliable)
  {
    hide Sendable;
    var n := |after| - |before|;
    SendablePart(file, offset, size, n);
    PartAppended(before, Sendable(file, offset, size), n, keep);
  }

  lemma LostFlush(file: seq<byte>, offset: nat, size: nat, before: seq<byte>, keep: nat, after: seq<byte>,
                  kept: seq<byte>, r: Result<nat, IoError>)
    requires offset <= size && keep <= |before|
    requires after == before || Sent(file, offset, size, before, keep, after, r, false)
    requires before[..keep] <= kept <= after
    ensures Sent(file, offset, size, before, keep, kept, Failure(Fault), false)
  {
  }

  /** Streams the file from an offset within the size, and flushes what was sent. */
  method StreamRest(tx: ByteSink, file: ByteSource, offset: nat, size: nat, limiter: RateLimiter,
                    ghost owner: nat, progress: Progress) returns (r: Result<nat, IoError>)
    requires tx.Valid() && limiter.Valid() && offset <= size
    modifies tx, file, limiter, progress
    ensures tx.Valid() && tx.reliable == old(tx.reliable) && old(tx.stamps) <= tx.stamps
    ensures r.Success? ==> tx.durable == |tx.data|
    ensures limiter.Valid() && limiter.rate == old(limiter.rate) && limiter.start == old(limiter.start)
    ensures Sent(file.data, offset, size, old(tx.data), old(tx.durable), tx.data, r, tx.reliable && file.reliable)
    ensures Reported(old(progress.seen), progress.seen, offset, size, r)
    ensures Accounted(limiter.start, limiter.rate, owner, old(limiter.log), limiter.log, |old(tx.data)|,
                      old(tx.stamps), tx.stamps, |tx.data| - |old(tx.data)|, size - offset)
    ensures r.Success? && limiter.rate > 0 ==> Admitted(old(limiter.log), limiter.log, owner, size - offset)
  {
    hide Admitted, Paced, InTime, Accounted, Rising, UpToDate, CopyOutcome, Sent, InLockOrder, After, Sendable;
    ghost var before, keep := tx.data, tx.durable;
    ghost var all := tx.reliable && file.reliable;
    file.Seek(offset);
    ghost var from := file.Unread();
    r := CopyExact(file, tx, size - offset, limiter, owner, offset, progress);
    CopyAccounts(from, file.Unread(), before, tx.data, size - offset, r, limiter.start, limiter.rate, owner,
                 old(limiter.log), limiter.log, old(tx.stamps), tx.stamps);
    CopyWithin(from, file.Unread(), before, tx.data, size - offset, r);
    RisingWithin(old(progress.seen), progress.seen, offset, offset + |tx.data| - |before|, size);
    CopySends(file.data, offset, size, before, keep, tx.data, file.Unread(), r, all);
    if r.Failure? {
      return;
    }
    ghost var sent, copied := tx.data, r;
    SentWhole(file.data, offset, size, before, keep, sent, copied, all);
    var flushed := tx.Flush();
    if flushed.Failure? {
      assert sent[..keep] == before[..keep];
      LostFlush(file.data, offset, size, before, keep, sent, tx.data, copied);
      return Failure(flushed.error);
    }
  }

  /** The reports rise within the part asked for, and on success reach its end. */
  ghost predicate Reported(before: seq<nat>, after: seq<nat>, offset: nat, size: nat, r: Result<nat, IoError>) {
    && Rising(before, after, offset, size)
    && (r.Success? ==> UpToDate(before, after, offset, size))
  }

  /** Nothing sent, taken from the limiter or reported. */
  twostate predicate Untouched(tx: ByteSink, limiter: RateLimiter, progress: Progress)
    reads tx, limiter, progress
  {
    && tx.data == old(tx.data) && tx.stamps == old(tx.stamps) && tx.durable == old(tx.durable)
    && limiter.log == old(limiter.log) && progress.seen == old(progress.seen)
  }

  /** Reads the peer's offset and streams the rest of the file from there. */
  method StreamFromOffset(rx: ByteSource, tx: ByteSink, file: ByteSource, size: nat, limiter: RateLimiter,
                          ghost owner: nat, progress: Progress) returns (r: Result<nat, IoError>)
    requires rx != file && tx.Valid() && limiter.Valid()
    modifies rx, tx, file, limiter, progress
    ensures tx.Valid() && tx.reliable == old(tx.reliable) && old(tx.stamps) <= tx.stamps
    ensures r.Success? ==> tx.durable == |tx.data|
    ensures limiter.Valid() && limiter.rate == old(limiter.rate) && limiter.start == old(limiter.start)
    ensures rx.reliable && Requested(old(rx.Unread())).Some? ==> rx.Unread() == old(rx.Unread())[OFFSET_LEN..]
    ensures match Requested(old(rx.Unread()))
      case None =>
        && r.Failure? && Untouched(tx, limiter, progress)
        && (r.error == UnexpectedEof || (r.error == Fault && !rx.reliable))
      case Some(offset) =>
        if offset > size then
          && r.Failure? && Untouched(tx, limiter, progress)
          && (r.error == InvalidInput || (r.error == Fault && !rx.reliable))
        else
          && Sent(file.data, offset, size, old(tx.data), old(tx.durable), tx.data, r,
                  rx.reliable && tx.reliable && file.reliable)
          && Reported(old(progress.seen), progress.seen, offset, size, r)
          && Accounted(limiter.start, limiter.rate, owner, old(limiter.log), limiter.log, |old(tx.data)|,
                       old(tx.stamps), tx.stamps, |tx.data| - |old(tx.data)|, size - offset)
          && (r.Success? && limiter.rate > 0 ==> Admitted(old(limiter.log), limiter.log, owner, size - offset))
  {
    hide Admitted, Accounted, Rising, UpToDate, Sent, InLockOrder, After, FromLE, Pow256;
    ghost var request := Requested(rx.Unread());
    if request.Some? && request.value <= size {
      LostFlush(file.data, request.value, size, tx.data, tx.durable, tx.data, tx.data, Failure(Fault));
      NothingToAccount(limiter.start, limiter.rate, owner, limiter.log, |tx.data|, tx.stamps, size - request.value);
    }
    NoReports(progress.seen);
    var b :- rx.ReadExact(OFFSET_LEN);
    assert old(rx.Unread())[..OFFSET_LEN] == b && old(rx.Unread())[OFFSET_LEN..] == rx.Unread();
    var offset: nat := BytesU64(b);
    if offset > size {
      return Failure(InvalidInput);
    }
    r := StreamRest(tx, file, offset, size, limiter, owner, progress);
    SentUnreliably(file.data, offset, size, old(tx.data), old(tx.durable), tx.data, r, tx.reliable && file.reliable);
  }

  lemma SentUnreliably(file: seq<byte>, offset: nat, size: nat, before: seq<byte>, keep: nat, after: seq<byte>,
                       r: Result<nat, IoError>, reliable: bool)
    requires offset <= size && keep <= |before| && Sent(file, offset, size, before, keep, after, r, reliable)
    ensures Sent(file, offset, size, before, keep, after, r, false)
  {
  }

  lemma SentWhole(file: seq<byte>, offset: nat, size: nat, before: seq<byte>, keep: nat, after: seq<byte>,
                    r: Result<nat, IoError>, reliable: bool)
    requires offset <= size && keep <= |before| && r.Success?
    requires Sent(file, offset, size, before, keep, after, r, reliable)
    ensures after == before + Sendable(file, offset, size)
    ensures Sent(file, offset, size, before, keep, after, r, false)
  {
  }

  /** The whole upload: the token first, then the file from the peer's offset. */
  method Upload(rx: ByteSource, tx: ByteSink, token: u32, file: ByteSource, size: nat, limiter: RateLimiter,
                ghost owner: nat, progress: Progress) returns (r: Result<nat, IoError>)
    requires rx != file && tx.Valid() && limiter.Valid() && tx.data == []
    modifies rx, tx, file, limiter, progress
    ensures tx.Valid() && tx.reliable == old(tx.reliable)
    ensures r.Success? ==> tx.durable == |tx.data|
    ensures limiter.Valid() && limiter.rate == old(limiter.rate) && limiter.start == old(limiter.start)
    ensures Uploaded(old(rx.Unread()), token, file.data, size, tx.data, r,
                     rx.reliable && tx.reliable && file.reliable)
    ensures old(tx.stamps) < tx.stamps
    ensures tx.stamps[|old(tx.stamps)|].length < INIT_LEN ==> Unasked(rx, limiter, progress)
    ensures match Requested(old(rx.Unread()))
      case None => limiter.log == old(limiter.log) && progress.seen == old(progress.seen)
      case Some(offset) =>
        if offset > size then limiter.log == old(limiter.log) && progress.seen == old(progress.seen)
        else
          && Reported(old(progress.seen), progress.seen, offset, size, r)
          && Accounted(limiter.start, limiter.rate, owner, old(limiter.log), limiter.log, INIT_LEN,
                       tx.stamps[..|old(tx.stamps)| + 1], tx.stamps, |tx.data| - INIT_LEN, size - offset)
          && (r.Success? && limiter.rate > 0 ==> Admitted(old(limiter.log), limiter.log, owner, size - offset))
  {
    hide Sent, Accounted, Reported, Admitted, InLockOrder, After, U32Bytes, Requested, Sendable;
    var init := U32Bytes(token);
    ghost var now: real := *;
    ghost var request := Requested(rx.Unread());
    var wrote := tx.WriteAll(init, now);
    assert [] + init == init;
    ghost var stamps := tx.stamps;
    assert stamps[..|old(tx.stamps)| + 1] == stamps;
    if wrote.Failure? {
      if request.Some? && request.value <= size {
        TokenAlone(file.data, request.value, size, init, tx.data, progress.seen);
        NothingToAccount(limiter.start, limiter.rate, owner, limiter.log, INIT_LEN, tx.stamps, size - request.value);
      }
      return Failure(wrote.error);
    }
    ghost var all := rx.reliable && tx.reliable && file.reliable;
    r := StreamFromOffset(rx, tx, file, size, limiter, owner, progress);
    assert tx.stamps[..|stamps|] == stamps;
    if request.Some? && request.value <= size {
      SentUploaded(file.data, request.value, size, init, tx.data, r, all);
    }
  }

  /** No part of the peer's request has been read, and nothing taken from the limiter or reported. */
  twostate predicate Unasked(rx: ByteSource, limiter: RateLimiter, progress: Progress)
    reads rx, limiter, progress
  {
    rx.Unread() == old(rx.Unread()) && limiter.log == old(limiter.log) && progress.seen == old(progress.seen)
  }

  /** What an upload leaves on the wire, for whatever part of a request has arrived. */
  ghost predicate Uploaded(request: seq<byte>, token: u32, file: seq<byte>, size: nat, wire: seq<byte>,
                           r: Result<nat, IoError>, reliable: bool) {
    match Requested(request)
    case None =>
      && r.Failure? && wire <= U32Bytes(token)
      && (reliable ==> r.error == UnexpectedEof && wire == U32Bytes(token))
    case Some(offset) =>
      if offset > size then
        && r.Failure? && wire <= U32Bytes(token)
        && (reliable ==> r.error == InvalidInput && wire == U32Bytes(token))
      else
        var whole := U32Bytes(token) + Sendable(file, offset, size);
        && wire <= whole
        && (r.Success? ==> r.value == size - offset && wire == whole && (size <= |file| || offset == size))
        && (reliable ==>
              && wire == whole && (r.Success? <==> size <= |file| || offset == size)
              && (r.Failure? ==> r.error == UnexpectedEof))
  }

  lemma TokenAlone(file: seq<byte>, offset: nat, size: nat, init: seq<byte>, part: seq<byte>, seen: seq<nat>)
    requires offset <= size && part <= init
    ensures part <= init + Sendable(file, offset, size)
    ensures Reported(seen, seen, offset, size, Failure(Fault))
  {
    hide Sendable;
  }

  lemma SentUploaded(file: seq<byte>, offset: nat, size: nat, init: seq<byte>, after: seq<byte>,
                     r: Result<nat, IoError>, reliable: bool)
    requires offset <= size && Sent(file, offset, size, init, 0, after, r, reliable)
    ensures after <= init + Sendable(file, offset, size)
    ensures r.Success? ==>
      r.value == size - offset && after == init + Sendable(file, offset, size) && (size <= |file| || offset == size)
    ensures reliable ==>
      && after == init + Sendable(file, offset, size) && (r.Success? <==> size <= |file| || offset == size)
      && (r.Failure? ==> r.error == UnexpectedEof)
  {
  }

  /** Takes exactly `want` bytes into `sink`, which is flushed however the copy ends. */
  method Store(rx: ByteSource, sink: ByteSink, want: nat, limiter: RateLimiter, ghost owner: nat, base: nat,
               progress: Progress) returns (r: Result<nat, IoError>)
    requires sink.Valid() && sink.durable == |sink.data| && limiter.Valid()
    modifies rx, sink, limiter, progress
    ensures sink.Valid() && sink.reliable == old(sink.reliable)
    ensures limiter.Valid() && limiter.rate == old(limiter.rate) && limiter.start == old(limiter.start)
    ensures Downloaded(old(rx.Unread()), old(sink.data), sink.data, want, r, rx.reliable && sink.reliable)
    ensures Consumed(old(rx.Unread()), rx.Unread(), want, r)
    ensures r.Success? || r == Failure(UnexpectedEof) ==> sink.durable == |sink.data|
    ensures Reported(old(progress.seen), progress.seen, base, base + want, r)
    ensures Accounted(limiter.start, limiter.rate, owner, old(limiter.log), limiter.log, |old(sink.data)|,
                      old(sink.stamps), sink.stamps, |sink.data| - |old(sink.data)|, want)
    ensures r.Success? && limiter.rate > 0 ==> Admitted(old(limiter.log), limiter.log, owner, want)
  {
    hide Admitted, Paced, InTime, Accounted, Rising, UpToDate, CopyOutcome, Downloaded, Consumed, InLockOrder, After;
    ghost var from, before := rx.Unread(), sink.data;
    ghost var all := rx.reliable && sink.reliable;
    var copied := CopyExact(rx, sink, want, limiter, owner, base, progress);
    ghost var written := sink.data;
    CopyAccounts(from, rx.Unread(), before, written, want, copied, limiter.start, limiter.rate, owner,
                 old(limiter.log), limiter.log, old(sink.stamps), sink.stamps);
    CopyWithin(from, rx.Unread(), before, written, want, copied);
    RisingWithin(old(progress.seen), progress.seen, base, base + |written| - |before|, base + want);
    CopyDownloads(from, rx.Unread(), before, written, want, copied, all);
    var flushed := sink.Flush();
    if flushed.Failure? {
      assert written[..|before|] == before;
      FlushKeepsPrefix(from, rx.Unread(), before, written, sink.data, want, copied, all);
      return Failure(flushed.error);
    }
    r := copied;
  }

  /** Sends the resume offset and writes exactly the missing bytes to `sink`. */
  method Download(rx: ByteSource, tx: ByteSink, offset: u64, expected: nat, sink: ByteSink, limiter: RateLimiter,
                  ghost owner: nat, progress: Progress) returns (r: Result<nat, IoError>)
    requires tx != sink && tx.Valid() && sink.Valid() && sink.durable == |sink.data| && limiter.Valid()
    modifies rx, tx, sink, limiter, progress
    ensures tx.Valid() && sink.Valid() && tx.reliable == old(tx.reliable) && sink.reliable == old(sink.reliable)
    ensures limiter.Valid() && limiter.rate == old(limiter.rate) && limiter.start == old(limiter.start)
    ensures offset > expected ==> r == Failure(InvalidInput) && tx.data == old(tx.data)
    ensures offset <= expected ==> tx.data <= old(tx.data) + U64Bytes(offset)
    ensures offset > expected || tx.data != old(tx.data) + U64Bytes(offset) ==>
      r.Failure? && rx.Unread() == old(rx.Unread()) && Untouched(sink, limiter, progress)
    ensures offset <= expected ==>
      && Downloaded(old(rx.Unread()), old(sink.data), sink.data, expected - offset, r,
                    rx.reliable && tx.reliable && sink.reliable)
      && Consumed(old(rx.Unread()), rx.Unread(), expected - offset, r)
      && (r.Success? || r == Failure(UnexpectedEof) ==> sink.durable == |sink.data|)
      && Reported(old(progress.seen), progress.seen, offset, expected, r)
      && Accounted(limiter.start, limiter.rate, owner, old(limiter.log), limiter.log, |old(sink.data)|,
                   old(sink.stamps), sink.stamps, |sink.data| - |old(sink.data)|, expected - offset)
      && (r.Success? && limiter.rate > 0 ==> Admitted(old(limiter.log), limiter.log, owner, expected - offset))
  {
    hide Admitted, Accounted, Reported, Downloaded, Consumed, InLockOrder, After, U64Bytes;
    if offset > expected {
      return Failure(InvalidInput);
    }
    NothingDownloaded(rx.Unread(), sink.data, expected - offset, progress.seen, offset);
    NothingToAccount(limiter.start, limiter.rate, owner, limiter.log, |sink.data|, sink.stamps, expected - offset);
    ghost var now: real := *;
    var _ :- tx.WriteAll(U64Bytes(offset), now);
    r := Store(rx, sink, expected - offset, limiter, owner, offset, progress);
    DownloadedUnreliably(old(rx.Unread()), old(sink.data), sink.data, expected - offset, r,
                         rx.reliable && sink.reliable);
  }

  /** No more than `want` bytes were taken from the connection, and just as many on success. */
  ghost predicate Consumed(from: seq<byte>, left: seq<byte>, want: nat, r: Result<nat, IoError>) {
    && |left| <= |from| <= |left| + want
    && left == from[|from| - |left|..]
    && (r.Success? ==> |from| == |left| + want)
  }

  /** The sink has gained a prefix of what arrived, and all of the `want` bytes on success. */
  ghost predicate Downloaded(from: seq<byte>, before: seq<byte>, after: seq<byte>, want: nat,
                             r: Result<nat, IoError>, reliable: bool) {
    && before <= after
    && |after| - |before| <= want
    && after <= before + from
    && (r.Success? ==> r.value == want && |after| - |before| == want)
    && (reliable ==> (r.Success? <==> |from| >= want))
    && (reliable && r.Failure? ==> r.error == UnexpectedEof && after == before + from)
  }

  lemma NothingDownloaded(from: seq<byte>, before: seq<byte>, want: nat, seen: seq<nat>, base: nat)
    ensures Downloaded(from, before, before, want, Failure(Fault), false)
    ensures Consumed(from, from, want, Failure(Fault)) && Reported(seen, seen, base, base + want, Failure(Fault))
  {
    assert before + from[..0] == before;
  }

  lemma DownloadedUnreliably(from: seq<byte>, before: seq<byte>, after: seq<byte>, want: nat,
                             r: Result<nat, IoError>, reliable: bool)
    requires Downloaded(from, before, after, want, r, reliable)
    ensures Downloaded(from, before, after, want, r, false)
  {
  }

  lemma CopyDownloads(from: seq<byte>, left: seq<byte>, before: seq<byte>, after: seq<byte>, want: nat,
                      r: Result<nat, IoError>, reliable: bool)
    requires CopyOutcome(from, left, before, after, want, r)
    requires reliable ==> r != Failure(Fault)
    ensures Downloaded(from, before, after, want, r, reliable) && Consumed(from, left, want, r)
  {
    var n := |after| - |before|;
    assert before + from[..n] + from[n..] == before + from by {
      assert from == from[..n] + from[n..];
    }
  }

  lemma FlushKeepsPrefix(from: seq<byte>, left: seq<byte>, before: seq<byte>, after: seq<byte>, kept: seq<byte>,
                         want: nat, r: Result<nat, IoError>, reliable: bool)
    requires Downloaded(from, before, after, want, r, reliable) && Consumed(from, left, want, r)
    requires before <= kept <= after
    ensures Downloaded(from, before, kept, want, Failure(Fault), false)
    ensures Consumed(from, left, want, Failure(Fault))
  {
  }

  // ---- resuming ----------------------------------------------------------------------

  /** Where the next attempt starts: at the end of a partial file, or afresh. */
  function ResumePoint(existing: nat, size: nat): nat {
    if existing < size then existing else 0
  }

  /** A file on disk that is shorter than `size` holds a prefix of the shared file. */
  predicate Partial(disk: seq<byte>, file: seq<byte>, size: nat) {
    |disk| < size ==> disk <= file
  }

  /** Whatever arrives after the token, when part of the wire is lost, is a prefix of what was asked for. */
  lemma WireCarries(request: seq<byte>, offset: u64, token: u32, file: seq<byte>, size: nat, wire: seq<byte>,
                    up: Result<nat, IoError>, cut: nat, good: bool)
    requires offset <= size
    requires request <= U64Bytes(offset) && (good ==> request == U64Bytes(offset))
    requires Uploaded(request, token, file, size, wire, up, good)
    requires INIT_LEN <= cut <= |wire| && (good ==> cut == |wire|)
    ensures wire[INIT_LEN..cut] <= Sendable(file, offset, size)
    ensures good ==> wire[INIT_LEN..cut] == Sendable(file, offset, size)
  {
    hide Sendable;
    BytesOfU64(offset);
    var all := Sendable(file, offset, size);
    if |request| >= OFFSET_LEN {
      assert request == U64Bytes(offset);
      assert request[..OFFSET_LEN] == request;
      assert (U32Bytes(token) + all)[INIT_LEN..] == all;
    }
  }

  lemma PrefixJoin(a: seq<byte>, x: seq<byte>, y: seq<byte>)
    requires x <= y
    ensures a + x <= a + y
  {
    assert y == x + y[|x|..];
    assert a + x + y[|x|..] == a + y;
  }

  lemma RestOfFile(file: seq<byte>, offset: nat, size: nat)
    requires offset <= size && offset <= |file|
    ensures file[..offset] + Sendable(file, offset, size) <= file
    ensures |Sendable(file, offset, size)| == size - offset <==> size <= |file| || offset == size
    ensures size <= |file| ==> file[..offset] + Sendable(file, offset, size) == file[..size]
  {
  }

  lemma DownloadExtends(file: seq<byte>, size: nat, kept: seq<byte>, from: seq<byte>, disk: seq<byte>,
                        r: Result<nat, IoError>, good: bool)
    requires |kept| <= size && kept <= file
    requires from <= Sendable(file, |kept|, size) && (good ==> from == Sendable(file, |kept|, size))
    requires Downloaded(from, kept, disk, size - |kept|, r, good)
    ensures kept <= disk <= file && |disk| <= size
    ensures good ==> disk == kept + from
    ensures r.Success? ==> |from| >= size - |kept| && size <= |file| && disk == file[..size]
    ensures good && size <= |file| ==> r.Success?
  {
    hide Sendable;
    var all := Sendable(file, |kept|, size);
    assert kept == file[..|kept|];
    RestOfFile(file, |kept|, size);
    PrefixJoin(kept, from, all);
    assert disk == (kept + from)[..|disk|] == (kept + all)[..|disk|] == file[..|disk|];
  }

  lemma GoodTokenArrives(asked: seq<byte>, offset: u64, token: u32, file: seq<byte>, size: nat, wire: seq<byte>,
                         sent: Result<nat, IoError>)
    requires asked == U64Bytes(offset) && offset <= size
    requires Uploaded(asked, token, file, size, wire, sent, true)
    ensures INIT_LEN <= |wire|
  {
    BytesOfU64(offset);
    assert asked[..OFFSET_LEN] == asked;
  }

  /** Only an uploader that has read the whole request sends more than its token. */
  lemma MoreThanToken(request: seq<byte>, offset: u64, token: u32, file: seq<byte>, size: nat, wire: seq<byte>,
                      r: Result<nat, IoError>, good: bool)
    requires request <= U64Bytes(offset)
    requires Uploaded(request, token, file, size, wire, r, good) && |wire| > INIT_LEN
    ensures Requested(request) == Some(offset)
  {
    hide Sendable, U64Bytes;
    if |request| == OFFSET_LEN {
      assert request[..OFFSET_LEN] == request == U64Bytes(offset);
      BytesOfU64(offset);
    }
  }

  /**
   The uploader's half of an attempt, over a connection that may lose any tail
   of either direction: what arrives after the token, if the token arrives.
   `good` says that nothing fails.
   */
  method ServeUpload(file: seq<byte>, size: nat, offset: u64, token: u32, good: bool, up: RateLimiter,
                     ghost owner: nat) returns (arrived: Option<seq<byte>>)
    requires offset <= size && up.Valid()
    modifies up
    ensures up.Valid() && up.rate == old(up.rate) && up.start == old(up.start)
    ensures arrived.Some? ==> arrived.value <= Sendable(file, offset, size)
    ensures arrived.Some? && arrived.value != [] ==>
      Charged(up.start, up.rate, owner, old(up.log), up.log, |arrived.value|, size - offset)
    ensures good ==> arrived == Some(Sendable(file, offset, size))
  {
    hide Uploaded, Sendable, Accounted, Charged, Reported, Admitted, U64Bytes, Requested, InLockOrder, After;
    ghost var asked := U64Bytes(offset);
    assert asked[..OFFSET_LEN] == asked;
    var heard: nat :| heard <= OFFSET_LEN && (good ==> heard == OFFSET_LEN);
    var request := new ByteSource(U64Bytes(offset)[..heard], good);
    var wire := new ByteSink([], good);
    var source := new ByteSource(file, good);
    var reports := new Progress();
    var sent := Upload(request, wire, token, source, size, up, owner, reports);
    var cut: nat :| cut <= |wire.data| && (good ==> cut == |wire.data|);
    if good {
      GoodTokenArrives(asked, offset, token, file, size, wire.data, sent);
    }
    if cut < INIT_LEN {
      return None;
    }
    WireCarries(asked[..heard], offset, token, file, size, wire.data, sent, cut, good);
    arrived := Some(wire.data[INIT_LEN..cut]);
    if INIT_LEN < cut {
      MoreThanToken(asked[..heard], offset, token, file, size, wire.data, sent, good);
      AccountsCharge(up.start, up.rate, owner, old(up.log), up.log, INIT_LEN, wire.stamps[..1], wire.stamps,
                     |wire.data| - INIT_LEN, size - offset, |arrived.value|);
    }
  }

  /** A download over a connection on which `from` arrives. */
  method ReceiveFrom(from: seq<byte>, offset: u64, size: nat, disk: ByteSink, good: bool,
                     down: RateLimiter, ghost owner: nat) returns (r: Result<nat, IoError>)
    requires offset <= size && disk.Valid() && disk.durable == |disk.data| && down.Valid() && (good ==> disk.reliable)
    modifies disk, down
    ensures disk.Valid() && (r.Success? || r == Failure(UnexpectedEof) ==> disk.durable == |disk.data|)
    ensures down.Valid() && down.rate == old(down.rate) && down.start == old(down.start)
    ensures Downloaded(from, old(disk.data), disk.data, size - offset, r, good)
    ensures Charged(down.start, down.rate, owner, old(down.log), down.log, |disk.data| - |old(disk.data)|,
                    size - offset)
  {
    hide Downloaded, Consumed, Reported, Accounted, Charged, Admitted, InLockOrder, After, U64Bytes;
    var arrived := new ByteSource(from, good);
    var answer := new ByteSink([], good);
    var reports := new Progress();
    r := Download(arrived, answer, offset, size, disk, down, owner, reports);
    var gained := |disk.data| - |old(disk.data)|;
    AccountsCharge(down.start, down.rate, owner, old(down.log), down.log, |old(disk.data)|, old(disk.stamps),
                   disk.stamps, gained, size - offset, gained);
  }

  /** The downloader's half, writing what arrives after the `offset` bytes already on disk. */
  method ReceiveToDisk(from: seq<byte>, ghost file: seq<byte>, offset: u64, size: nat, disk: ByteSink, good: bool,
                       down: RateLimiter, ghost owner: nat) returns (r: Result<nat, IoError>)
    requires offset <= size && disk.Valid() && disk.durable == |disk.data| && down.Valid()
    requires |disk.data| == offset && disk.data <= file
    requires from <= Sendable(file, offset, size) && (good ==> disk.reliable && from == Sendable(file, offset, size))
    modifies disk, down
    ensures disk.Valid() && (r.Success? || r == Failure(UnexpectedEof) ==> disk.durable == |disk.data|)
    ensures down.Valid() && down.rate == old(down.rate) && down.start == old(down.start)
    ensures old(disk.data) <= disk.data <= file && |disk.data| <= size
    ensures good ==> disk.data == old(disk.data) + from
    ensures r.Success? ==> |from| >= size - offset && size <= |file| && disk.data == file[..size]
    ensures good && size <= |file| ==> r.Success?
    ensures Charged(down.start, down.rate, owner, old(down.log), down.log, |disk.data| - offset, size - offset)
  {
    hide Downloaded, Sendable, Charged;
    ghost var kept := disk.data;
    r := ReceiveFrom(from, offset, size, disk, good, down, owner);
    DownloadExtends(file, size, kept, from, disk.data, r, good);
  }

  /**
   One attempt at fetching `size` bytes of `file` into what is on disk. A partial
   file is only ever added to, and only the missing bytes are asked for.
   */
  method Attempt(file: seq<byte>, size: nat, disk: ByteSink, token: u32, good: bool,
                 up: RateLimiter, down: RateLimiter, ghost owner: nat) returns (r: Result<nat, IoError>)
    requires size < U64_LIMIT && disk.Valid() && up.Valid() && down.Valid() && up != down
    requires Partial(disk.data, file, size)
    modifies disk, up, down
    ensures disk.Valid() && (r.Success? ==> disk.durable == |disk.data|)
    ensures up.Valid() && up.rate == old(up.rate) && up.start == old(up.start)
    ensures down.Valid() && down.rate == old(down.rate) && down.start == old(down.start)
    ensures (disk.data <= file && |disk.data| <= size) || (r.Failure? && disk.data == old(disk.data))
    ensures |old(disk.data)| < size ==> old(disk.data) <= disk.data
    ensures r.Success? ==> size <= |file| && disk.data == file[..size]
    ensures good && size <= |file| ==> r.Success?
    ensures r.Success? ==>
      var missing := if |old(disk.data)| < size then size - |old(disk.data)| else size;
      && (missing > 0 ==> Charged(up.start, up.rate, owner, old(up.log), up.log, missing, missing))
      && Charged(down.start, down.rate, owner, old(down.log), down.log, missing, missing)
  {
    hide Sendable, Charged;
    var offset: u64 := ResumePoint(|disk.data|, size);
    var arrived := ServeUpload(file, size, offset, token, good, up, owner);
    if arrived.None? {
      return Failure(UnexpectedEof);
    }
    var steady: bool := *;
    disk.Open(offset == 0, good || steady);
    r := ReceiveToDisk(arrived.value, file, offset, size, disk, good, down, owner);
    if r.Success? {
      assert |arrived.value| == size - offset by {
        SendableLength(file, offset, size);
      }
    }
  }

  lemma SendableLength(file: seq<byte>, offset: nat, size: nat)
    requires offset <= size
    ensures |Sendable(file, offset, size)| <= size - offset
  {
  }

  /** Attempts, of which those marked good fail nowhere, until one succeeds or there are no more. */
  method Fetch(file: seq<byte>, size: nat, disk: ByteSink, attempts: seq<bool>, up: RateLimiter, down: RateLimiter,
               ghost owner: nat) returns (done: bool)
    requires size < U64_LIMIT && disk.Valid() && up.Valid() && down.Valid() && up != down
    requires Partial(disk.data, file, size)
    modifies disk, up, down
    ensures Partial(disk.data, file, size)
    ensures done ==> size <= |file| && disk.data == file[..size] && disk.durable == |disk.data|
    ensures |disk.data| < size ==> !done
    ensures true in attempts && size <= |file| ==> done
  {
    var i := 0;
    while i < |attempts|
      invariant 0 <= i <= |attempts|
      invariant disk.Valid() && up.Valid() && down.Valid()
      invariant Partial(disk.data, file, size)
      invariant true in attempts[..i] ==> size > |file|
    {
      var token: u32 := *;
      assert attempts[..i + 1] == attempts[..i] + [attempts[i]];
      var r := Attempt(file, size, disk, token, attempts[i], up, down, owner);
      if r.Success? {
        return true;
      }
      i := i + 1;
    }
    assert attempts[..i] == attempts;
    done := false;
  }
}
