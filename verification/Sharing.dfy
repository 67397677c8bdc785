/** Copy loops that share one limiter, in every interleaving of their turns. */
module Sharing {
  import opened Bytes
  import opened RateLimiting
  import opened TransferIo

  /** Each of `m` loops, by its number: its copy so far, or how it ended. */
  datatype Loop = Loop(job: CopyJob, sent: nat, awake: real, result: Option<Result<nat, IoError>>)

  /** Every grant went to one of `m` loops, a chunk at a time. */
  predicate OursOnly(log: seq<Grant>, m: nat) {
    forall i :: 0 <= i < |log| ==> log[i].owner < m && 1 <= log[i].bytes <= CHUNK
  }

  /** Each loop's own grants are paced, whatever the others were granted in between. */
  ghost predicate AllPaced(b: Bucket, rate: real, log: seq<Grant>, m: nat)
    requires rate > 0.0
  {
    forall o: nat :: o < m ==> Paced(b, rate, o, [], log)
  }

  lemma PacedIsOneOutstanding(b: Bucket, rate: real, log: seq<Grant>, m: nat)
    requires rate > 0.0 && OursOnly(log, m) && AllPaced(b, rate, log, m)
    ensures OneOutstanding(b, rate, log)
  {
    hide DueAt;
    forall i, j | 0 <= i < j < |log| && log[i].owner == log[j].owner
      ensures DueAt(b, rate, log, i) <= log[j].at
    {
      assert Paced(b, rate, log[i].owner, [], log);
    }
  }

  lemma {:induction false} OneOutstandingFront(b: Bucket, rate: real, log: seq<Grant>, k: nat)
    requires rate > 0.0 && k <= |log| && OneOutstanding(b, rate, log)
    ensures OneOutstanding(b, rate, log[..k])
    decreases |log| - k
  {
    if k == |log| {
      assert log[..k] == log;
    } else {
      OneOutstandingFront(b, rate, log, k + 1);
      OneOutstandingPrefix(b, rate, log[..k + 1]);
      assert log[..k + 1][..k] == log[..k];
    }
  }

  /** The numbers of `m` loops. */
  function Team(m: nat): (s: set<nat>)
    ensures |s| == m && forall o :: o in s <==> 0 <= o < m
  {
    if m == 0 then {} else Team(m - 1) + {m - 1}
  }

  /** How long the acquire at `k` has to wait. */
  function WaitAt(b: Bucket, rate: real, log: seq<Grant>, k: nat): real
    requires rate > 0.0 && k < |log|
  {
    Delay(After(b, rate, log[..k + 1]), rate)
  }

  /** With every loop paced, no acquire ever waits longer than one chunk for each loop. */
  lemma EveryWaitIsBounded(b: Bucket, rate: real, log: seq<Grant>, m: nat, k: nat)
    requires rate > 0.0 && InLockOrder(b, log) && b.allowance >= 0.0
    requires OursOnly(log, m) && AllPaced(b, rate, log, m) && k < |log|
    ensures WaitAt(b, rate, log, k) <= (CHUNK * m) as real / rate
  {
    hide OneOutstanding, Delay, After, AllPaced;
    PacedIsOneOutstanding(b, rate, log, m);
    OneOutstandingFront(b, rate, log, k + 1);
    WaitingBound(b, rate, log[..k + 1], Team(m), CHUNK);
  }

  /** One more turn of a loop, or the recognition that it is done. */
  method TakeTurn(src: ByteSource, dst: ByteSink, limiter: RateLimiter, progress: Progress, len: nat, base: nat,
                  sent: nat, awake: real, ghost c: CopyJob)
    returns (sent': nat, awake': real, result: Option<Result<nat, IoError>>)
    requires dst.Valid() && limiter.Valid() && sent <= len == c.len
    requires InFlight(c, sent, ViewOf(src, dst, progress), limiter.log, awake)
    requires c.rate == limiter.rate && c.bucket == limiter.start && c.base == base
    modifies src, dst, limiter, progress
    ensures dst.Valid() && sent' <= len
    ensures limiter.Valid() && limiter.rate == old(limiter.rate) && limiter.start == old(limiter.start)
    ensures OnlyGranted(old(limiter.log), limiter.log, c.owner)
    ensures result.None? ==> InFlight(c, sent', ViewOf(src, dst, progress), limiter.log, awake')
    ensures result.Some? ==> Finished(c, ViewOf(src, dst, progress), limiter.log, result.value)
  {
    hide InFlight, Finished, After, InLockOrder;
    sent', awake', result := sent, awake, None;
    CopyEnds(c, sent, ViewOf(src, dst, progress), limiter.log, awake);
    if sent == len {
      result := Some(Success(len));
      return;
    }
    var want := if len - sent <= CHUNK then len - sent else CHUNK;
    var read;
    read, awake' := Turn(src, dst, want, limiter, progress, base, sent, awake, c);
    if read.Failure? {
      result := Some(Failure(Fault));
    } else if read.value == 0 {
      CopyEnds(c, sent, ViewOf(src, dst, progress), limiter.log, awake');
      result := Some(Failure(UnexpectedEof));
    } else {
      sent' := sent + read.value;
    }
  }

  /** Loop `l` is as its copy should be. */
  ghost predicate Sound(l: Loop, v: View, log: seq<Grant>) {
    match l.result
    case None => l.sent <= l.job.len && InFlight(l.job, l.sent, v, log, l.awake)
    case Some(r) => Finished(l.job, v, log, r)
  }

  lemma SoundStays(l: Loop, v: View, log: seq<Grant>, log': seq<Grant>)
    requires Sound(l, v, log) && OthersGranted(log, log', l.job.owner)
    ensures Sound(l, v, log')
  {
    hide InFlight, Finished, OthersGranted;
    match l.result
    case None => InFlightStays(l.job, l.sent, v, log, l.awake, log');
    case Some(r) => FinishedStays(l.job, v, log, r, log');
  }

  /** A loop's own grants came a chunk at a time. */
  predicate InChunks(log: seq<Grant>, owner: nat) {
    forall i :: 0 <= i < |log| && log[i].owner == owner ==> 1 <= log[i].bytes <= CHUNK
  }

  lemma SoundIsPaced(l: Loop, v: View, log: seq<Grant>)
    requires Sound(l, v, log) && l.job.rate > 0 && l.job.log == []
    ensures Paced(l.job.bucket, l.job.rate as real, l.job.owner, [], log) && InChunks(log, l.job.owner)
  {
    hide Paced, OwnBytes, Rested, Copied, CopyOutcome, UpToDate, Rising;
    match l.result
    case None =>
    case Some(r) => LeftWithin(l.job, v, r);
  }

  lemma NewLoopIsSound(l: Loop)
    requires l.sent == 0 && l.result == None
    ensures Sound(l, l.job.start, l.job.log)
  {
    hide InFlight;
    CopyStarts(l.job, l.awake);
  }

  lemma SoundInFlight(l: Loop, v: View, log: seq<Grant>)
    requires Sound(l, v, log) && l.result == None
    ensures InFlight(l.job, l.sent, v, log, l.awake)
  {
    hide InFlight;
  }

  lemma MakeSound(l: Loop, v: View, log: seq<Grant>)
    requires l.result.None? ==> l.sent <= l.job.len && InFlight(l.job, l.sent, v, log, l.awake)
    requires l.result.Some? ==> Finished(l.job, v, log, l.result.value)
    ensures Sound(l, v, log)
  {
    hide InFlight, Finished;
  }

  lemma SoundFinished(l: Loop, v: View, log: seq<Grant>)
    requires Sound(l, v, log) && l.result.Some?
    ensures Finished(l.job, v, log, l.result.value)
  {
    hide Finished;
  }

  /** What one loop was granted is nothing to the others. */
  lemma OneLoopGranted(log: seq<Grant>, log': seq<Grant>, i: nat, m: nat)
    requires OnlyGranted(log, log', i) && i < m && OwnersBelow(log, m)
    ensures OwnersBelow(log', m)
    ensures forall j: nat :: j != i ==> OthersGranted(log, log', j)
  {
  }

  predicate OwnersBelow(log: seq<Grant>, m: nat) {
    forall i :: 0 <= i < |log| ==> log[i].owner < m
  }

  lemma AllInChunks(log: seq<Grant>, m: nat)
    requires OwnersBelow(log, m) && forall o: nat :: o < m ==> InChunks(log, o)
    ensures OursOnly(log, m)
  {
    forall i | 0 <= i < |log| ensures 1 <= log[i].bytes <= CHUNK {
      assert InChunks(log, log[i].owner);
    }
  }

  /** What loop `owner` is about to do. */
  ghost function JobOf(src: ByteSource, dst: ByteSink, report: Progress, limiter: RateLimiter,
                       len: nat, base: nat, owner: nat): CopyJob
    reads src, dst, report, limiter
  {
    CopyJob(ViewOf(src, dst, report), limiter.log, len, base, owner, limiter.start, limiter.rate)
  }

  ghost function Loops(srcs: seq<ByteSource>, dsts: seq<ByteSink>, reports: seq<Progress>, limiter: RateLimiter,
                       lens: seq<nat>, bases: seq<nat>, m: nat): (ls: seq<Loop>)
    requires m <= |srcs| == |dsts| == |reports| == |lens| == |bases|
    reads srcs, dsts, reports, limiter
    ensures |ls| == m
    ensures forall i :: 0 <= i < m ==>
      ls[i] == Loop(JobOf(srcs[i], dsts[i], reports[i], limiter, lens[i], bases[i], i), 0, 0.0, None)
  {
    if m == 0 then []
    else
      Loops(srcs, dsts, reports, limiter, lens, bases, m - 1)
      + [Loop(JobOf(srcs[m - 1], dsts[m - 1], reports[m - 1], limiter, lens[m - 1], bases[m - 1], m - 1), 0, 0.0, None)]
  }

  predicate AllDifferent<T(==)>(xs: seq<T>) {
    forall i, j :: 0 <= i < j < |xs| ==> xs[i] != xs[j]
  }

  ghost function Views(srcs: seq<ByteSource>, dsts: seq<ByteSink>, reports: seq<Progress>): (r: seq<View>)
    requires |srcs| == |dsts| == |reports|
    reads srcs, dsts, reports
    ensures |r| == |srcs| && forall j :: 0 <= j < |srcs| ==> r[j] == ViewOf(srcs[j], dsts[j], reports[j])
  {
    var m := |srcs| - 1;
    if srcs == [] then []
    else Views(srcs[..m], dsts[..m], reports[..m]) + [ViewOf(srcs[m], dsts[m], reports[m])]
  }

  /** All loops are as their copies should be, given what each has left and done. */
  ghost predicate AllSound(loops: seq<Loop>, views: seq<View>,
                           log: seq<Grant>) {
    && |loops| == |views|
    && forall j :: 0 <= j < |loops| ==> Sound(loops[j], views[j], log)
  }

  /** Loop `j` takes from the limiter as owner `j`, and all started on the same empty log. */
  ghost predicate Together(loops: seq<Loop>, bucket: Bucket, rate: nat) {
    forall j :: 0 <= j < |loops| ==>
      loops[j].job.owner == j && loops[j].job.log == [] && loops[j].job.bucket == bucket && loops[j].job.rate == rate
  }

  lemma TurnKeepsSound(loops: seq<Loop>, views: seq<View>,
                       log: seq<Grant>, i: nat, l: Loop, v: View,
                       log': seq<Grant>, bucket: Bucket, rate: nat)
    requires AllSound(loops, views, log) && Together(loops, bucket, rate) && i < |loops|
    requires OwnersBelow(log, |loops|) && OnlyGranted(log, log', i)
    requires l.job == loops[i].job && Sound(l, v, log')
    ensures AllSound(loops[i := l], views[i := v], log')
    ensures Together(loops[i := l], bucket, rate) && OwnersBelow(log', |loops|)
  {
    hide Sound, OnlyGranted, OthersGranted, OwnersBelow;
    OneLoopGranted(log, log', i, |loops|);
    forall j | 0 <= j < |loops| && j != i
      ensures Sound(loops[j], views[j], log')
    {
      SoundStays(loops[j], views[j], log, log');
    }
  }

  lemma NewLoopsAreSound(loops: seq<Loop>, views: seq<View>)
    requires |loops| == |views|
    requires forall j :: 0 <= j < |loops| ==>
      && loops[j].sent == 0 && loops[j].result == None && loops[j].job.log == []
      && loops[j].job.start == views[j]
    ensures AllSound(loops, views, []) && OwnersBelow([], |loops|)
  {
    hide Sound;
    forall j | 0 <= j < |loops| ensures Sound(loops[j], views[j], []) {
      NewLoopIsSound(loops[j]);
    }
  }

  /** What sharing promises: the loops' grants and no others, each paced, no wait longer than a chunk for each loop. */
  ghost predicate SharedWell(b: Bucket, rate: real, log: seq<Grant>, m: nat)
    requires rate > 0.0
  {
    && OursOnly(log, m)
    && OneOutstanding(b, rate, log)
    && forall k :: 0 <= k < |log| ==> WaitAt(b, rate, log, k) <= (CHUNK * m) as real / rate
  }

  lemma SoundIsShared(loops: seq<Loop>, views: seq<View>,
                      log: seq<Grant>, bucket: Bucket, rate: nat)
    requires AllSound(loops, views, log) && Together(loops, bucket, rate) && OwnersBelow(log, |loops|)
    requires rate > 0 && InLockOrder(bucket, log) && bucket.allowance >= 0.0
    ensures SharedWell(bucket, rate as real, log, |loops|)
  {
    hide Sound, OursOnly, OneOutstanding, WaitAt, Paced, InChunks, OwnersBelow, InLockOrder;
    var (m, r) := (|loops|, rate as real);
    forall o: nat | o < m ensures Paced(bucket, r, o, [], log) {
      SoundIsPaced(loops[o], views[o], log);
    }
    forall o: nat | o < m ensures InChunks(log, o) {
      SoundIsPaced(loops[o], views[o], log);
    }
    AllInChunks(log, m);
    PacedIsOneOutstanding(bucket, r, log, m);
    forall k | 0 <= k < |log| ensures WaitAt(bucket, r, log, k) <= (CHUNK * m) as real / r {
      EveryWaitIsBounded(bucket, r, log, m, k);
    }
  }

  // ---- all writes together -----------------------------------------------------------

  /** The most that any write by time `t`, after the first `skip` of them, had put past `length`. */
  function MovedBy(stamps: seq<Stamp>, skip: nat, length: nat, t: real): (most: nat)
    ensures forall k :: skip <= k < |stamps| && stamps[k].at <= t ==> stamps[k].length - length <= most
  {
    if |stamps| <= skip then 0
    else
      var (most, last) := (MovedBy(stamps[..|stamps| - 1], skip, length, t), stamps[|stamps| - 1]);
      if last.at <= t && last.length - length > most then last.length - length else most
  }

  /** What the loops have written by time `t`, taken together. */
  function AllMoved(starts: seq<View>, views: seq<View>, t: real): nat
    requires |starts| == |views|
  {
    if starts == [] then 0
    else
      var m := |starts| - 1;
      AllMoved(starts[..m], views[..m], t) + MovedBy(views[m].stamps, |starts[m].stamps|, |starts[m].data|, t)
  }

  /** What the first `m` loops have been granted that is due by `t`. */
  function TeamReleased(b: Bucket, rate: real, log: seq<Grant>, m: nat, t: real): nat
    requires rate > 0.0
  {
    if m == 0 then 0 else TeamReleased(b, rate, log, m - 1, t) + OwnReleased(b, rate, m - 1, 0, log, t)
  }

  lemma {:induction false} ReleasedLater(b: Bucket, rate: real, owner: nat, log: seq<Grant>, t: real, t': real)
    requires rate > 0.0 && t <= t'
    ensures OwnReleased(b, rate, owner, 0, log, t) <= OwnReleased(b, rate, owner, 0, log, t')
    decreases |log|
  {
    hide Due;
    if log != [] {
      ReleasedLater(b, rate, owner, log[..|log| - 1], t, t');
    }
  }

  lemma {:induction false} MovedIsReleased(b: Bucket, rate: real, owner: nat, log: seq<Grant>, length: nat,
                                           before: seq<Stamp>, after: seq<Stamp>, t: real)
    requires rate > 0.0 && InTime(b, rate, owner, 0, log, length, before, after)
    ensures MovedBy(after, |before|, length, t) <= OwnReleased(b, rate, owner, 0, log, t)
    decreases |after|
  {
    hide OwnReleased;
    if |after| > |before| {
      var (init, last) := (after[..|after| - 1], after[|after| - 1]);
      MovedIsReleased(b, rate, owner, log, length, before, init, t);
      if last.at <= t {
        ReleasedLater(b, rate, owner, log, last.at, t);
      }
    }
  }

  /** One more grant adds to what its owner's loop has been released, and to no other's. */
  lemma {:induction false} TeamStep(b: Bucket, rate: real, log: seq<Grant>, m: nat, t: real)
    requires rate > 0.0 && log != []
    ensures var last := log[|log| - 1];
      TeamReleased(b, rate, log, m, t) == TeamReleased(b, rate, log[..|log| - 1], m, t)
      + if last.owner < m && Due(b, rate, log) <= t then last.bytes else 0
    decreases m
  {
    hide Due;
    if m > 0 {
      TeamStep(b, rate, log, m - 1, t);
    }
  }

  lemma {:induction false} NothingReleased(b: Bucket, rate: real, m: nat, t: real)
    requires rate > 0.0
    ensures TeamReleased(b, rate, [], m, t) == 0
  {
    if m > 0 {
      NothingReleased(b, rate, m - 1, t);
    }
  }

  lemma {:induction false} TeamWithinReleased(b: Bucket, rate: real, log: seq<Grant>, m: nat, t: real)
    requires rate > 0.0
    ensures TeamReleased(b, rate, log, m, t) <= Released(b, rate, log, t)
    decreases |log|
  {
    hide Due, TeamReleased;
    if log == [] {
      NothingReleased(b, rate, m, t);
    } else {
      TeamStep(b, rate, log, m, t);
      TeamWithinReleased(b, rate, log[..|log| - 1], m, t);
    }
  }

  /** Loop `j` started at `starts[j]` and has come to `views[j]`, every write of it in time. */
  ghost predicate AllInTime(b: Bucket, rate: real, log: seq<Grant>, starts: seq<View>, views: seq<View>)
    requires rate > 0.0
  {
    && |starts| == |views|
    && forall j :: 0 <= j < |starts| ==>
      InTime(b, rate, j, 0, log, |starts[j].data|, starts[j].stamps, views[j].stamps)
  }

  lemma {:induction false} AllMovedIsReleased(b: Bucket, rate: real, log: seq<Grant>, starts: seq<View>,
                                              views: seq<View>, t: real)
    requires rate > 0.0 && AllInTime(b, rate, log, starts, views)
    ensures AllMoved(starts, views, t) <= TeamReleased(b, rate, log, |starts|, t)
    decreases |starts|
  {
    hide OwnReleased, InTime, MovedBy;
    if starts != [] {
      var m := |starts| - 1;
      AllMovedIsReleased(b, rate, log, starts[..m], views[..m], t);
      MovedIsReleased(b, rate, m, log, |starts[m].data|, starts[m].stamps, views[m].stamps, t);
    }
  }

  /** At no time have all the loops together written more than the rate allows: the cap is on their sum. */
  lemma AllWritesAreWithinRate(b: Bucket, rate: real, log: seq<Grant>, starts: seq<View>, views: seq<View>, t: real)
    requires rate > 0.0 && InLockOrder(b, log) && b.allowance >= 0.0 && t >= b.last
    requires AllInTime(b, rate, log, starts, views)
    ensures AllMoved(starts, views, t) as real <= b.allowance + Earned(t - b.last, rate)
  {
    hide Earned, InLockOrder, AllInTime, AllMoved, TeamReleased, Released;
    AllMovedIsReleased(b, rate, log, starts, views, t);
    TeamWithinReleased(b, rate, log, |starts|, t);
    ReleaseBound(b, rate, log, t);
  }

  /** All writes of the loops so far, at any time, were within the rate. */
  ghost predicate WithinCap(b: Bucket, rate: real, starts: seq<View>, views: seq<View>)
    requires |starts| == |views|
  {
    forall t: real :: t >= b.last ==> AllMoved(starts, views, t) as real <= b.allowance + Earned(t - b.last, rate)
  }

  lemma SoundIsInTime(l: Loop, v: View, log: seq<Grant>)
    requires Sound(l, v, log) && l.job.rate > 0 && l.job.log == []
    ensures InTime(l.job.bucket, l.job.rate as real, l.job.owner, 0, log, |l.job.start.data|, l.job.start.stamps,
                   v.stamps)
  {
    hide InTime, Metered, Rested, Copied, CopyOutcome, UpToDate, Rising;
  }

  lemma SoundIsWithinCap(loops: seq<Loop>, starts: seq<View>, views: seq<View>, log: seq<Grant>, bucket: Bucket,
                         rate: nat)
    requires AllSound(loops, views, log) && Together(loops, bucket, rate)
    requires |starts| == |loops| && forall j :: 0 <= j < |loops| ==> loops[j].job.start == starts[j]
    requires rate > 0 && InLockOrder(bucket, log) && bucket.allowance >= 0.0
    ensures WithinCap(bucket, rate as real, starts, views)
  {
    hide Sound, InTime, InLockOrder, AllMoved, Earned;
    var r := rate as real;
    forall j | 0 <= j < |loops|
      ensures InTime(bucket, r, j, 0, log, |starts[j].data|, starts[j].stamps, views[j].stamps)
    {
      SoundIsInTime(loops[j], views[j], log);
    }
    forall t: real | t >= bucket.last
      ensures AllMoved(starts, views, t) as real <= bucket.allowance + Earned(t - bucket.last, r)
    {
      AllWritesAreWithinRate(bucket, r, log, starts, views, t);
    }
  }

  lemma TogetherAtFirst(loops: seq<Loop>, bucket: Bucket, rate: nat)
    requires forall j :: 0 <= j < |loops| ==>
      loops[j].job.owner == j && loops[j].job.log == [] && loops[j].job.bucket == bucket && loops[j].job.rate == rate
    ensures Together(loops, bucket, rate)
  {
  }

  lemma OutcomeOf(loops: seq<Loop>, views: seq<View>,
                  log: seq<Grant>, j: nat)
    requires AllSound(loops, views, log) && j < |loops| && loops[j].result.Some?
    ensures Finished(loops[j].job, views[j], log, loops[j].result.value)
  {
    hide Sound, Finished;
    SoundFinished(loops[j], views[j], log);
  }

  lemma LoopReady(loops: seq<Loop>, views: seq<View>,
                  log: seq<Grant>, i: nat, bucket: Bucket, rate: nat)
    requires AllSound(loops, views, log) && Together(loops, bucket, rate)
    requires i < |loops| && loops[i].result.None?
    ensures var l := loops[i];
      && InFlight(l.job, l.sent, views[i], log, l.awake)
      && l.job.owner == i && l.job.bucket == bucket && l.job.rate == rate
  {
    hide Sound, InFlight;
    SoundInFlight(loops[i], views[i], log);
  }

  /** Loop `i` takes its turn; the others are left as they were. */
  method OneTurn(srcs: seq<ByteSource>, dsts: seq<ByteSink>, reports: seq<Progress>, limiter: RateLimiter,
                 len: nat, base: nat, i: nat, sent: nat, awake: real, ghost loops: seq<Loop>)
    returns (s: nat, a: real, r: Option<Result<nat, IoError>>)
    requires |srcs| == |dsts| == |reports| == |loops| && i < |loops|
    requires AllDifferent(srcs) && AllDifferent(dsts) && AllDifferent(reports)
    requires loops[i].sent == sent <= len == loops[i].job.len && loops[i].awake == awake
    requires loops[i].result.None? && loops[i].job.base == base
    requires forall j :: 0 <= j < |dsts| ==> dsts[j].Valid()
    requires limiter.Valid() && AllSound(loops, Views(srcs, dsts, reports), limiter.log)
    requires Together(loops, limiter.start, limiter.rate) && OwnersBelow(limiter.log, |loops|)
    modifies srcs[i], dsts[i], reports[i], limiter
    ensures s <= len && forall j :: 0 <= j < |dsts| ==> dsts[j].Valid()
    ensures limiter.Valid() && limiter.rate == old(limiter.rate) && limiter.start == old(limiter.start)
    ensures var loops' := loops[i := Loop(loops[i].job, s, a, r)];
      && AllSound(loops', Views(srcs, dsts, reports), limiter.log)
      && Together(loops', limiter.start, limiter.rate) && OwnersBelow(limiter.log, |loops|)
  {
    hide Sound, InFlight, Finished, After, InLockOrder, OwnersBelow, AllSound, Together, OnlyGranted;
    ghost var (views, log) := (Views(srcs, dsts, reports), limiter.log);
    LoopReady(loops, views, log, i, limiter.start, limiter.rate);
    s, a, r := TakeTurn(srcs[i], dsts[i], limiter, reports[i], len, base, sent, awake, loops[i].job);
    ghost var l := Loop(loops[i].job, s, a, r);
    MakeSound(l, ViewOf(srcs[i], dsts[i], reports[i]), limiter.log);
    TurnKeepsSound(loops, views, log, i, l, ViewOf(srcs[i], dsts[i], reports[i]),
                   limiter.log, limiter.start, limiter.rate);
    assert Views(srcs, dsts, reports) == views[i := ViewOf(srcs[i], dsts[i], reports[i])];
  }

  /** Loops take turns in the order of `schedule`, from the beginning. */
  method TakeTurns(srcs: seq<ByteSource>, dsts: seq<ByteSink>, reports: seq<Progress>, limiter: RateLimiter,
                   lens: seq<nat>, bases: seq<nat>, schedule: seq<nat>, ghost start: seq<Loop>)
    returns (results: seq<Option<Result<nat, IoError>>>, ghost loops: seq<Loop>)
    requires |srcs| == |dsts| == |reports| == |lens| == |bases| == |start|
    requires AllDifferent(srcs) && AllDifferent(dsts) && AllDifferent(reports)
    requires forall j :: 0 <= j < |start| ==>
      start[j] == Loop(start[j].job, 0, 0.0, None) && start[j].job.len == lens[j] && start[j].job.base == bases[j]
    requires forall j :: 0 <= j < |dsts| ==> dsts[j].Valid()
    requires limiter.Valid() && AllSound(start, Views(srcs, dsts, reports), limiter.log)
    requires Together(start, limiter.start, limiter.rate) && OwnersBelow(limiter.log, |start|)
    modifies srcs, dsts, reports, limiter
    ensures |results| == |loops| == |start|
    ensures forall j :: 0 <= j < |start| ==> loops[j].job == start[j].job && loops[j].result == results[j]
    ensures limiter.Valid() && limiter.rate == old(limiter.rate) && limiter.start == old(limiter.start)
    ensures AllSound(loops, Views(srcs, dsts, reports), limiter.log)
    ensures Together(loops, limiter.start, limiter.rate) && OwnersBelow(limiter.log, |loops|)
  {
    hide Sound, After, InLockOrder, OwnersBelow, AllSound, Together, Views, AllDifferent;
    var m := |srcs|;
    loops := start;
    var sent: seq<nat> := seq(m, _ => 0);
    var awake: seq<real> := seq(m, _ => 0.0);
    results := seq(m, _ => None);
    var turn := 0;
    while turn < |schedule|
      invariant 0 <= turn <= |schedule|
      invariant |sent| == |awake| == |results| == |loops| == m
      invariant forall j :: 0 <= j < m ==>
        loops[j] == Loop(start[j].job, sent[j], awake[j], results[j]) && sent[j] <= lens[j]
      invariant forall j :: 0 <= j < m ==> dsts[j].Valid()
      invariant limiter.Valid() && limiter.rate == old(limiter.rate) && limiter.start == old(limiter.start)
      invariant AllSound(loops, Views(srcs, dsts, reports), limiter.log)
      invariant Together(loops, limiter.start, limiter.rate) && OwnersBelow(limiter.log, m)
    {
      var i := schedule[turn];
      turn := turn + 1;
      if i < m && results[i].None? {
        var s, a, r := OneTurn(srcs, dsts, reports, limiter, lens[i], bases[i], i, sent[i], awake[i], loops);
        loops := loops[i := Loop(loops[i].job, s, a, r)];
        sent, awake, results := sent[i := s], awake[i := a], results[i := r];
      }
    }
  }

  /**
   Any number of copies, each with its own source, destination and reports, take
   turns on one limiter in the order of `schedule`. Each ends with all that a copy
   of its own promises, bytes, reports and metering, and no wait is longer than one
   chunk for each of them.
   */
  method CopyTogether(srcs: seq<ByteSource>, dsts: seq<ByteSink>, reports: seq<Progress>, limiter: RateLimiter,
                      lens: seq<nat>, bases: seq<nat>, schedule: seq<nat>)
    returns (results: seq<Option<Result<nat, IoError>>>)
    requires |srcs| == |dsts| == |reports| == |lens| == |bases|
    requires AllDifferent(srcs) && AllDifferent(dsts) && AllDifferent(reports)
    requires limiter.Valid() && limiter.log == [] && limiter.start.allowance >= 0.0
    requires forall j :: 0 <= j < |dsts| ==> dsts[j].Valid()
    modifies srcs, dsts, reports, limiter
    ensures |results| == |srcs|
    ensures forall j :: 0 <= j < |srcs| && results[j].Some? ==>
      Finished(CopyJob(old(ViewOf(srcs[j], dsts[j], reports[j])), [], lens[j], bases[j], j,
                       limiter.start, limiter.rate),
               ViewOf(srcs[j], dsts[j], reports[j]), limiter.log, results[j].value)
    ensures limiter.Valid() && limiter.rate == old(limiter.rate) && limiter.start == old(limiter.start)
    ensures limiter.rate > 0 ==>
      && SharedWell(limiter.start, limiter.rate as real, limiter.log, |srcs|)
      && WithinCap(limiter.start, limiter.rate as real, old(Views(srcs, dsts, reports)), Views(srcs, dsts, reports))
  {
    hide WithinCap, Sound, After, InLockOrder, Finished, OwnersBelow, SharedWell, AllSound, Together;
    ghost var start := Loops(srcs, dsts, reports, limiter, lens, bases, |srcs|);
    ghost var starts := Views(srcs, dsts, reports);
    NewLoopsAreSound(start, starts);
    TogetherAtFirst(start, limiter.start, limiter.rate);
    ghost var loops;
    results, loops := TakeTurns(srcs, dsts, reports, limiter, lens, bases, schedule, start);
    forall j | 0 <= j < |srcs| && results[j].Some?
      ensures Finished(start[j].job, ViewOf(srcs[j], dsts[j], reports[j]), limiter.log, results[j].value)
    {
      OutcomeOf(loops, Views(srcs, dsts, reports), limiter.log, j);
    }
    if limiter.rate > 0 {
      SoundIsShared(loops, Views(srcs, dsts, reports), limiter.log, limiter.start, limiter.rate);
      SoundIsWithinCap(loops, starts, Views(srcs, dsts, reports), limiter.log, limiter.start, limiter.rate);
    }
  }
}
