/**
 The token bucket shared by every transfer in one direction. Time and bytes are
 exact reals; the mutex makes the acquires of all transfers one sequence, in
 which times never decrease.
 */
module RateLimiting {
  import opened Bytes

  /** One `acquire`: who waits, for how many bytes, and when it took the lock. */
  datatype Grant = Grant(owner: nat, bytes: nat, at: real)

  datatype Bucket = Bucket(allowance: real, last: real)

  function Min(a: real, b: real): real {
    if a <= b then a else b
  }

  /** The bytes a bucket earns in `dt` seconds. */
  function Earned(dt: real, rate: real): real {
    dt * rate
  }

  /** Refill for the elapsed time, capped at one second's worth, then debit. */
  function Debit(b: Bucket, rate: real, a: Grant): Bucket {
    Bucket(Min(b.allowance + Earned(a.at - b.last, rate), rate) - a.bytes as real, a.at)
  }

  function Delay(b: Bucket, rate: real): real
    requires rate > 0.0
  {
    if b.allowance < 0.0 then -b.allowance / rate else 0.0
  }

  /** The bucket after a history of acquires in lock order. */
  function After(b: Bucket, rate: real, h: seq<Grant>): Bucket {
    if h == [] then b else Debit(After(b, rate, h[..|h| - 1]), rate, h[|h| - 1])
  }

  /** When the last acquire of `h` may resume. */
  function Due(b: Bucket, rate: real, h: seq<Grant>): real
    requires rate > 0.0 && h != []
  {
    h[|h| - 1].at + Delay(After(b, rate, h), rate)
  }

  /** When the acquire at `i` may resume. Later acquires make no difference. */
  function DueAt(b: Bucket, rate: real, h: seq<Grant>, i: nat): real
    requires rate > 0.0 && i < |h|
  {
    Due(b, rate, h[..i + 1])
  }

  predicate InLockOrder(b: Bucket, h: seq<Grant>) {
    && (forall i :: 0 <= i < |h| ==> b.last <= h[i].at)
    && (forall i, j :: 0 <= i <= j < |h| ==> h[i].at <= h[j].at)
  }

  function Sum(h: seq<Grant>): nat {
    if h == [] then 0 else Sum(h[..|h| - 1]) + h[|h| - 1].bytes
  }

  /** Bytes of the acquires not yet due for release at time `t`. */
  function Unpaid(b: Bucket, rate: real, h: seq<Grant>, t: real): nat
    requires rate > 0.0
  {
    if h == [] then 0
    else Unpaid(b, rate, h[..|h| - 1], t) + if Due(b, rate, h) > t then h[|h| - 1].bytes else 0
  }

  /** Bytes of the acquires released by time `t`. */
  function Released(b: Bucket, rate: real, h: seq<Grant>, t: real): nat
    requires rate > 0.0
  {
    if h == [] then 0
    else Released(b, rate, h[..|h| - 1], t) + if Due(b, rate, h) <= t then h[|h| - 1].bytes else 0
  }

  // ---- arithmetic ------------------------------------------------------------

  lemma EarnedSum(a: real, b: real, rate: real)
    ensures Earned(a + b, rate) == Earned(a, rate) + Earned(b, rate)
  {
  }

  lemma EarnedOrder(a: real, b: real, rate: real)
    requires rate > 0.0
    ensures a <= b <==> Earned(a, rate) <= Earned(b, rate)
  {
  }

  lemma EarnedNothing(rate: real)
    ensures Earned(0.0, rate) == 0.0
  {
  }

  /** A delay is exactly the time it takes to earn the debt. */
  lemma DelayEarnsDebt(b: Bucket, rate: real)
    requires rate > 0.0
    ensures Delay(b, rate) >= 0.0
    ensures Earned(Delay(b, rate), rate) == if b.allowance < 0.0 then -b.allowance else 0.0
  {
  }

  lemma {:induction false} LastIsTime(b: Bucket, rate: real, h: seq<Grant>)
    ensures After(b, rate, h).last == if h == [] then b.last else h[|h| - 1].at
  {
  }

  lemma DueEarns(b: Bucket, rate: real, h: seq<Grant>)
    requires rate > 0.0 && h != []
    ensures var e := After(b, rate, h);
      && Due(b, rate, h) >= e.last
      && Earned(Due(b, rate, h) - b.last, rate)
         == Earned(e.last - b.last, rate) + if e.allowance < 0.0 then -e.allowance else 0.0
  {
    hide Earned, Delay;
    var e := After(b, rate, h);
    LastIsTime(b, rate, h);
    DelayEarnsDebt(e, rate);
    EarnedSum(e.last - b.last, Delay(e, rate), rate);
    assert (e.last - b.last) + Delay(e, rate) == Due(b, rate, h) - b.last;
  }

  // ---- throughput ------------------------------------------------------------

  /** The allowance is what has been earned less what has been debited, or less when the cap cut it. */
  lemma {:induction false} Conservation(b: Bucket, rate: real, h: seq<Grant>)
    requires rate > 0.0 && InLockOrder(b, h)
    ensures After(b, rate, h).allowance + Sum(h) as real
            <= b.allowance + Earned(After(b, rate, h).last - b.last, rate)
  {
    hide Earned;
    EarnedNothing(rate);
    if h != [] {
      var init := h[..|h| - 1];
      var last := h[|h| - 1];
      var p := After(b, rate, init);
      Conservation(b, rate, init);
      LastIsTime(b, rate, init);
      EarnedSum(p.last - b.last, last.at - p.last, rate);
      assert (p.last - b.last) + (last.at - p.last) == last.at - b.last;
    }
  }

  /** Up to and including any acquire, no more bytes are admitted than the rate allows by its due time. */
  lemma Throughput(b: Bucket, rate: real, h: seq<Grant>)
    requires rate > 0.0 && InLockOrder(b, h) && h != []
    ensures Sum(h) as real <= b.allowance + Earned(Due(b, rate, h) - b.last, rate)
  {
    hide Earned, Due, After;
    Conservation(b, rate, h);
    DueEarns(b, rate, h);
  }

  lemma {:induction false} AfterSplit(b: Bucket, rate: real, h: seq<Grant>, k: seq<Grant>)
    ensures After(b, rate, h + k) == After(After(b, rate, h), rate, k)
  {
    if k == [] {
      assert h + k == h;
    } else {
      AfterSplit(b, rate, h, k[..|k| - 1]);
      assert (h + k)[..|h + k| - 1] == h + k[..|k| - 1];
    }
  }

  lemma AfterOne(b: Bucket, rate: real, h: seq<Grant>, a: Grant)
    ensures After(b, rate, h + [a]) == Debit(After(b, rate, h), rate, a)
  {
    assert (h + [a])[..|h|] == h;
  }

  lemma {:induction false} SumCons(a: Grant, k: seq<Grant>)
    ensures Sum([a] + k) == a.bytes + Sum(k)
  {
    if k == [] {
      assert [a] + k == [a];
      assert [a][..0] == [];
    } else {
      SumCons(a, k[..|k| - 1]);
      assert ([a] + k)[..|k|] == [a] + k[..|k| - 1];
    }
  }

  lemma LockOrderSuffix(b: Bucket, rate: real, h: seq<Grant>, a: Grant, k: seq<Grant>)
    requires InLockOrder(b, h + [a] + k)
    ensures InLockOrder(After(b, rate, h + [a]), k)
  {
    var all := h + [a] + k;
    AfterOne(b, rate, h, a);
    assert all[|h|] == a;
    assert forall i :: 0 <= i < |k| ==> k[i] == all[|h| + 1 + i];
  }

  /**
   Over any window, from the acquire `a` that follows `h` to the last of `k`,
   the burst beyond the rate is at most one second's worth.
   */
  lemma WindowThroughput(b: Bucket, rate: real, h: seq<Grant>, a: Grant, k: seq<Grant>)
    requires rate > 0.0 && InLockOrder(b, h + [a] + k)
    ensures Sum([a] + k) as real <= rate + Earned(Due(b, rate, h + [a] + k) - a.at, rate)
  {
    hide Earned, InLockOrder, Sum, Delay;
    var m := After(b, rate, h + [a]);
    AfterOne(b, rate, h, a);
    AfterSplit(b, rate, h + [a], k);
    LockOrderSuffix(b, rate, h, a, k);
    SumCons(a, k);
    if k == [] {
      assert h + [a] + k == h + [a];
      assert Sum([]) == 0 by {
        SumNothing();
      }
      DelayEarnsDebt(m, rate);
    } else {
      Throughput(m, rate, k);
      assert Due(m, rate, k) == Due(b, rate, h + [a] + k);
    }
  }

  lemma SumNothing()
    ensures Sum([]) == 0
  {
  }

  /** In lock order, due times never decrease. */
  lemma DueMonotone(b: Bucket, rate: real, h: seq<Grant>, a: Grant)
    requires rate > 0.0 && h != [] && InLockOrder(b, h + [a])
    ensures Due(b, rate, h) <= Due(b, rate, h + [a])
  {
    hide Earned, Delay;
    var p := After(b, rate, h);
    var q := After(b, rate, h + [a]);
    AfterOne(b, rate, h, a);
    LastIsTime(b, rate, h);
    assert (h + [a])[|h| - 1] == h[|h| - 1] && (h + [a])[|h|] == a;
    assert p.last <= a.at;
    DueEarns(b, rate, h);
    DueEarns(b, rate, h + [a]);
    EarnedSum(p.last - b.last, a.at - p.last, rate);
    assert (p.last - b.last) + (a.at - p.last) == a.at - b.last;
    EarnedNothing(rate);
    EarnedOrder(0.0, a.at - p.last, rate);
    EarnedOrder(Due(b, rate, h) - b.last, Due(b, rate, h + [a]) - b.last, rate);
  }

  /** Over a whole history, no acquire is due before an earlier one. */
  lemma {:induction false} DueInOrder(b: Bucket, rate: real, h: seq<Grant>, i: nat, j: nat)
    requires rate > 0.0 && InLockOrder(b, h) && i <= j < |h|
    ensures DueAt(b, rate, h, i) <= DueAt(b, rate, h, j)
    decreases j
  {
    hide Due;
    if i < j {
      DueInOrder(b, rate, h, i, j - 1);
      assert h[..j] + [h[j]] == h[..j + 1];
      DueMonotone(b, rate, h[..j], h[j]);
    }
  }

  lemma {:induction false} ReleasedAndUnpaid(b: Bucket, rate: real, h: seq<Grant>, t: real)
    requires rate > 0.0
    ensures Released(b, rate, h, t) + Unpaid(b, rate, h, t) == Sum(h)
  {
    if h != [] {
      ReleasedAndUnpaid(b, rate, h[..|h| - 1], t);
    }
  }

  /** At no time have more bytes been released than the rate allows since the bucket was made. */
  lemma {:induction false} ReleaseBound(b: Bucket, rate: real, h: seq<Grant>, t: real)
    requires rate > 0.0 && InLockOrder(b, h)
    requires b.allowance >= 0.0 && t >= b.last
    ensures Released(b, rate, h, t) as real <= b.allowance + Earned(t - b.last, rate)
  {
    hide Earned, Due;
    if h == [] {
      EarnedNothing(rate);
      EarnedOrder(0.0, t - b.last, rate);
    } else if Due(b, rate, h) <= t {
      Throughput(b, rate, h);
      ReleasedAndUnpaid(b, rate, h, t);
      EarnedOrder(Due(b, rate, h) - b.last, t - b.last, rate);
    } else {
      ReleaseBound(b, rate, h[..|h| - 1], t);
    }
  }

  // ---- waiting ---------------------------------------------------------------

  /** At any time the debt still to be paid off is covered by acquires that are still waiting. */
  lemma {:induction false} DebtIsUnpaid(b: Bucket, rate: real, h: seq<Grant>, t: real)
    requires rate > 0.0 && InLockOrder(b, h) && b.allowance >= 0.0
    requires t >= After(b, rate, h).last
    ensures -After(b, rate, h).allowance - Earned(t - After(b, rate, h).last, rate) <= Unpaid(b, rate, h, t) as real
  {
    hide Earned, Delay;
    var e := After(b, rate, h);
    EarnedNothing(rate);
    EarnedOrder(0.0, t - e.last, rate);
    if h != [] {
      var init := h[..|h| - 1];
      var p := After(b, rate, init);
      LastIsTime(b, rate, init);
      LastIsTime(b, rate, h);
      if Due(b, rate, h) <= t {
        DelayEarnsDebt(e, rate);
        EarnedOrder(Delay(e, rate), t - e.last, rate);
      } else {
        DebtIsUnpaid(b, rate, init, t);
        EarnedSum(t - e.last, e.last - p.last, rate);
        assert (t - e.last) + (e.last - p.last) == t - p.last;
      }
    }
  }

  /** The owners of the acquires still waiting at `t`. */
  function Waiting(b: Bucket, rate: real, h: seq<Grant>, t: real): set<nat>
    requires rate > 0.0
  {
    if h == [] then {}
    else Waiting(b, rate, h[..|h| - 1], t) + if Due(b, rate, h) > t then {h[|h| - 1].owner} else {}
  }

  /** A transfer acquires again only after its previous acquire has resumed, which is no earlier than it was due. */
  predicate OneOutstanding(b: Bucket, rate: real, h: seq<Grant>)
    requires rate > 0.0
  {
    forall i, j :: 0 <= i < j < |h| && h[i].owner == h[j].owner ==> DueAt(b, rate, h, i) <= h[j].at
  }

  lemma {:induction false} WaitingHasAcquire(b: Bucket, rate: real, h: seq<Grant>, t: real, o: nat) returns (i: nat)
    requires rate > 0.0 && o in Waiting(b, rate, h, t)
    ensures i < |h| && h[i].owner == o && Due(b, rate, h[..i + 1]) > t
  {
    var init := h[..|h| - 1];
    if o in Waiting(b, rate, init, t) {
      i := WaitingHasAcquire(b, rate, init, t, o);
      assert init[..i + 1] == h[..i + 1];
    } else {
      i := |h| - 1;
      assert h[..i + 1] == h;
    }
  }

  lemma OneOutstandingPrefix(b: Bucket, rate: real, h: seq<Grant>)
    requires rate > 0.0 && h != [] && OneOutstanding(b, rate, h)
    ensures OneOutstanding(b, rate, h[..|h| - 1])
  {
    var init := h[..|h| - 1];
    forall i, j | 0 <= i < j < |init| && init[i].owner == init[j].owner
      ensures Due(b, rate, init[..i + 1]) <= init[j].at
    {
      assert init[..i + 1] == h[..i + 1];
      assert h[i].owner == h[j].owner;
    }
  }

  lemma OwnerNotWaiting(b: Bucket, rate: real, h: seq<Grant>, t: real)
    requires rate > 0.0 && h != [] && OneOutstanding(b, rate, h)
    requires h[|h| - 1].at <= t
    ensures h[|h| - 1].owner !in Waiting(b, rate, h[..|h| - 1], t)
  {
    hide Due;
    var (init, last) := (h[..|h| - 1], h[|h| - 1]);
    forall i | 0 <= i < |init| && init[i].owner == last.owner
      ensures Due(b, rate, init[..i + 1]) <= t
    {
      assert init[..i + 1] == h[..i + 1];
      assert h[i].owner == h[|h| - 1].owner;
      assert DueAt(b, rate, h, i) <= last.at;
    }
    if last.owner in Waiting(b, rate, init, t) {
      var _ := WaitingHasAcquire(b, rate, init, t, last.owner);
    }
  }

  lemma OneMore(chunk: nat, n: nat)
    ensures chunk * (n + 1) == chunk * n + chunk
  {
  }

  lemma {:induction false} WaitingOwners(b: Bucket, rate: real, h: seq<Grant>, t: real, chunk: nat)
    requires rate > 0.0 && OneOutstanding(b, rate, h)
    requires forall i :: 0 <= i < |h| ==> h[i].bytes <= chunk && h[i].at <= t
    ensures Unpaid(b, rate, h, t) <= chunk * |Waiting(b, rate, h, t)|
  {
    hide Due, OneOutstanding;
    if h != [] {
      var w := Waiting(b, rate, h[..|h| - 1], t);
      OneOutstandingPrefix(b, rate, h);
      WaitingOwners(b, rate, h[..|h| - 1], t, chunk);
      if Due(b, rate, h) > t {
        OwnerNotWaiting(b, rate, h, t);
        assert |w + {h[|h| - 1].owner}| == |w| + 1;
        OneMore(chunk, |w|);
      }
    }
  }

  lemma WaitingInTeam(b: Bucket, rate: real, h: seq<Grant>, t: real, team: set<nat>)
    requires rate > 0.0
    requires forall i :: 0 <= i < |h| ==> h[i].owner in team
    ensures |Waiting(b, rate, h, t)| <= |team|
  {
    var w := Waiting(b, rate, h, t);
    forall o | o in w
      ensures o in team
    {
      var i := WaitingHasAcquire(b, rate, h, t, o);
    }
    assert team == w + (team - w);
  }

  lemma ProductOrder(a: nat, b: nat, c: nat)
    requires a <= b
    ensures c * a <= c * b
  {
  }

  lemma Quotient(most: real, rate: real)
    requires rate > 0.0
    ensures Earned(most / rate, rate) == most
  {
  }

  /**
   With the transfers of `team` sharing the bucket, each with at most one
   acquire of at most `chunk` bytes outstanding, no computed delay exceeds the
   time the rate takes to earn one chunk per transfer.
   */
  lemma WaitingBound(b: Bucket, rate: real, h: seq<Grant>, team: set<nat>, chunk: nat)
    requires rate > 0.0 && InLockOrder(b, h) && b.allowance >= 0.0 && h != []
    requires OneOutstanding(b, rate, h)
    requires forall i :: 0 <= i < |h| ==> h[i].owner in team && h[i].bytes <= chunk
    ensures Delay(After(b, rate, h), rate) <= (chunk * |team|) as real / rate
  {
    hide Earned, Delay, OneOutstanding, Unpaid, Waiting;
    var e := After(b, rate, h);
    LastIsTime(b, rate, h);
    DebtIsUnpaid(b, rate, h, e.last);
    EarnedNothing(rate);
    WaitingOwners(b, rate, h, e.last, chunk);
    WaitingInTeam(b, rate, h, e.last, team);
    ProductOrder(|Waiting(b, rate, h, e.last)|, |team|, chunk);
    DelayEarnsDebt(e, rate);
    Quotient((chunk * |team|) as real, rate);
    EarnedOrder(Delay(e, rate), (chunk * |team|) as real / rate, rate);
  }

  // ---- exactly when a wait is short enough -----------------------------------------

  /** No more than `x` beyond what the rate allows: since the bucket was made, and over every window up to now. */
  ghost predicate WithinRate(b: Bucket, rate: real, h: seq<Grant>, x: real)
    requires h != []
  {
    && Sum(h) as real <= b.allowance + Earned(h[|h| - 1].at - b.last, rate) + x
    && forall j :: 0 <= j < |h| ==> WindowWithin(rate, h, j, x)
  }

  /** From the acquire at `j` on, the bytes beyond one second's worth and what was earned are at most `x`. */
  predicate WindowWithin(rate: real, h: seq<Grant>, j: nat, x: real)
    requires j < |h|
  {
    Sum(h[j..]) as real <= rate + Earned(h[|h| - 1].at - h[j].at, rate) + x
  }

  lemma SumSnoc(h: seq<Grant>, j: nat)
    requires j < |h|
    ensures Sum(h[j..]) == Sum(h[j..|h| - 1]) + h[|h| - 1].bytes
  {
    assert h[j..][..|h[j..]| - 1] == h[j..|h| - 1];
  }

  lemma WindowStep(rate: real, h: seq<Grant>, j: nat, x: real)
    requires j < |h| - 1
    ensures var (init, last) := (h[..|h| - 1], h[|h| - 1]);
      WindowWithin(rate, h, j, x) <==>
      WindowWithin(rate, init, j, x + Earned(last.at - init[|init| - 1].at, rate) - last.bytes as real)
  {
    hide Earned;
    var (init, last) := (h[..|h| - 1], h[|h| - 1]);
    SumSnoc(h, j);
    assert init[j..] == h[j..|h| - 1];
    EarnedSum(init[|init| - 1].at - init[j].at, last.at - init[|init| - 1].at, rate);
    assert (init[|init| - 1].at - init[j].at) + (last.at - init[|init| - 1].at) == last.at - h[j].at;
  }

  lemma LastWindow(rate: real, h: seq<Grant>, x: real)
    requires h != []
    ensures WindowWithin(rate, h, |h| - 1, x) <==> h[|h| - 1].bytes as real <= rate + x
  {
    hide Earned;
    EarnedNothing(rate);
    SumSnoc(h, |h| - 1);
    assert h[|h| - 1..|h| - 1] == [];
  }

  /**
   The debt is at most `x` exactly when no window of the history is more than `x`
   beyond the rate. Nothing is asked of the history.
   */
  lemma {:induction false} DebtExactly(b: Bucket, rate: real, h: seq<Grant>, x: real)
    requires h != []
    ensures -After(b, rate, h).allowance <= x <==> WithinRate(b, rate, h, x)
    decreases |h|
  {
    hide Earned, WindowWithin, Sum;
    var (init, last) := (h[..|h| - 1], h[|h| - 1]);
    assert h[0..] == h;
    SumSnoc(h, 0);
    assert h[0..|h| - 1] == init;
    LastWindow(rate, h, x);
    LastIsTime(b, rate, init);
    if init == [] {
      assert Sum(init) == 0 by {
        SumNothing();
      }
    } else {
      var before := init[|init| - 1].at;
      var y := x + Earned(last.at - before, rate) - last.bytes as real;
      DebtExactly(b, rate, init, y);
      EarnedSum(before - b.last, last.at - before, rate);
      assert (before - b.last) + (last.at - before) == last.at - b.last;
      forall j | 0 <= j < |init|
        ensures WindowWithin(rate, h, j, x) <==> WindowWithin(rate, init, j, y)
      {
        WindowStep(rate, h, j, x);
      }
    }
  }

  /**
   A wait is at most `wait` exactly when the history, this acquire included, is
   nowhere more beyond the rate than `wait` earns: what a caller can tell from the
   grants so far before making the next.
   */
  lemma WaitExactly(b: Bucket, rate: real, h: seq<Grant>, wait: real)
    requires rate > 0.0 && h != [] && wait >= 0.0
    ensures Delay(After(b, rate, h), rate) <= wait <==> WithinRate(b, rate, h, Earned(wait, rate))
  {
    hide Earned, Delay, After, WithinRate;
    var e := After(b, rate, h);
    DebtExactly(b, rate, h, Earned(wait, rate));
    DelayEarnsDebt(e, rate);
    EarnedNothing(rate);
    EarnedOrder(0.0, wait, rate);
    EarnedOrder(Delay(e, rate), wait, rate);
  }

  /** The bound of one chunk for each of a team's transfers, exactly, whoever acquires and however. */
  lemma ChunksExactly(b: Bucket, rate: real, h: seq<Grant>, team: set<nat>, chunk: nat)
    requires rate > 0.0 && h != []
    ensures Delay(After(b, rate, h), rate) <= (chunk * |team|) as real / rate
            <==> WithinRate(b, rate, h, (chunk * |team|) as real)
  {
    hide Earned, Delay, After, WithinRate;
    var most := (chunk * |team|) as real;
    Quotient(most, rate);
    EarnedNothing(rate);
    EarnedOrder(0.0, most / rate, rate);
    WaitExactly(b, rate, h, most / rate);
  }

  /** Acquires one transfer makes at once, as when its waits are all cancelled. */
  function AtOnce(owner: nat, chunk: nat, now: real, n: nat): seq<Grant> {
    seq(n, i => Grant(owner, chunk, now))
  }

  /** Without sleeping, `n` acquires leave the last of them exactly `n` chunks to wait for. */
  lemma CancelledWaitsAddUp(rate: real, now: real, chunk: nat, n: nat)
    requires rate > 0.0
    ensures var h := AtOnce(0, chunk, now, n);
      && InLockOrder(Bucket(0.0, now), h)
      && Delay(After(Bucket(0.0, now), rate, h), rate) == (chunk * n) as real / rate
  {
    AllowanceAfterCancels(rate, now, chunk, n);
  }

  lemma {:induction false} AllowanceAfterCancels(rate: real, now: real, chunk: nat, n: nat)
    requires rate > 0.0
    ensures After(Bucket(0.0, now), rate, AtOnce(0, chunk, now, n)) == Bucket(-(chunk * n) as real, now)
  {
    var h := AtOnce(0, chunk, now, n);
    if n == 0 {
      assert h == [];
    } else {
      assert h[..n - 1] == AtOnce(0, chunk, now, n - 1);
      AllowanceAfterCancels(rate, now, chunk, n - 1);
      EarnedNothing(rate);
      OneMore(chunk, n - 1);
    }
  }

  lemma LockOrderExtends(b: Bucket, h: seq<Grant>, a: Grant)
    requires InLockOrder(b, h)
    requires (if h == [] then b.last else h[|h| - 1].at) <= a.at
    ensures InLockOrder(b, h + [a])
  {
  }

  // ---- the limiter -------------------------------------------------------------

  class RateLimiter {
    var rate: nat
    var allowance: real
    var last: real
    /** The bucket when the present rate was set, and the acquires since. */
    ghost var start: Bucket
    ghost var log: seq<Grant>

    ghost predicate Valid()
      reads this
    {
      && InLockOrder(start, log)
      && (rate == 0 ==> log == [])
      && Bucket(allowance, last) == After(start, rate as real, log)
    }

    constructor (now: real)
      ensures Valid() && rate == 0 && allowance == 0.0 && last == now && log == []
    {
      rate, allowance, last := 0, 0.0, now;
      start, log := Bucket(0.0, now), [];
    }

    method SetRate(bytesPerSec: nat)
      requires Valid()
      modifies this
      ensures Valid() && rate == bytesPerSec
      ensures allowance == old(allowance) && last == old(last)
      ensures log == [] && start == Bucket(allowance, last)
    {
      rate := bytesPerSec;
      start, log := Bucket(allowance, last), [];
    }

    /** Takes `n` bytes from the bucket; the caller sleeps off the delay, if any. */
    method Acquire(n: nat, now: real, ghost owner: nat) returns (sleep: Option<real>)
      requires Valid() && now >= last
      modifies this
      ensures Valid() && rate == old(rate) && start == old(start)
      ensures rate == 0 ==> sleep == None && allowance == old(allowance) && last == old(last) && log == old(log)
      ensures rate > 0 ==>
        && log == old(log) + [Grant(owner, n, now)]
        && last == now
        && now + (if sleep.Some? then sleep.value else 0.0) == Due(start, rate as real, log)
        && (sleep.Some? <==> allowance < 0.0)
    {
      hide Earned, InLockOrder, After;
      if rate == 0 {
        return None;
      }
      ghost var grant := Grant(owner, n, now);
      LastIsTime(start, rate as real, log);
      AfterOne(start, rate as real, log, grant);
      LockOrderExtends(start, log, grant);
      var elapsed := now - last;
      last := now;
      var cap := rate as real;
      allowance := Min(allowance + Earned(elapsed, rate as real), cap);
      allowance := allowance - n as real;
      log := log + [grant];
      if allowance < 0.0 {
        sleep := Some(-allowance / rate as real);
      } else {
        sleep := None;
      }
    }
  }
}
