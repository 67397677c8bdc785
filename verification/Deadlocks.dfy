/**
 Why the absence of cycles cannot be weakened: along every cycle of sends, asks
 alone and events alone can each bring tasks to a stop with work left.
 */
module Deadlocks {
  import opened Bytes
  import opened Actors

  // ---- asks along a ring ------------------------------------------------------------------

  /** A closed walk through distinct tasks below `n`. */
  predicate Ring(w: seq<nat>, n: nat) {
    && |w| >= 2 && w[0] == w[|w| - 1]
    && (forall i :: 0 <= i < |w| ==> w[i] < n)
    && (forall i, j :: 0 <= i < j < |w| - 1 ==> w[i] != w[j])
  }

  function NextIn(w: seq<nat>, p: nat): nat
    requires |w| >= 1
  {
    if |w| == 1 || w[0] == p then w[if |w| == 1 then 0 else 1] else NextIn(w[1..], p)
  }

  lemma {:induction false} NextAfter(w: seq<nat>, i: nat)
    requires i < |w| - 1
    requires forall j, k :: 0 <= j < k < |w| - 1 ==> w[j] != w[k]
    ensures NextIn(w, w[i]) == w[i + 1]
  {
    if i > 0 {
      assert forall j, k :: 0 <= j < k < |w[1..]| - 1 ==> w[1..][j] == w[j + 1] && w[1..][k] == w[k + 1];
      NextAfter(w[1..], i - 1);
    }
  }

  /** Each task of the ring, on any message, asks the next one; client `n` asks the first. */
  function RingAction(w: seq<nat>, n: nat, p: nat): Action<nat>
    requires |w| >= 2
  {
    if p == n then Ask(w[0], 0) else if p in w then Ask(NextIn(w, p), 0) else Finish(0, 0)
  }

  function RingSystem(edges: set<(nat, nat)>, w: seq<nat>, n: nat, capacity: seq<nat>): System<nat>
    requires |w| >= 2 && |capacity| == n + 1
  {
    System(
      seq(n + 1, _ => 0), seq(n + 1, p => if p == n then Some(0) else None), capacity,
      edges + {(n, w[0])}, (p, s, m) => 0, (p, l) => RingAction(w, n, p), (p, l, x) => 0)
  }

  lemma RingIsWellFormed(edges: set<(nat, nat)>, w: seq<nat>, n: nat, capacity: seq<nat>)
    requires Ring(w, n) && Walk(edges, w)
    requires |capacity| == n + 1 && forall p :: 0 <= p <= n ==> capacity[p] >= 1
    ensures WellFormed(RingSystem(edges, w, n, capacity))
  {
    var sys := RingSystem(edges, w, n, capacity);
    forall p: nat, l | p <= n ensures SendsAlong(sys, p, sys.act(p, l)) {
      if p != n && p in w {
        var i :| 0 <= i < |w| - 1 && w[i] == p;
        NextAfter(w, i);
        assert (w[i], w[i + 1]) in edges;
      }
    }
  }

  predicate WaitingOn<D>(q: Proc<D>, to: nat) {
    q.phase.Waiting? && q.phase.to == to
  }

  /** The first `i` tasks of the ring wait on their successors; the next has one message. */
  predicate Stage(w: seq<nat>, n: nat, c: Config<nat>, i: nat)
    requires Ring(w, n) && i < |w|
  {
    && |c.procs| == n + 1 && c.replies == map[]
    && (forall p :: 0 <= p <= n ==> c.procs[p].alive)
    && WaitingOn(c.procs[n], w[0]) && c.procs[n].inbox == []
    && (forall j :: 0 <= j < i ==> WaitingOn(c.procs[w[j]], w[j + 1]))
    && |c.procs[w[i]].inbox| == 1 && (i < |w| - 1 ==> c.procs[w[i]].phase.Idle?)
    && (forall p :: 0 <= p < n && p != w[i] ==> c.procs[p].inbox == [])
    && (forall p :: 0 <= p < n && p !in w[..i] && p != w[i] ==> c.procs[p].phase.Idle?)
  }

  /** As at stage `i`, but the next task has taken its message and is about to ask. */
  predicate Asking(w: seq<nat>, n: nat, c: Config<nat>, i: nat)
    requires Ring(w, n) && i < |w| - 1
  {
    && |c.procs| == n + 1 && c.replies == map[]
    && (forall p :: 0 <= p <= n ==> c.procs[p].alive)
    && WaitingOn(c.procs[n], w[0]) && c.procs[n].inbox == []
    && (forall j :: 0 <= j < i ==> WaitingOn(c.procs[w[j]], w[j + 1]))
    && c.procs[w[i]].phase.Running?
    && (forall p :: 0 <= p < n ==> c.procs[p].inbox == [])
    && (forall p :: 0 <= p < n && p !in w[..i] && p != w[i] ==> c.procs[p].phase.Idle?)
  }

  lemma RingReceives(sys: System<nat>, w: seq<nat>, n: nat, c: Config<nat>, i: nat)
    requires Ring(w, n) && |sys.capacity| == n + 1 && i < |w| - 1 && Stage(w, n, c, i)
    ensures Enabled(sys, c, w[i]) && Asking(w, n, Step(sys, c, w[i]), i)
  {
  }

  lemma RingAsks(sys: System<nat>, w: seq<nat>, n: nat, c: Config<nat>, i: nat)
    requires Ring(w, n) && |sys.capacity| == n + 1 && forall p :: 0 <= p <= n ==> sys.capacity[p] >= 1
    requires i < |w| - 1 && Asking(w, n, c, i)
    requires forall l :: sys.act(w[i], l) == Ask(w[i + 1], 0)
    ensures Enabled(sys, c, w[i]) && Stage(w, n, Step(sys, c, w[i]), i + 1)
  {
    assert !Gone(c, w[i + 1]) && Room(sys, c, w[i + 1]);
    assert w[..i + 1] == w[..i] + [w[i]];
  }

  lemma RingMoves(edges: set<(nat, nat)>, w: seq<nat>, n: nat, capacity: seq<nat>, c: Config<nat>, i: nat)
    requires Ring(w, n) && |capacity| == n + 1 && forall p :: 0 <= p <= n ==> capacity[p] >= 1
    requires i < |w| - 1 && Stage(w, n, c, i)
    ensures var sys := RingSystem(edges, w, n, capacity);
      && Enabled(sys, c, w[i]) && Enabled(sys, Step(sys, c, w[i]), w[i])
      && Stage(w, n, Step(sys, Step(sys, c, w[i]), w[i]), i + 1)
  {
    hide Enabled, Step, Stage, Asking;
    var sys := RingSystem(edges, w, n, capacity);
    NextAfter(w, i);
    RingReceives(sys, w, n, c, i);
    RingAsks(sys, w, n, Step(sys, c, w[i]), i);
  }

  ghost predicate Stuck<D>(sys: System<D>, c: Config<D>) {
    && |sys.capacity| == |c.procs|
    && (exists p: nat :: HasWork(c, p))
    && forall p: nat :: !Enabled(sys, c, p)
  }

  lemma LastStageIsStuck(edges: set<(nat, nat)>, w: seq<nat>, n: nat, capacity: seq<nat>, c: Config<nat>)
    requires Ring(w, n) && |capacity| == n + 1 && Stage(w, n, c, |w| - 1)
    ensures Stuck(RingSystem(edges, w, n, capacity), c)
  {
    assert w[|w| - 1] == w[0];
    assert HasWork(c, w[0]);
    forall p: nat ensures !Enabled(RingSystem(edges, w, n, capacity), c, p) {
      if p < n && p in w[..|w| - 1] {
        var j :| 0 <= j < |w| - 1 && w[j] == p;
        assert WaitingOn(c.procs[p], w[j + 1]);
      }
    }
  }

  lemma {:induction false} RingReaches(edges: set<(nat, nat)>, w: seq<nat>, n: nat, capacity: seq<nat>, i: nat)
    returns (hs: seq<Happening>)
    requires Ring(w, n) && |capacity| == n + 1 && forall p :: 0 <= p <= n ==> capacity[p] >= 1
    requires i < |w|
    ensures forall k :: 0 <= k < |hs| ==> hs[k].Move?
    ensures var sys := RingSystem(edges, w, n, capacity);
      Run(sys, hs).Some? && Stage(w, n, Run(sys, hs).value, i)
  {
    var sys := RingSystem(edges, w, n, capacity);
    hide Stage, Ring, Enabled, Step;
    if i == 0 {
      var none: seq<Happening> := [];
      RingBegins(edges, w, n, capacity);
      RunOneMore(sys, none, Move(n));
      hs := none + [Move(n)];
    } else {
      hs := RingReaches(edges, w, n, capacity, i - 1);
      var c := Run(sys, hs).value;
      assert w[i - 1] <= n by {
        InRing(w, n, i - 1);
      }
      RingMoves(edges, w, n, capacity, c, i - 1);
      RunOneMore(sys, hs, Move(w[i - 1]));
      hs := hs + [Move(w[i - 1])];
      RunOneMore(sys, hs, Move(w[i - 1]));
      hs := hs + [Move(w[i - 1])];
    }
  }

  lemma RingBegins(edges: set<(nat, nat)>, w: seq<nat>, n: nat, capacity: seq<nat>)
    requires Ring(w, n) && |capacity| == n + 1 && forall p :: 0 <= p <= n ==> capacity[p] >= 1
    ensures var sys := RingSystem(edges, w, n, capacity);
      Enabled(sys, Start(sys), n) && Stage(w, n, Step(sys, Start(sys), n), 0)
  {
    assert w[..0] == [];
  }

  lemma InRing(w: seq<nat>, n: nat, i: nat)
    requires Ring(w, n) && i < |w|
    ensures w[i] < n
  {
  }

  /** No edge begins or ends at `n` or beyond. */
  ghost predicate Outside(edges: set<(nat, nat)>, n: nat) {
    forall e :: e in edges ==> e.0 < n && e.1 < n
  }

  lemma {:induction false} BoundOf(edges: set<(nat, nat)>) returns (n: nat)
    ensures Outside(edges, n)
  {
    if edges == {} {
      n := 0;
    } else {
      var e :| e in edges;
      var m := BoundOf(edges - {e});
      n := m + e.0 + e.1 + 1;
      forall f | f in edges ensures f.0 < n && f.1 < n {
        assert f == e || f in edges - {e};
      }
    }
  }

  /** Every closed walk has a ring in it. */
  lemma {:induction false} RingWithin(edges: set<(nat, nat)>, n: nat, w: seq<nat>) returns (r: seq<nat>)
    requires |w| >= 2 && Walk(edges, w) && w[0] == w[|w| - 1]
    requires forall i :: 0 <= i < |w| ==> w[i] < n
    ensures Ring(r, n) && Walk(edges, r)
    decreases |w|
  {
    if i, j :| 0 <= i < j < |w| - 1 && w[i] == w[j] {
      r := RingWithin(edges, n, w[i..j + 1]);
    } else {
      r := w;
    }
  }

  /** Where sends can form a cycle, a ring of tasks, all below some `n` that no edge reaches. */
  lemma RingOf(edges: set<(nat, nat)>) returns (n: nat, r: seq<nat>)
    requires !Acyclic(edges)
    ensures Outside(edges, n) && Ring(r, n) && Walk(edges, r)
  {
    var w :| |w| >= 2 && Walk(edges, w) && w[0] == w[|w| - 1];
    n := BoundOf(edges);
    forall i | 0 <= i < |w| ensures w[i] < n {
      assert i < |w| - 1 ==> (w[i], w[i + 1]) in edges;
      assert i > 0 ==> (w[i - 1], w[i]) in edges;
    }
    r := RingWithin(edges, n, w);
  }

  /**
   Conversely, wherever sends can form a cycle, some tasks that send along it, started
   by one client, come to a stop with work left, whatever the capacity of the inboxes
   and without any task having gone away.
   */
  lemma CyclesDeadlock(edges: set<(nat, nat)>, capacity: nat)
    returns (sys: System<nat>, hs: seq<Happening>, client: nat, first: nat)
    requires !Acyclic(edges) && capacity >= 1
    ensures WellFormed(sys) && sys.edges == edges + {(client, first)} && first != client
    ensures Outside(edges, client) && forall p :: 0 <= p < |sys.program| && sys.program[p].Some? ==> p == client
    ensures forall p :: 0 <= p < |sys.capacity| ==> sys.capacity[p] == capacity
    ensures forall k :: 0 <= k < |hs| ==> hs[k].Move?
    ensures Run(sys, hs).Some? && Stuck(sys, Run(sys, hs).value)
  {
    hide Stage, Stuck, Walk, Run, Enabled, WellFormed;
    var n, r := RingOf(edges);
    client, first := n, r[0];
    var caps := seq(n + 1, _ => capacity);
    sys := RingSystem(edges, r, n, caps);
    RingIsWellFormed(edges, r, n, caps);
    hs := RingReaches(edges, r, n, caps, |r| - 1);
    LastStageIsStuck(edges, r, n, caps, Run(sys, hs).value);
  }

  // ---- events alone can deadlock too ---------------------------------------------------

  /**
   Each task of the ring, on any message, sends an event to the next one; client
   `n + i` sends the ring's task `i` as many events as its local says.
   */
  function FloodAction(w: seq<nat>, n: nat, p: nat, l: int): Action<int>
    requires |w| >= 2
  {
    if l <= 0 then Finish(0, 0)
    else if p < n then if p in w then Event(NextIn(w, p), 0) else Finish(0, 0)
    else if p - n < |w| - 1 then Event(w[p - n], 0)
    else Finish(0, 0)
  }

  function ClientEdges(w: seq<nat>, n: nat): set<(nat, nat)>
    requires |w| >= 2
  {
    set i: nat | 0 <= i < |w| - 1 :: (n + i, w[i])
  }

  function FloodSystem(edges: set<(nat, nat)>, w: seq<nat>, n: nat, capacity: nat): System<int>
    requires |w| >= 2
  {
    var size := n + |w| - 1;
    System(
      seq(size, _ => 0), seq(size, p => if p < n then None else Some(capacity + 1)), seq(size, _ => capacity),
      edges + ClientEdges(w, n), (p, s, m) => 1, (p, l) => FloodAction(w, n, p, l), (p, l, x) => l - 1)
  }

  lemma FloodIsWellFormed(edges: set<(nat, nat)>, w: seq<nat>, n: nat, capacity: nat)
    requires Ring(w, n) && Walk(edges, w) && capacity >= 1
    ensures WellFormed(FloodSystem(edges, w, n, capacity))
  {
    var sys := FloodSystem(edges, w, n, capacity);
    forall p: nat, l | p < |sys.initial| ensures SendsAlong(sys, p, sys.act(p, l)) {
      if p >= n {
        assert (n + (p - n), w[p - n]) in ClientEdges(w, n);
      } else if p in w {
        var i :| 0 <= i < |w| - 1 && w[i] == p;
        NextAfter(w, i);
        assert (w[i], w[i + 1]) in edges;
      }
    }
  }

  /** Task `t` has `phase` and that many messages in its inbox. */
  predicate At(c: Config<int>, t: nat, phase: Phase<int>, waiting: nat) {
    t < |c.procs| && c.procs[t].alive && c.procs[t].phase == phase && |c.procs[t].inbox| == waiting
  }

  /** Only the tasks `p` and `q` have changed. */
  predicate OnlyThese(c: Config<int>, c': Config<int>, p: nat, q: nat) {
    |c'.procs| == |c.procs| && forall t :: 0 <= t < |c.procs| && t != p && t != q ==> c'.procs[t] == c.procs[t]
  }

  lemma ClientPosts(sys: System<int>, c: Config<int>, p: nat, t: nat, l: nat, waiting: nat)
    requires Sized(sys, c) && p != t && l > 0
    requires sys.act(p, l) == Event(t, 0) && sys.resume(p, l, Sent) == l - 1
    requires At(c, p, Running(l), 0) && t < |c.procs| && At(c, t, c.procs[t].phase, waiting)
    requires waiting < sys.capacity[t]
    ensures Enabled(sys, c, p)
    ensures var c' := Step(sys, c, p);
      At(c', p, Running(l - 1), 0) && At(c', t, c.procs[t].phase, waiting + 1) && OnlyThese(c, c', t, p)
  {
  }

  lemma TaskTakes(edges: set<(nat, nat)>, w: seq<nat>, n: nat, capacity: nat, c: Config<int>, t: nat)
    requires |w| >= 2 && |c.procs| == n + |w| - 1 && At(c, t, Idle, 1)
    ensures Sized(FloodSystem(edges, w, n, capacity), c) && Enabled(FloodSystem(edges, w, n, capacity), c, t)
    ensures var c' := Step(FloodSystem(edges, w, n, capacity), c, t);
      At(c', t, Running(1), 0) && OnlyThese(c, c', t, t)
  {
  }

  lemma ClientEnds(sys: System<int>, c: Config<int>, p: nat)
    requires Sized(sys, c) && At(c, p, Running(0), 0) && sys.act(p, 0) == Finish(0, 0)
    ensures Enabled(sys, c, p)
    ensures var c' := Step(sys, c, p); At(c', p, Idle, 0) && OnlyThese(c, c', p, p)
  {
  }

  lemma FloodMoves(edges: set<(nat, nat)>, w: seq<nat>, n: nat, capacity: nat, i: nat, l: nat)
    requires Ring(w, n) && i < |w| - 1
    ensures var sys := FloodSystem(edges, w, n, capacity);
      && |sys.initial| == |sys.program| == |sys.capacity| == n + |w| - 1
      && w[i] < n && sys.capacity[w[i]] == capacity
      && sys.act(n + i, 0) == Finish(0, 0)
      && (l > 0 ==> sys.act(n + i, l) == Event(w[i], 0) && sys.resume(n + i, l, Sent) == l - 1)
  {
  }

  /** A client fills the inbox of a task that is about to send. */
  lemma {:induction false} Fill(edges: set<(nat, nat)>, w: seq<nat>, n: nat, capacity: nat, i: nat,
                                hs: seq<Happening>, c: Config<int>, l: nat)
    returns (hs': seq<Happening>, c': Config<int>)
    requires Ring(w, n) && i < |w| - 1 && l <= capacity && |c.procs| == n + |w| - 1
    requires var sys := FloodSystem(edges, w, n, capacity);
      |sys.initial| == |sys.program| == |sys.capacity| && Run(sys, hs) == Some(c)
    requires At(c, n + i, Running(l), 0) && At(c, w[i], Running(1), capacity - l)
    requires forall k :: 0 <= k < |hs| ==> hs[k].Move?
    ensures Run(FloodSystem(edges, w, n, capacity), hs') == Some(c') && OnlyThese(c, c', w[i], n + i)
    ensures At(c', n + i, Running(0), 0) && At(c', w[i], Running(1), capacity)
    ensures forall k :: 0 <= k < |hs'| ==> hs'[k].Move?
    decreases l
  {
    hide Run, Step, Enabled, FloodSystem, Ring;
    var sys := FloodSystem(edges, w, n, capacity);
    FloodMoves(edges, w, n, capacity, i, l);
    hs', c' := hs, c;
    if l > 0 {
      ClientPosts(sys, c, n + i, w[i], l, capacity - l);
      hs', c' := Played(sys, hs, c, n + i);
      hs', c' := Fill(edges, w, n, capacity, i, hs', c', l - 1);
    }
  }

  /** Client `n + i` gives the ring's task `i` a message to send on, then fills its inbox. */
  lemma Jam(edges: set<(nat, nat)>, w: seq<nat>, n: nat, capacity: nat, i: nat, hs: seq<Happening>, c: Config<int>)
    returns (hs': seq<Happening>, c': Config<int>)
    requires Ring(w, n) && i < |w| - 1 && capacity >= 1 && |c.procs| == n + |w| - 1
    requires var sys := FloodSystem(edges, w, n, capacity);
      |sys.initial| == |sys.program| == |sys.capacity| && Run(sys, hs) == Some(c)
    requires At(c, n + i, Running(capacity + 1), 0) && At(c, w[i], Idle, 0)
    requires forall k :: 0 <= k < |hs| ==> hs[k].Move?
    ensures Run(FloodSystem(edges, w, n, capacity), hs') == Some(c') && OnlyThese(c, c', w[i], n + i)
    ensures At(c', n + i, Idle, 0) && At(c', w[i], Running(1), capacity)
    ensures forall k :: 0 <= k < |hs'| ==> hs'[k].Move?
  {
    hide Run, Step, Enabled, FloodSystem, Ring;
    var sys := FloodSystem(edges, w, n, capacity);
    FloodMoves(edges, w, n, capacity, i, capacity + 1);
    ClientPosts(sys, c, n + i, w[i], capacity + 1, 0);
    hs', c' := Played(sys, hs, c, n + i);
    TaskTakes(edges, w, n, capacity, c', w[i]);
    hs', c' := Played(sys, hs', c', w[i]);
    hs', c' := Fill(edges, w, n, capacity, i, hs', c', capacity);
    ClientEnds(sys, c', n + i);
    hs', c' := Played(sys, hs', c', n + i);
  }

  /** A client that has all its messages still to send. */
  predicate Unstarted(c: Config<int>, p: nat, capacity: nat) {
    At(c, p, Running(capacity + 1), 0)
  }

  /** The first `i` tasks of the ring are about to send and have full inboxes; the others are yet to be reached. */
  predicate Jammed(w: seq<nat>, n: nat, capacity: nat, c: Config<int>, i: nat)
    requires Ring(w, n) && i < |w|
  {
    && |c.procs| == n + |w| - 1
    && (forall j :: 0 <= j < i ==> At(c, w[j], Running(1), capacity))
    && (forall p :: n <= p < n + i ==> At(c, p, Idle, 0))
    && (forall p :: n + i <= p < n + |w| - 1 ==> Unstarted(c, p, capacity))
    && (forall p :: 0 <= p < n && p !in w[..i] ==> At(c, p, Idle, 0))
  }

  lemma JammedOneMore(w: seq<nat>, n: nat, capacity: nat, c: Config<int>, c': Config<int>, i: nat)
    requires Ring(w, n) && i < |w| - 1 && Jammed(w, n, capacity, c, i) && OnlyThese(c, c', w[i], n + i)
    requires At(c', n + i, Idle, 0) && At(c', w[i], Running(1), capacity)
    ensures Jammed(w, n, capacity, c', i + 1)
  {
    assert w[..i + 1] == w[..i] + [w[i]];
    forall j | 0 <= j < i + 1 ensures At(c', w[j], Running(1), capacity) {
      assert j < i ==> At(c, w[j], Running(1), capacity) && w[j] != w[i];
    }
    forall p | n <= p < n + i + 1 ensures At(c', p, Idle, 0) {
      assert p < n + i ==> At(c, p, Idle, 0);
    }
    forall p | n + i + 1 <= p < n + |w| - 1 ensures Unstarted(c', p, capacity) {
      assert Unstarted(c, p, capacity);
    }
    forall p | 0 <= p < n && p !in w[..i + 1] ensures At(c', p, Idle, 0) {
      assert At(c, p, Idle, 0) && p != w[i];
    }
  }

  lemma {:induction false} JamAll(edges: set<(nat, nat)>, w: seq<nat>, n: nat, capacity: nat, i: nat)
    returns (hs: seq<Happening>, c: Config<int>)
    requires Ring(w, n) && i < |w| && capacity >= 1
    ensures forall k :: 0 <= k < |hs| ==> hs[k].Move?
    ensures var sys := FloodSystem(edges, w, n, capacity);
      && |sys.initial| == |sys.program| == |sys.capacity|
      && Run(sys, hs) == Some(c) && Jammed(w, n, capacity, c, i)
  {
    var sys := FloodSystem(edges, w, n, capacity);
    if i == 0 {
      hs, c := [], Start(sys);
    } else {
      hs, c := JamAll(edges, w, n, capacity, i - 1);
      var before := c;
      assert At(c, w[i - 1], Idle, 0) by {
        NotYet(w, n, i - 1);
      }
      assert Unstarted(c, n + (i - 1), capacity);
      hide FloodSystem, At, Run, Jammed;
      hs, c := Jam(edges, w, n, capacity, i - 1, hs, before);
      JammedOneMore(w, n, capacity, before, c, i - 1);
    }
  }

  lemma NotYet(w: seq<nat>, n: nat, i: nat)
    requires Ring(w, n) && i < |w| - 1
    ensures w[i] < n && w[i] !in w[..i]
  {
  }

  lemma AllJammedIsStuck(edges: set<(nat, nat)>, w: seq<nat>, n: nat, capacity: nat, c: Config<int>)
    requires Ring(w, n) && capacity >= 1 && Jammed(w, n, capacity, c, |w| - 1)
    ensures Stuck(FloodSystem(edges, w, n, capacity), c)
  {
    var sys := FloodSystem(edges, w, n, capacity);
    assert HasWork(c, w[0]) by {
      assert At(c, w[0], Running(1), capacity);
    }
    forall p: nat ensures !Enabled(sys, c, p) {
      if p < n && p in w[..|w| - 1] {
        var j :| 0 <= j < |w| - 1 && w[j] == p;
        NextAfter(w, j);
        assert At(c, w[j], Running(1), capacity);
        assert At(c, if j + 1 < |w| - 1 then w[j + 1] else w[0], Running(1), capacity);
      } else if p < n {
        assert At(c, p, Idle, 0);
      } else if p < |c.procs| {
        assert At(c, p, Idle, 0);
      }
    }
  }

  /**
   The same with no ask anywhere: wherever sends can form a cycle, events alone along
   it come to a stop with work left, whatever the capacity of the inboxes, since a
   full inbox holds up its senders. Only clients, which nobody sends to, are added.
   */
  lemma EventCyclesDeadlock(edges: set<(nat, nat)>, capacity: nat)
    returns (sys: System<int>, hs: seq<Happening>, clients: set<nat>)
    requires !Acyclic(edges) && capacity >= 1
    ensures WellFormed(sys) && forall p: nat, l :: !sys.act(p, l).Ask?
    ensures edges <= sys.edges && forall e :: e in sys.edges - edges ==> e.0 in clients
    ensures forall e :: e in sys.edges ==> e.1 !in clients
    ensures forall e :: e in edges ==> e.0 !in clients
    ensures forall p :: 0 <= p < |sys.program| ==> (sys.program[p].Some? <==> p in clients)
    ensures forall p :: 0 <= p < |sys.capacity| ==> sys.capacity[p] == capacity
    ensures forall k :: 0 <= k < |hs| ==> hs[k].Move?
    ensures Run(sys, hs).Some? && Stuck(sys, Run(sys, hs).value)
  {
    hide Jammed, Stuck, Walk, Run, WellFormed;
    var n, w := RingOf(edges);
    sys := FloodSystem(edges, w, n, capacity);
    clients := set e | e in ClientEdges(w, n) :: e.0;
    FloodIsWellFormed(edges, w, n, capacity);
    var c;
    hs, c := JamAll(edges, w, n, capacity, |w| - 1);
    AllJammedIsStuck(edges, w, n, capacity, c);
    forall p: nat | n <= p < n + |w| - 1 ensures p in clients {
      assert (n + (p - n), w[p - n]) in ClientEdges(w, n);
    }
  }

  /** Clients, which nobody sends to, add no cycle, so the two results above meet `DeadlockFree` exactly. */
  lemma ClientsAddNoCycle(edges: set<(nat, nat)>, all: set<(nat, nat)>, clients: set<nat>)
    requires Acyclic(edges) && edges <= all
    requires forall e :: e in all - edges ==> e.0 in clients
    requires forall e :: e in all ==> e.1 !in clients
    ensures Acyclic(all)
  {
    forall w | |w| >= 2 && Walk(all, w) && w[0] == w[|w| - 1] ensures Walk(edges, w) {
      forall i | 0 <= i < |w| - 1 ensures (w[i], w[i + 1]) in edges {
        var to := if i == 0 then |w| - 1 else i;
        assert (w[to - 1], w[to]) in all;
      }
    }
  }

  lemma Played<D>(sys: System<D>, hs: seq<Happening>, c: Config<D>, p: nat) returns (hs': seq<Happening>, c': Config<D>)
    requires |sys.initial| == |sys.program| == |sys.capacity|
    requires Run(sys, hs) == Some(c) && Enabled(sys, c, p)
    ensures hs' == hs + [Move(p)] && c' == Step(sys, c, p) && Run(sys, hs') == Some(c')
  {
    RunOneMore(sys, hs, Move(p));
    hs', c' := hs + [Move(p)], Step(sys, c, p);
  }
}
