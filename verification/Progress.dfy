/**
 Runs end: when sends are acyclic and every handler and program is finite, there is
 a bound on the length of all runs, and where a run ends every message is handled.
 */
module Progress {
  import opened Bytes
  import opened Actors

  /** From local `l` on, `p` finishes within `n` inputs, whatever they are. */
  ghost predicate EndsWithin<D(!new)>(sys: System<D>, p: nat, l: D, n: nat) {
    sys.act(p, l).Finish? || (n > 0 && forall x: Input<D> :: EndsWithin(sys, p, sys.resume(p, l, x), n - 1))
  }

  ghost predicate AllEnd<D(!new)>(sys: System<D>, n: nat) {
    && (forall p: nat, s, m :: p < |sys.initial| ==> EndsWithin(sys, p, sys.start(p, s, m), n))
    && (forall p: nat :: p < |sys.program| && sys.program[p].Some? ==> EndsWithin(sys, p, sys.program[p].value, n))
  }

  // ---- ranks -----------------------------------------------------------------------

  /** Sends go down in rank. */
  ghost predicate Descends(edges: set<(nat, nat)>, rank: map<nat, nat>) {
    forall e :: e in edges && e.0 in rank && e.1 in rank ==> rank[e.1] < rank[e.0]
  }

  lemma {:induction false} RankExists(edges: set<(nat, nat)>, s: set<nat>) returns (rank: map<nat, nat>)
    requires Acyclic(edges)
    ensures rank.Keys == s && Descends(edges, rank)
    decreases |s|
  {
    hide Acyclic;
    if s == {} {
      rank := map[];
    } else {
      var p := AcyclicLeadsOut(edges, s);
      var above := RankExists(edges, s - {p});
      rank := map q | q in s :: if q == p then 0 else above[q] + 1;
    }
  }

  function AllBelow(n: nat): (s: set<nat>)
    ensures forall p: nat :: p in s <==> p < n
  {
    if n == 0 then {} else AllBelow(n - 1) + {n - 1}
  }

  // ---- what a message can cost -------------------------------------------------------

  function Times(a: nat, b: nat): nat {
    a * b
  }

  lemma OneMoreTimes(a: nat, b: nat)
    ensures Times(a + 1, b) == Times(a, b) + b && Times(0, b) == 0
  {
  }

  lemma TimesOrder(a: nat, b: nat, c: nat)
    requires b <= c
    ensures Times(a, b) <= Times(a, c)
  {
  }

  /** The most steps a message can lead to, at a task of rank `r`: to take it, to finish, and what each input can. */
  function Weight(n: nat, r: nat): nat
    decreases r, 1
  {
    2 + Times(n, PerInput(n, r))
  }

  /** The most steps one input of a handler can lead to: to send, to wait, and what a message sent further down can. */
  function PerInput(n: nat, r: nat): nat
    decreases r, 0
  {
    if r == 0 then 2 else 2 + Weight(n, r - 1)
  }

  lemma {:induction false} WeightOrder(n: nat, a: nat, b: nat)
    requires a <= b
    ensures Weight(n, a) <= Weight(n, b)
    decreases b
  {
    hide Times;
    if 0 < a {
      WeightOrder(n, a - 1, b - 1);
    }
    TimesOrder(n, PerInput(n, a), PerInput(n, b));
  }

  lemma SendIsPaidFor(n: nat, from: nat, to: nat)
    requires to < from
    ensures Weight(n, to) + 2 <= PerInput(n, from)
  {
    hide Times;
    WeightOrder(n, to, from - 1);
  }

  /** The most steps a task's inbox and present handler can lead to, with `fuel` inputs left. */
  function Cost<D>(n: nat, r: nat, q: Proc<D>, fuel: nat): nat {
    if !q.alive then 0
    else 1 + Times(|q.inbox|, Weight(n, r)) + PhaseCost(n, r, q.phase, fuel)
  }

  function PhaseCost<D>(n: nat, r: nat, phase: Phase<D>, fuel: nat): nat {
    match phase
    case Idle => 0
    case Running(_) => 1 + Times(fuel, PerInput(n, r))
    case Waiting(_, _, _) => 2 + Times(if fuel == 0 then 0 else fuel - 1, PerInput(n, r))
  }

  function Total(costs: seq<nat>): nat {
    if costs == [] then 0 else costs[0] + Total(costs[1..])
  }

  lemma {:induction false} TotalUpdate(costs: seq<nat>, i: nat, v: nat)
    requires i < |costs|
    ensures Total(costs[i := v]) + costs[i] == Total(costs) + v
  {
    if i > 0 {
      TotalUpdate(costs[1..], i - 1, v);
      assert costs[i := v][1..] == costs[1..][i - 1 := v];
    } else {
      assert costs[i := v][1..] == costs[1..];
    }
  }

  ghost predicate RanksAll<D>(sys: System<D>, c: Config<D>, rank: map<nat, nat>) {
    Sized(sys, c) && Descends(sys.edges, rank) && forall p: nat :: p < |c.procs| ==> p in rank
  }

  ghost function Costs<D>(c: Config<D>, n: nat, rank: map<nat, nat>, fuel: seq<nat>): (r: seq<nat>)
    requires |fuel| == |c.procs| && forall p: nat :: p < |c.procs| ==> p in rank
    ensures |r| == |c.procs|
    ensures forall p: nat :: p < |c.procs| ==> r[p] == Cost(n, rank[p], c.procs[p], fuel[p])
  {
    seq(|c.procs|, p requires 0 <= p < |c.procs| => Cost(n, rank[p], c.procs[p], fuel[p]))
  }

  /** Each task's handler or program finishes within its fuel. */
  ghost predicate Fueled<D(!new)>(sys: System<D>, c: Config<D>, fuel: seq<nat>) {
    && |fuel| == |c.procs|
    && forall p: nat :: p < |c.procs| && c.procs[p].alive ==> FueledAt(sys, p, c.procs[p].phase, fuel[p])
  }

  ghost predicate FueledAt<D(!new)>(sys: System<D>, p: nat, phase: Phase<D>, fuel: nat) {
    match phase
    case Idle => true
    case Running(l) => EndsWithin(sys, p, l, fuel)
    case Waiting(l, _, _) => EndsWithin(sys, p, l, fuel) && !sys.act(p, l).Finish?
  }

  /** One task has changed, and can lead to fewer steps. */
  lemma OneCheaper<D(!new)>(sys: System<D>, c: Config<D>, c': Config<D>, n: nat, rank: map<nat, nat>,
                            fuel: seq<nat>, p: nat, k: nat)
    requires RanksAll(sys, c, rank) && Fueled(sys, c, fuel) && p < |c.procs|
    requires |c'.procs| == |c.procs| && c'.procs == c.procs[p := c'.procs[p]]
    requires c'.procs[p].alive ==> FueledAt(sys, p, c'.procs[p].phase, k)
    requires Cost(n, rank[p], c'.procs[p], k) < Cost(n, rank[p], c.procs[p], fuel[p])
    ensures RanksAll(sys, c', rank) && Fueled(sys, c', fuel[p := k])
    ensures Total(Costs(c', n, rank, fuel[p := k])) < Total(Costs(c, n, rank, fuel))
  {
    hide Cost, FueledAt, Total;
    var v := Cost(n, rank[p], c'.procs[p], k);
    TotalUpdate(Costs(c, n, rank, fuel), p, v);
    assert Costs(c', n, rank, fuel[p := k]) == Costs(c, n, rank, fuel)[p := v];
  }

  /** Only `p` and `to` have changed, and `to` only in its inbox. */
  ghost predicate SentBetween<D>(c: Config<D>, c': Config<D>, p: nat, to: nat) {
    && |c'.procs| == |c.procs| && p < |c.procs| && to < |c.procs| && p != to
    && (forall q: nat :: q < |c.procs| && q != p && q != to ==> c'.procs[q] == c.procs[q])
    && c'.procs[to].alive == c.procs[to].alive && c'.procs[to].phase == c.procs[to].phase
  }

  lemma SenderStaysFueled<D(!new)>(sys: System<D>, c: Config<D>, c': Config<D>, fuel: seq<nat>, p: nat, to: nat, k: nat)
    requires Fueled(sys, c, fuel) && SentBetween(c, c', p, to)
    requires c'.procs[p].alive ==> FueledAt(sys, p, c'.procs[p].phase, k)
    ensures Fueled(sys, c', fuel[p := k])
  {
    hide FueledAt;
  }

  /** One task has sent to another, and what it can lead to has gone down by more than the message weighs. */
  lemma SenderPays<D(!new)>(sys: System<D>, c: Config<D>, c': Config<D>, n: nat, rank: map<nat, nat>,
                            fuel: seq<nat>, p: nat, to: nat, k: nat)
    requires RanksAll(sys, c, rank) && Fueled(sys, c, fuel) && SentBetween(c, c', p, to)
    requires c'.procs[p].alive ==> FueledAt(sys, p, c'.procs[p].phase, k)
    requires Cost(n, rank[to], c'.procs[to], fuel[to]) <= Cost(n, rank[to], c.procs[to], fuel[to]) + Weight(n, rank[to])
    requires Cost(n, rank[p], c'.procs[p], k) + Weight(n, rank[to]) < Cost(n, rank[p], c.procs[p], fuel[p])
    ensures RanksAll(sys, c', rank) && Fueled(sys, c', fuel[p := k])
    ensures Total(Costs(c', n, rank, fuel[p := k])) < Total(Costs(c, n, rank, fuel))
  {
    hide Cost, FueledAt, Total, Weight;
    SenderStaysFueled(sys, c, c', fuel, p, to, k);
    hide Fueled;
    var (costs, costs') := (Costs(c, n, rank, fuel), Costs(c', n, rank, fuel[p := k]));
    var (u, v) := (Cost(n, rank[to], c'.procs[to], fuel[to]), Cost(n, rank[p], c'.procs[p], k));
    TotalUpdate(costs, to, u);
    TotalUpdate(costs[to := u], p, v);
    assert costs' == costs[to := u][p := v] by {
      SameElsewhere(c, c', n, rank, fuel, p, to, k);
    }
  }

  lemma SameElsewhere<D>(c: Config<D>, c': Config<D>, n: nat, rank: map<nat, nat>, fuel: seq<nat>,
                         p: nat, to: nat, k: nat)
    requires SentBetween(c, c', p, to) && |fuel| == |c.procs| && forall q: nat :: q < |c.procs| ==> q in rank
    ensures Costs(c', n, rank, fuel[p := k])
            == Costs(c, n, rank, fuel)[to := Cost(n, rank[to], c'.procs[to], fuel[to])]
                                      [p := Cost(n, rank[p], c'.procs[p], k)]
  {
    hide Cost;
  }

  // ---- every step costs ----------------------------------------------------------------

  /** A step has left less that all tasks together can still lead to. */
  ghost predicate Cheaper<D(!new)>(sys: System<D>, c: Config<D>, c': Config<D>, n: nat, rank: map<nat, nat>,
                                   fuel: seq<nat>, fuel': seq<nat>) {
    && RanksAll(sys, c, rank) && Fueled(sys, c, fuel)
    && RanksAll(sys, c', rank) && Fueled(sys, c', fuel')
    && Total(Costs(c', n, rank, fuel')) < Total(Costs(c, n, rank, fuel))
  }

  lemma ResumeCosts<D(!new)>(sys: System<D>, c: Config<D>, n: nat, rank: map<nat, nat>, fuel: seq<nat>, p: nat,
                             x: Input<D>) returns (k: nat)
    requires RanksAll(sys, c, rank) && Fueled(sys, c, fuel) && Pending(sys, c, p)
    ensures Cheaper(sys, c, Resume(sys, c, p, c.procs[p].phase.local, x), n, rank, fuel, fuel[p := k])
  {
    hide Times, PerInput, Weight, Total, Costs;
    var l := c.procs[p].phase.local;
    assert FueledAt(sys, p, c.procs[p].phase, fuel[p]);
    k := fuel[p] - 1;
    assert EndsWithin(sys, p, sys.resume(p, l, x), k);
    OneMoreTimes(k, PerInput(n, rank[p]));
    AtLeastTwo(n, rank[p]);
    OneCheaper(sys, c, Resume(sys, c, p, l, x), n, rank, fuel, p, k);
  }

  lemma AtLeastTwo(n: nat, r: nat)
    ensures PerInput(n, r) >= 2
  {
  }

  lemma ReceiveCosts<D(!new)>(sys: System<D>, c: Config<D>, n: nat, rank: map<nat, nat>, fuel: seq<nat>, p: nat)
    requires RanksAll(sys, c, rank) && Fueled(sys, c, fuel) && AllEnd(sys, n) && p < |c.procs|
    requires c.procs[p].alive && c.procs[p].phase.Idle? && c.procs[p].inbox != []
    ensures Cheaper(sys, c, Receive(sys, c, p), n, rank, fuel, fuel[p := n])
  {
    hide Times, PerInput, Total, Costs;
    var q := c.procs[p];
    OneMoreTimes(|q.inbox| - 1, Weight(n, rank[p]));
    assert EndsWithin(sys, p, sys.start(p, q.state, q.inbox[0].m), n);
    OneCheaper(sys, c, Receive(sys, c, p), n, rank, fuel, p, n);
  }

  lemma EndCosts<D(!new)>(sys: System<D>, c: Config<D>, n: nat, rank: map<nat, nat>, fuel: seq<nat>, p: nat,
                          s: D, reply: D)
    requires RanksAll(sys, c, rank) && Fueled(sys, c, fuel) && p < |c.procs|
    requires c.procs[p].alive && c.procs[p].phase.Running?
    ensures Cheaper(sys, c, End(c, p, s, reply), n, rank, fuel, fuel[p := 0])
  {
    hide Times, PerInput, Weight, Total, Costs;
    OneCheaper(sys, c, End(c, p, s, reply), n, rank, fuel, p, 0);
  }

  lemma StopCosts<D(!new)>(sys: System<D>, c: Config<D>, n: nat, rank: map<nat, nat>, fuel: seq<nat>, p: nat)
    requires RanksAll(sys, c, rank) && Fueled(sys, c, fuel) && p < |c.procs| && c.procs[p].alive
    ensures Cheaper(sys, c, StopTask(c, p), n, rank, fuel, fuel[p := 0])
  {
    hide Times, PerInput, Weight, Total, Costs;
    OneCheaper(sys, c, StopTask(c, p), n, rank, fuel, p, 0);
  }

  /** The configuration after `p` has put `env` in `to`'s inbox and gone on to `phase`. */
  lemma SendCosts<D(!new)>(sys: System<D>, c: Config<D>, c': Config<D>, n: nat, rank: map<nat, nat>, fuel: seq<nat>,
                           p: nat, to: nat, k: nat)
    requires RanksAll(sys, c, rank) && Fueled(sys, c, fuel) && SentBetween(c, c', p, to)
    requires rank[to] < rank[p] && fuel[p] > 0
    requires c.procs[p].alive && c.procs[p].phase.Running? && |c'.procs[to].inbox| == |c.procs[to].inbox| + 1
    requires c'.procs[p].alive && c'.procs[p].inbox == c.procs[p].inbox
    requires FueledAt(sys, p, c'.procs[p].phase, k)
    requires (c'.procs[p].phase.Running? && k == fuel[p] - 1) || (c'.procs[p].phase.Waiting? && k == fuel[p])
    ensures Cheaper(sys, c, c', n, rank, fuel, fuel[p := k])
  {
    hide Times, PerInput, Weight, Total, Costs, FueledAt;
    OneMoreTimes(|c.procs[to].inbox|, Weight(n, rank[to]));
    OneMoreTimes(fuel[p] - 1, PerInput(n, rank[p]));
    SendIsPaidFor(n, rank[p], rank[to]);
    SenderPays(sys, c, c', n, rank, fuel, p, to, k);
  }

  lemma RankOfSend<D(!new)>(sys: System<D>, c: Config<D>, rank: map<nat, nat>, p: nat, l: D)
    requires WellFormed(sys) && RanksAll(sys, c, rank) && p < |c.procs| && !sys.act(p, l).Finish?
    ensures var to := sys.act(p, l).to;
      to < |c.procs| && to != p && rank[to] < rank[p]
  {
    assert SendsAlong(sys, p, sys.act(p, l));
    assert (p, sys.act(p, l).to) in sys.edges;
  }

  lemma RunningCosts<D(!new)>(sys: System<D>, c: Config<D>, n: nat, rank: map<nat, nat>, fuel: seq<nat>, p: nat)
    returns (k: nat)
    requires WellFormed(sys) && RanksAll(sys, c, rank) && Fueled(sys, c, fuel)
    requires Enabled(sys, c, p) && c.procs[p].phase.Running? && !sys.act(p, c.procs[p].phase.local).Finish?
    ensures Cheaper(sys, c, Step(sys, c, p), n, rank, fuel, fuel[p := k])
  {
    hide Total, Costs, RanksAll, WellFormed, Cost;
    var l := c.procs[p].phase.local;
    var to := sys.act(p, l).to;
    assert |sys.initial| == |sys.capacity| == |c.procs| by {
      RanksAllSized(sys, c, rank);
    }
    RankOfSend(sys, c, rank, p, l);
    assert FueledAt(sys, p, c.procs[p].phase, fuel[p]);
    if Gone(c, to) {
      k := ResumeCosts(sys, c, n, rank, fuel, p, Stopped);
    } else if sys.act(p, l).Event? {
      k := fuel[p] - 1;
      assert EndsWithin(sys, p, sys.resume(p, l, Sent), k);
      SendCosts(sys, c, Step(sys, c, p), n, rank, fuel, p, to, k);
    } else {
      k := fuel[p];
      SendCosts(sys, c, Step(sys, c, p), n, rank, fuel, p, to, k);
    }
  }

  lemma RanksAllSized<D>(sys: System<D>, c: Config<D>, rank: map<nat, nat>)
    requires RanksAll(sys, c, rank)
    ensures Sized(sys, c)
  {
  }

  lemma IdleStep<D>(sys: System<D>, c: Config<D>, p: nat)
    requires Sized(sys, c) && Enabled(sys, c, p) && c.procs[p].phase.Idle?
    ensures c.procs[p].alive && c.procs[p].inbox != [] && Step(sys, c, p) == Receive(sys, c, p)
  {
  }

  lemma WaitingStep<D>(sys: System<D>, c: Config<D>, p: nat) returns (x: Input<D>)
    requires Sized(sys, c) && Enabled(sys, c, p) && c.procs[p].phase.Waiting?
    ensures Pending(sys, c, p) && Step(sys, c, p) == Resume(sys, c, p, c.procs[p].phase.local, x)
  {
    var t := c.procs[p].phase.ticket;
    x := if t in c.replies then Reply(c.replies[t]) else Stopped;
  }

  lemma FinishStep<D>(sys: System<D>, c: Config<D>, p: nat)
    requires Sized(sys, c) && Enabled(sys, c, p) && c.procs[p].phase.Running?
    requires sys.act(p, c.procs[p].phase.local).Finish?
    ensures var a := sys.act(p, c.procs[p].phase.local);
      c.procs[p].alive && Step(sys, c, p) == End(c, p, a.state, a.reply)
  {
  }

  lemma MoveCosts<D(!new)>(sys: System<D>, c: Config<D>, p: nat, n: nat, rank: map<nat, nat>, fuel: seq<nat>)
    returns (k: nat)
    requires WellFormed(sys) && AllEnd(sys, n) && RanksAll(sys, c, rank) && Fueled(sys, c, fuel) && Enabled(sys, c, p)
    ensures p < |fuel| && Cheaper(sys, c, Step(sys, c, p), n, rank, fuel, fuel[p := k])
  {
    assert p < |fuel| == |c.procs|;
    RanksAllSized(sys, c, rank);
    hide Cheaper, AllEnd, WellFormed, Fueled, RanksAll, Receive, Resume, End, Step, Enabled;
    if c.procs[p].phase.Idle? {
      IdleStep(sys, c, p);
      ReceiveCosts(sys, c, n, rank, fuel, p);
      k := n;
    } else if c.procs[p].phase.Waiting? {
      var x := WaitingStep(sys, c, p);
      k := ResumeCosts(sys, c, n, rank, fuel, p, x);
    } else if sys.act(p, c.procs[p].phase.local).Finish? {
      FinishStep(sys, c, p);
      var a := sys.act(p, c.procs[p].phase.local);
      EndCosts(sys, c, n, rank, fuel, p, a.state, a.reply);
      k := 0;
    } else {
      k := RunningCosts(sys, c, n, rank, fuel, p);
    }
  }

  /** Whatever happens, what all tasks together can still lead to goes down. */
  lemma EverythingCosts<D(!new)>(sys: System<D>, c: Config<D>, h: Happening, n: nat, rank: map<nat, nat>,
                                 fuel: seq<nat>)
    returns (fuel': seq<nat>)
    requires WellFormed(sys) && AllEnd(sys, n) && RanksAll(sys, c, rank) && Fueled(sys, c, fuel) && Possible(sys, c, h)
    ensures Cheaper(sys, c, After(sys, c, h), n, rank, fuel, fuel')
  {
    assert |fuel| == |c.procs|;
    hide Cheaper, AllEnd, WellFormed, Fueled, Step, Resume, StopTask;
    var k := 0;
    match h {
      case Stop(p) =>
        StopCosts(sys, c, n, rank, fuel, p);
      case Abandon(p) =>
        k := ResumeCosts(sys, c, n, rank, fuel, p, GaveUp);
      case Move(p) =>
        k := MoveCosts(sys, c, p, n, rank, fuel);
    }
    fuel' := fuel[h.p := k];
  }

  // ---- every run ends ---------------------------------------------------------------------

  /** What the clients can lead to from the start. */
  lemma StartIsFueled<D(!new)>(sys: System<D>, n: nat, rank: map<nat, nat>) returns (fuel: seq<nat>)
    requires WellFormed(sys) && AllEnd(sys, n) && Descends(sys.edges, rank)
    requires forall p: nat :: p < |sys.initial| ==> p in rank
    ensures RanksAll(sys, Start(sys), rank) && Fueled(sys, Start(sys), fuel)
    ensures fuel == seq(|sys.initial|, _ => n)
  {
    hide EndsWithin;
    fuel := seq(|sys.initial|, _ => n);
    forall p: nat | p < |sys.initial| ensures FueledAt(sys, p, Start(sys).procs[p].phase, fuel[p]) {
      assert Start(sys).procs[p] == Begun(sys.initial[p], sys.program[p]);
    }
  }

  lemma {:induction false} RunsCost<D(!new)>(sys: System<D>, hs: seq<Happening>, n: nat, rank: map<nat, nat>)
    returns (first: seq<nat>, fuel: seq<nat>)
    requires WellFormed(sys) && AllEnd(sys, n) && Descends(sys.edges, rank)
    requires forall p: nat :: p < |sys.initial| ==> p in rank
    requires Run(sys, hs).Some?
    ensures RanksAll(sys, Start(sys), rank) && first == seq(|sys.initial|, _ => n)
    ensures RanksAll(sys, Run(sys, hs).value, rank) && Fueled(sys, Run(sys, hs).value, fuel)
    ensures Total(Costs(Run(sys, hs).value, n, rank, fuel)) + |hs| <= Total(Costs(Start(sys), n, rank, first))
  {
    hide Total, Costs, AllEnd, After, Possible, Fueled, RanksAll, Start;
    first := StartIsFueled(sys, n, rank);
    if hs == [] {
      fuel := first;
    } else {
      var before;
      first, before := RunsCost(sys, hs[..|hs| - 1], n, rank);
      fuel := EverythingCosts(sys, Run(sys, hs[..|hs| - 1]).value, hs[|hs| - 1], n, rank, before);
    }
  }

  /**
   When sends are acyclic and every handler and program finishes within some number
   of inputs, there is a bound on the length of all runs, however they are scheduled.
   */
  lemma RunsAreBounded<D(!new)>(sys: System<D>, n: nat) returns (bound: nat)
    requires WellFormed(sys) && Acyclic(sys.edges) && AllEnd(sys, n)
    ensures forall hs: seq<Happening> :: Run(sys, hs).Some? ==> |hs| <= bound
  {
    hide Total, Costs, AllEnd, Run, Fueled, Acyclic;
    var rank := RankExists(sys.edges, AllBelow(|sys.initial|));
    var first := StartIsFueled(sys, n, rank);
    bound := Total(Costs(Start(sys), n, rank, first));
    forall hs: seq<Happening> | Run(sys, hs).Some? ensures |hs| <= bound {
      var f, fuel := RunsCost(sys, hs, n, rank);
    }
  }

  /** Where a run can go no further, every message ever put in a living task's inbox has been handled. */
  lemma EverythingIsHandled<D(!new)>(sys: System<D>, hs: seq<Happening>, p: nat)
    requires WellFormed(sys) && Acyclic(sys.edges) && Run(sys, hs).Some?
    requires forall q: nat :: !Enabled(sys, Run(sys, hs).value, q)
    requires p < |sys.capacity| && Run(sys, hs).value.procs[p].alive
    ensures var q := Run(sys, hs).value.procs[p];
      q.phase.Idle? && q.inbox == [] && Envs(q.handled) == q.enqueued
  {
    hide Enabled, Run, Acyclic, Folded;
    var c := Run(sys, hs).value;
    if HasWork(c, p) {
      var free := DeadlockFree(sys, hs, p);
    }
    RunsAreSound(sys, hs);
    SoundAt(sys, c, p);
    BusyInHand(sys, p, c.procs[p]);
  }

  /** Every run can be carried on to such an end by moves alone, whatever order they are taken in. */
  lemma {:induction false} RunsCanBeFinished<D(!new)>(sys: System<D>, hs: seq<Happening>, bound: nat)
    returns (rest: seq<Happening>)
    requires WellFormed(sys) && Run(sys, hs).Some?
    requires forall h: seq<Happening> :: Run(sys, h).Some? ==> |h| <= bound
    ensures forall i :: 0 <= i < |rest| ==> rest[i].Move?
    ensures Run(sys, hs + rest).Some? && forall p: nat :: !Enabled(sys, Run(sys, hs + rest).value, p)
    decreases bound - |hs|
  {
    hide Enabled, Step, Run;
    if p: nat :| Enabled(sys, Run(sys, hs).value, p) {
      RunOneMore(sys, hs, Move(p));
      var more := RunsCanBeFinished(sys, hs + [Move(p)], bound);
      rest := [Move(p)] + more;
      assert hs + [Move(p)] + more == hs + rest;
    } else {
      rest := [];
      assert hs + rest == hs;
    }
  }
}
