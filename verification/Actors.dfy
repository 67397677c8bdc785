/**
 Actors over bounded channels, as a step system: every process takes its next
 step on its own, and a run is any interleaving. An actor is a task that takes
 messages off its inbox one at a time and runs a handler on each; a client is a
 task that runs one program. Handlers and programs are given by what they do
 next from each local state, so they are arbitrary sequential code.
 */
module Actors {
  import opened Bytes

  /** What a send or an ask comes back with, if its sender has not given up on it before. */
  datatype Input<+D> = Sent | Stopped | GaveUp | Reply(value: D)

  datatype Action<+D> = Event(to: nat, m: D) | Ask(to: nat, m: D) | Finish(state: D, reply: D)

  /**
   States, messages, replies and handler locals are all values of one type.
   `program` is what a client starts out running; an actor starts out idle.
   */
  datatype System<!D> = System(
    initial: seq<D>,
    program: seq<Option<D>>,
    capacity: seq<nat>,
    edges: set<(nat, nat)>,
    start: (nat, D, D) -> D,
    act: (nat, D) -> Action<D>,
    resume: (nat, D, Input<D>) -> D)

  /** An inbox holds at least one message, and `edges` has every pair of which one may send to the other. */
  ghost predicate WellFormed<D(!new)>(sys: System<D>) {
    && |sys.initial| == |sys.program| == |sys.capacity|
    && (forall p :: 0 <= p < |sys.capacity| ==> sys.capacity[p] >= 1)
    && (forall p: nat, l :: p < |sys.initial| ==> SendsAlong(sys, p, sys.act(p, l)))
  }

  predicate SendsAlong<D>(sys: System<D>, p: nat, a: Action<D>) {
    !a.Finish? ==> a.to < |sys.initial| && (p, a.to) in sys.edges
  }

  /** A message with its sender, the sender's count of sends before it, and an ask's reply channel. */
  datatype Envelope<+D> = Envelope(m: D, from: nat, seqno: nat, ticket: Option<nat>)

  datatype Phase<+D> = Idle | Running(local: D) | Waiting(local: D, to: nat, ticket: nat)

  /** A handler that ran to its end: its message, what its sends came back with, and its result. */
  datatype Handled<+D> = Handled(env: Envelope<D>, inputs: seq<Input<D>>, reply: D)

  /** `enqueued`, `handled` and `inputs` record what happened; no step looks at them. */
  datatype Proc<+D> = Proc(
    state: D, inbox: seq<Envelope<D>>, current: Option<Envelope<D>>, phase: Phase<D>, alive: bool, sent: nat,
    inputs: seq<Input<D>>, enqueued: seq<Envelope<D>>, handled: seq<Handled<D>>)

  datatype Config<+D> = Config(procs: seq<Proc<D>>, replies: map<nat, D>, nextTicket: nat)

  // ---- the steps -----------------------------------------------------------------------

  function Begun<D>(initial: D, program: Option<D>): Proc<D> {
    Proc(initial, [], None, if program.Some? then Running(program.value) else Idle, true, 0, [], [], [])
  }

  function Start<D>(sys: System<D>): (c: Config<D>)
    requires |sys.initial| == |sys.program|
    ensures |c.procs| == |sys.initial|
  {
    Config(seq(|sys.initial|, p requires 0 <= p < |sys.initial| => Begun(sys.initial[p], sys.program[p])), map[], 0)
  }

  predicate Room<D>(sys: System<D>, c: Config<D>, to: nat)
    requires |sys.capacity| == |c.procs|
  {
    to < |c.procs| && |c.procs[to].inbox| < sys.capacity[to]
  }

  predicate Gone<D>(c: Config<D>, to: nat) {
    to < |c.procs| ==> !c.procs[to].alive
  }

  /** Whether `p` can take a step: a send waits for room, an ask for its reply, an idle actor for a message. */
  predicate Enabled<D>(sys: System<D>, c: Config<D>, p: nat)
    requires |sys.capacity| == |c.procs|
  {
    && p < |c.procs| && c.procs[p].alive
    && match c.procs[p].phase
       case Idle => c.procs[p].inbox != []
       case Running(l) =>
         var a := sys.act(p, l);
         a.Finish? || Gone(c, a.to) || Room(sys, c, a.to)
       case Waiting(_, to, t) => t in c.replies || Gone(c, to)
  }

  /** A message goes to the end of an inbox. */
  function Enqueue<D>(c: Config<D>, to: nat, env: Envelope<D>): (r: Config<D>)
    requires to < |c.procs|
    ensures |r.procs| == |c.procs|
  {
    var q := c.procs[to];
    c.(procs := c.procs[to := q.(inbox := q.inbox + [env], enqueued := q.enqueued + [env])])
  }

  /** `p` has made one more send, and is now in `phase`. */
  function SendDone<D>(c: Config<D>, p: nat, phase: Phase<D>, inputs: seq<Input<D>>): (r: Config<D>)
    requires p < |c.procs|
    ensures |r.procs| == |c.procs|
  {
    var q := c.procs[p];
    c.(procs := c.procs[p := q.(phase := phase, sent := q.sent + 1, inputs := q.inputs + inputs)])
  }

  /** A handler goes on from a send or an ask. */
  function Resume<D>(sys: System<D>, c: Config<D>, p: nat, l: D, input: Input<D>): (r: Config<D>)
    requires p < |c.procs|
    ensures |r.procs| == |c.procs|
  {
    var q := c.procs[p];
    c.(procs := c.procs[p := q.(phase := Running(sys.resume(p, l, input)), inputs := q.inputs + [input])])
  }

  /** An idle actor takes the oldest message and starts its handler. */
  function Receive<D>(sys: System<D>, c: Config<D>, p: nat): (r: Config<D>)
    requires p < |c.procs| && c.procs[p].inbox != []
    ensures |r.procs| == |c.procs|
  {
    var q := c.procs[p];
    var env := q.inbox[0];
    c.(procs := c.procs[p := q.(
      inbox := q.inbox[1..], current := Some(env), phase := Running(sys.start(p, q.state, env.m)), inputs := [])])
  }

  /** A handler ends: its state is the actor's, and an ask's reply is sent. A client's program just ends. */
  function End<D>(c: Config<D>, p: nat, s: D, reply: D): (r: Config<D>)
    requires p < |c.procs|
    ensures |r.procs| == |c.procs|
  {
    var q := c.procs[p];
    match q.current
    case None => c.(procs := c.procs[p := q.(phase := Idle, inputs := [])])
    case Some(env) =>
      var q' := q.(
        state := s, current := None, phase := Idle, inputs := [],
        handled := q.handled + [Handled(env, q.inputs, reply)]);
      c.(procs := c.procs[p := q'],
         replies := if env.ticket.Some? then c.replies[env.ticket.value := reply] else c.replies)
  }

  function Step<D>(sys: System<D>, c: Config<D>, p: nat): (r: Config<D>)
    requires |sys.capacity| == |c.procs| && Enabled(sys, c, p)
    ensures |r.procs| == |c.procs|
  {
    match c.procs[p].phase
    case Idle => Receive(sys, c, p)
    case Waiting(l, _, t) => Resume(sys, c, p, l, if t in c.replies then Reply(c.replies[t]) else Stopped)
    case Running(l) =>
      match sys.act(p, l)
      case Finish(s, reply) => End(c, p, s, reply)
      case Event(to, m) =>
        if Gone(c, to) then Resume(sys, c, p, l, Stopped)
        else SendDone(Enqueue(c, to, Envelope(m, p, c.procs[p].sent, None)), p, Running(sys.resume(p, l, Sent)), [Sent])
      case Ask(to, m) =>
        if Gone(c, to) then Resume(sys, c, p, l, Stopped)
        else
          var t := c.nextTicket;
          var c' := Enqueue(c, to, Envelope(m, p, c.procs[p].sent, Some(t)));
          SendDone(c'.(nextTicket := t + 1), p, Waiting(l, to, t), [])
  }

  /** A task goes away, and its inbox with it. */
  function StopTask<D>(c: Config<D>, p: nat): (r: Config<D>)
    requires p < |c.procs|
    ensures |r.procs| == |c.procs|
  {
    c.(procs := c.procs[p := c.procs[p].(alive := false, inbox := [], current := None, phase := Idle, inputs := [])])
  }

  /** `p` is in the middle of a send or an ask. */
  predicate Pending<D>(sys: System<D>, c: Config<D>, p: nat) {
    && p < |c.procs| && c.procs[p].alive
    && match c.procs[p].phase
       case Idle => false
       case Running(l) => !sys.act(p, l).Finish?
       case Waiting(_, _, _) => true
  }

  /** A handler drops a send that has no room yet, or an ask that has no reply yet, and goes on. */
  function GiveUp<D>(sys: System<D>, c: Config<D>, p: nat): (r: Config<D>)
    requires Pending(sys, c, p)
    ensures |r.procs| == |c.procs|
  {
    Resume(sys, c, p, c.procs[p].phase.local, GaveUp)
  }

  datatype Happening = Move(p: nat) | Stop(p: nat) | Abandon(p: nat)

  predicate Possible<D>(sys: System<D>, c: Config<D>, h: Happening)
    requires |sys.capacity| == |c.procs|
  {
    match h
    case Move(p) => Enabled(sys, c, p)
    case Stop(p) => p < |c.procs| && c.procs[p].alive
    case Abandon(p) => Pending(sys, c, p)
  }

  function After<D>(sys: System<D>, c: Config<D>, h: Happening): (r: Config<D>)
    requires |sys.capacity| == |c.procs| && Possible(sys, c, h)
    ensures |r.procs| == |c.procs|
  {
    match h
    case Move(p) => Step(sys, c, p)
    case Stop(p) => StopTask(c, p)
    case Abandon(p) => GiveUp(sys, c, p)
  }

  /** Where a run ends up, if each of its steps was possible. */
  function Run<D>(sys: System<D>, hs: seq<Happening>): (r: Option<Config<D>>)
    requires |sys.initial| == |sys.program| == |sys.capacity|
    ensures r.Some? ==> |r.value.procs| == |sys.capacity|
  {
    if hs == [] then Some(Start(sys))
    else match Run(sys, hs[..|hs| - 1])
      case None => None
      case Some(c) => if Possible(sys, c, hs[|hs| - 1]) then Some(After(sys, c, hs[|hs| - 1])) else None
  }

  lemma RunOneMore<D>(sys: System<D>, hs: seq<Happening>, h: Happening)
    requires |sys.initial| == |sys.program| == |sys.capacity|
    requires Run(sys, hs).Some? && Possible(sys, Run(sys, hs).value, h)
    ensures Run(sys, hs + [h]) == Some(After(sys, Run(sys, hs).value, h))
  {
    assert (hs + [h])[..|hs|] == hs;
  }

  // ---- replaying handlers ------------------------------------------------------------------

  function Resumed<D>(sys: System<D>, p: nat, l: D, inputs: seq<Input<D>>): D {
    if inputs == [] then l
    else sys.resume(p, Resumed(sys, p, l, inputs[..|inputs| - 1]), inputs[|inputs| - 1])
  }

  /** What one handler does with a state and a message, given what its sends come back with. */
  function Outcome<D>(sys: System<D>, p: nat, s: D, h: Handled<D>): Action<D> {
    sys.act(p, Resumed(sys, p, sys.start(p, s, h.env.m), h.inputs))
  }

  /** The handlers applied one after the other. */
  function Replay<D>(sys: System<D>, p: nat, s: D, hs: seq<Handled<D>>): D {
    if hs == [] then s
    else
      var before := Replay(sys, p, s, hs[..|hs| - 1]);
      var a := Outcome(sys, p, before, hs[|hs| - 1]);
      if a.Finish? then a.state else before
  }

  function Envs<D>(hs: seq<Handled<D>>): (r: seq<Envelope<D>>)
    ensures |r| == |hs|
    ensures forall i :: 0 <= i < |hs| ==> r[i] == hs[i].env
  {
    seq(|hs|, i requires 0 <= i < |hs| => hs[i].env)
  }

  function InHand<D>(current: Option<Envelope<D>>): seq<Envelope<D>> {
    if current.Some? then [current.value] else []
  }

  /** Each handler in the log did end, with the recorded reply, from the state its predecessors left. */
  predicate Genuine<D(==)>(sys: System<D>, p: nat, s: D, hs: seq<Handled<D>>) {
    forall i :: 0 <= i < |hs| ==>
      var a := Outcome(sys, p, Replay(sys, p, s, hs[..i]), hs[i]);
      a.Finish? && a.reply == hs[i].reply
  }

  // ---- what holds of each process ------------------------------------------------------------

  /**
   The inbox is within its capacity; what was enqueued is what was handled, is being
   handled or is waiting, in order.
   */
  predicate Logged<D(==)>(sys: System<D>, p: nat, q: Proc<D>)
    requires p < |sys.capacity|
  {
    && |q.inbox| <= sys.capacity[p]
    && (q.alive ==> q.enqueued == Envs(q.handled) + InHand(q.current) + q.inbox)
    && Envs(q.handled) <= q.enqueued
  }

  /** The state is the fold of the handled messages; a running handler is partway through its message. */
  predicate Folded<D(==)>(sys: System<D>, p: nat, q: Proc<D>)
    requires p < |sys.initial|
  {
    && q.state == Replay(sys, p, sys.initial[p], q.handled)
    && Genuine(sys, p, sys.initial[p], q.handled)
    && (q.current.Some? ==>
         && !q.phase.Idle?
         && q.phase.local == Resumed(sys, p, sys.start(p, q.state, q.current.value.m), q.inputs))
  }

  lemma EndKeepsFolded<D>(sys: System<D>, p: nat, q: Proc<D>, s: D, reply: D, h: Handled<D>)
    requires p < |sys.initial| && Folded(sys, p, q) && q.current.Some? && q.phase.Running?
    requires sys.act(p, q.phase.local) == Finish(s, reply)
    requires h == Handled(q.current.value, q.inputs, reply)
    ensures Replay(sys, p, sys.initial[p], q.handled + [h]) == s
    ensures Genuine(sys, p, sys.initial[p], q.handled + [h])
  {
    var (s0, hs) := (sys.initial[p], q.handled + [h]);
    assert hs[..|hs| - 1] == q.handled;
    forall i | 0 <= i < |hs|
      ensures var a := Outcome(sys, p, Replay(sys, p, s0, hs[..i]), hs[i]);
        a.Finish? && a.reply == hs[i].reply
    {
      if i < |q.handled| {
        assert hs[..i] == q.handled[..i];
      }
    }
  }

  lemma ResumedStep<D>(sys: System<D>, p: nat, l: D, inputs: seq<Input<D>>, input: Input<D>)
    ensures Resumed(sys, p, l, inputs + [input]) == sys.resume(p, Resumed(sys, p, l, inputs), input)
  {
    assert (inputs + [input])[..|inputs|] == inputs;
  }

  lemma EnvsStep<D>(hs: seq<Handled<D>>, h: Handled<D>)
    ensures Envs(hs + [h]) == Envs(hs) + [h.env]
  {
  }

  predicate Sized<D>(sys: System<D>, c: Config<D>) {
    |sys.initial| == |sys.program| == |sys.capacity| == |c.procs|
  }

  predicate Sound<D(==)>(sys: System<D>, p: nat, q: Proc<D>)
    requires p < |sys.initial| == |sys.capacity|
  {
    Logged(sys, p, q) && Folded(sys, p, q)
  }

  predicate LocallySound<D(==)>(sys: System<D>, c: Config<D>)
    requires Sized(sys, c)
  {
    forall p :: 0 <= p < |c.procs| ==> Sound(sys, p, c.procs[p])
  }

  lemma ReplacedKeepsSound<D>(sys: System<D>, c: Config<D>, p: nat, q: Proc<D>)
    requires Sized(sys, c) && LocallySound(sys, c) && p < |c.procs| && Sound(sys, p, q)
    ensures LocallySound(sys, c.(procs := c.procs[p := q]))
  {
    hide Logged, Folded;
  }

  lemma EnqueueKeepsSound<D>(sys: System<D>, c: Config<D>, to: nat, env: Envelope<D>)
    requires Sized(sys, c) && LocallySound(sys, c)
    requires Room(sys, c, to) && c.procs[to].alive
    ensures LocallySound(sys, Enqueue(c, to, env))
  {
    hide Folded, LocallySound;
    assert Sound(sys, to, c.procs[to]) by {
      SoundAt(sys, c, to);
    }
    var q := c.procs[to];
    var q' := q.(inbox := q.inbox + [env], enqueued := q.enqueued + [env]);
    assert Folded(sys, to, q') by {
      FoldedSame(sys, to, q, q');
    }
    ReplacedKeepsSound(sys, c, to, q');
  }

  lemma SoundAt<D>(sys: System<D>, c: Config<D>, p: nat)
    requires Sized(sys, c) && LocallySound(sys, c) && p < |c.procs|
    ensures Sound(sys, p, c.procs[p])
  {
  }

  lemma FoldedSame<D>(sys: System<D>, p: nat, q: Proc<D>, q': Proc<D>)
    requires p < |sys.initial| && Folded(sys, p, q)
    requires q'.state == q.state && q'.handled == q.handled && q'.current == q.current
    requires q'.current.Some? ==> q'.phase == q.phase && q'.inputs == q.inputs
    ensures Folded(sys, p, q')
  {
  }

  /** A handler moves on by one result. */
  lemma AdvancedIsFolded<D>(sys: System<D>, p: nat, q: Proc<D>, q': Proc<D>)
    requires p < |sys.initial| && Folded(sys, p, q)
    requires q'.state == q.state && q'.handled == q.handled && q'.current == q.current
    requires !q.phase.Idle? && !q'.phase.Idle?
    requires
      || (q'.phase.local == q.phase.local && q'.inputs == q.inputs)
      || exists x :: q'.inputs == q.inputs + [x] && q'.phase.local == sys.resume(p, q.phase.local, x)
    ensures Folded(sys, p, q')
  {
    if q'.inputs != q.inputs && q.current.Some? {
      var x :| q'.inputs == q.inputs + [x] && q'.phase.local == sys.resume(p, q.phase.local, x);
      ResumedStep(sys, p, sys.start(p, q.state, q.current.value.m), q.inputs, x);
    }
  }

  lemma SendDoneKeepsSound<D>(sys: System<D>, c: Config<D>, p: nat, phase: Phase<D>, inputs: seq<Input<D>>)
    requires Sized(sys, c) && LocallySound(sys, c) && p < |c.procs|
    requires c.procs[p].phase.Running? && !phase.Idle?
    requires
      || (phase.local == c.procs[p].phase.local && inputs == [])
      || (phase.local == sys.resume(p, c.procs[p].phase.local, Sent) && inputs == [Sent])
    ensures LocallySound(sys, SendDone(c, p, phase, inputs))
  {
    hide LocallySound, Folded;
    SoundAt(sys, c, p);
    var q := c.procs[p];
    var q' := q.(phase := phase, sent := q.sent + 1, inputs := q.inputs + inputs);
    assert inputs == [] ==> q'.inputs == q.inputs;
    AdvancedIsFolded(sys, p, q, q');
    ReplacedKeepsSound(sys, c, p, q');
  }

  lemma ResumeKeepsSound<D>(sys: System<D>, c: Config<D>, p: nat, l: D, input: Input<D>)
    requires Sized(sys, c) && LocallySound(sys, c) && p < |c.procs|
    requires !c.procs[p].phase.Idle? && c.procs[p].phase.local == l
    ensures LocallySound(sys, Resume(sys, c, p, l, input))
  {
    hide LocallySound, Folded;
    SoundAt(sys, c, p);
    var q := c.procs[p];
    var q' := q.(phase := Running(sys.resume(p, l, input)), inputs := q.inputs + [input]);
    AdvancedIsFolded(sys, p, q, q');
    ReplacedKeepsSound(sys, c, p, q');
  }

  lemma ReceiveKeepsSound<D>(sys: System<D>, c: Config<D>, p: nat)
    requires Sized(sys, c) && LocallySound(sys, c) && p < |c.procs|
    requires c.procs[p].alive && c.procs[p].phase.Idle? && c.procs[p].inbox != []
    ensures LocallySound(sys, Receive(sys, c, p))
  {
    hide LocallySound, Genuine, Replay;
    SoundAt(sys, c, p);
    ReplacedKeepsSound(sys, c, p, Receive(sys, c, p).procs[p]);
  }

  lemma EndKeepsSound<D>(sys: System<D>, c: Config<D>, p: nat, s: D, reply: D)
    requires Sized(sys, c) && LocallySound(sys, c) && p < |c.procs|
    requires c.procs[p].alive && c.procs[p].phase.Running? && sys.act(p, c.procs[p].phase.local) == Finish(s, reply)
    ensures LocallySound(sys, End(c, p, s, reply))
  {
    hide LocallySound, Genuine, Replay;
    SoundAt(sys, c, p);
    var q := c.procs[p];
    if q.current.Some? {
      var h := Handled(q.current.value, q.inputs, reply);
      EndKeepsFolded(sys, p, q, s, reply, h);
      EnvsStep(q.handled, h);
    }
    var c' := End(c, p, s, reply);
    ReplacedKeepsSound(sys, c, p, c'.procs[p]);
    RepliesAside(sys, c.(procs := c.procs[p := c'.procs[p]]), c');
  }

  lemma RepliesAside<D>(sys: System<D>, c: Config<D>, c': Config<D>)
    requires Sized(sys, c) && LocallySound(sys, c) && c'.procs == c.procs
    ensures LocallySound(sys, c')
  {
  }

  lemma StopKeepsSound<D>(sys: System<D>, c: Config<D>, p: nat)
    requires Sized(sys, c) && LocallySound(sys, c) && p < |c.procs|
    ensures LocallySound(sys, StopTask(c, p))
  {
    hide LocallySound, Genuine, Replay;
    SoundAt(sys, c, p);
    ReplacedKeepsSound(sys, c, p, StopTask(c, p).procs[p]);
  }

  lemma StepKeepsSound<D>(sys: System<D>, c: Config<D>, p: nat)
    requires Sized(sys, c) && LocallySound(sys, c) && Enabled(sys, c, p)
    ensures LocallySound(sys, Step(sys, c, p))
  {
    hide LocallySound, Receive, Resume, End, Enqueue, SendDone;
    match c.procs[p].phase {
      case Idle =>
        ReceiveKeepsSound(sys, c, p);
      case Waiting(l, _, t) =>
        ResumeKeepsSound(sys, c, p, l, if t in c.replies then Reply(c.replies[t]) else Stopped);
      case Running(l) =>
        match sys.act(p, l) {
          case Finish(s, reply) =>
            EndKeepsSound(sys, c, p, s, reply);
          case Event(to, m) =>
            if Gone(c, to) {
              ResumeKeepsSound(sys, c, p, l, Stopped);
            } else {
              var env := Envelope(m, p, c.procs[p].sent, None);
              EnqueueKeepsSound(sys, c, to, env);
              EnqueueKeepsPhases(c, to, env, p);
              SendDoneKeepsSound(sys, Enqueue(c, to, env), p, Running(sys.resume(p, l, Sent)), [Sent]);
            }
          case Ask(to, m) =>
            if Gone(c, to) {
              ResumeKeepsSound(sys, c, p, l, Stopped);
            } else {
              var t := c.nextTicket;
              var env := Envelope(m, p, c.procs[p].sent, Some(t));
              var c' := Enqueue(c, to, env);
              EnqueueKeepsSound(sys, c, to, env);
              EnqueueKeepsPhases(c, to, env, p);
              RepliesAside(sys, c', c'.(nextTicket := t + 1));
              SendDoneKeepsSound(sys, c'.(nextTicket := t + 1), p, Waiting(l, to, t), []);
            }
        }
    }
  }

  lemma EnqueueKeepsPhases<D>(c: Config<D>, to: nat, env: Envelope<D>, p: nat)
    requires to < |c.procs| && p < |c.procs|
    ensures Enqueue(c, to, env).procs[p].phase == c.procs[p].phase
  {
  }

  lemma StartIsSound<D>(sys: System<D>)
    requires |sys.initial| == |sys.program| == |sys.capacity|
    ensures LocallySound(sys, Start(sys))
  {
  }

  lemma {:induction false} RunsAreSound<D>(sys: System<D>, hs: seq<Happening>)
    requires |sys.initial| == |sys.program| == |sys.capacity|
    requires Run(sys, hs).Some?
    ensures LocallySound(sys, Run(sys, hs).value)
  {
    hide LocallySound, Step, StopTask, Enabled;
    if hs == [] {
      StartIsSound(sys);
    } else {
      var (before, h) := (hs[..|hs| - 1], hs[|hs| - 1]);
      RunsAreSound(sys, before);
      var c := Run(sys, before).value;
      match h {
        case Move(p) => StepKeepsSound(sys, c, p);
        case Stop(p) => StopKeepsSound(sys, c, p);
        case Abandon(p) => ResumeKeepsSound(sys, c, p, c.procs[p].phase.local, GaveUp);
      }
    }
  }

  // ---- reply channels and the order of sends --------------------------------------------------

  /** Message `i` ever put in `p`'s inbox carries reply channel `t`. */
  predicate Asked<D>(c: Config<D>, p: nat, i: nat, t: nat) {
    p < |c.procs| && i < |c.procs[p].enqueued| && c.procs[p].enqueued[i].ticket == Some(t)
  }

  /** Handler run `i` of `p` answered `t`. */
  predicate Answered<D>(c: Config<D>, p: nat, i: nat, t: nat) {
    p < |c.procs| && i < |c.procs[p].handled| && c.procs[p].handled[i].env.ticket == Some(t)
  }

  /** Every reply channel belongs to one message. */
  ghost predicate OneAskEach<D>(c: Config<D>) {
    && (forall p: nat, i: nat, t: nat :: Asked(c, p, i, t) ==> t < c.nextTicket)
    && (forall p: nat, i: nat, q: nat, j: nat, t: nat :: Asked(c, p, i, t) && Asked(c, q, j, t) ==> p == q && i == j)
  }

  /** The replies sent are just those of the asks handled to their end. */
  ghost predicate RepliesAreResults<D>(c: Config<D>) {
    && (forall p: nat, i: nat, t: nat :: Answered(c, p, i, t) ==>
         t in c.replies && c.replies[t] == c.procs[p].handled[i].reply)
    && (forall t: nat :: t in c.replies ==> exists p: nat, i: nat :: Answered(c, p, i, t))
  }

  /** One sender's messages to one inbox are there in the order it sent them. */
  predicate InSendOrder<D>(log: seq<Envelope<D>>) {
    forall i, j :: 0 <= i < j < |log| && log[i].from == log[j].from ==> log[i].seqno < log[j].seqno
  }

  predicate SentBefore<D>(c: Config<D>, log: seq<Envelope<D>>) {
    forall i :: 0 <= i < |log| ==> log[i].from < |c.procs| && log[i].seqno < c.procs[log[i].from].sent
  }

  ghost predicate Ordered<D>(c: Config<D>) {
    forall q :: 0 <= q < |c.procs| ==> InSendOrder(c.procs[q].enqueued) && SentBefore(c, c.procs[q].enqueued)
  }

  /** Message `i` in `to`'s inbox, with reply channel `t`, is what `p` asked from `l`. */
  predicate AskedBy<D(==)>(sys: System<D>, c: Config<D>, p: nat, l: D, to: nat, i: nat, t: nat) {
    && Asked(c, to, i, t)
    && var env := c.procs[to].enqueued[i];
       env.from == p && sys.act(p, l) == Ask(to, env.m)
  }

  /** A waiting task waits for a message it did put in the inbox of a task it may send to. */
  ghost predicate WaitsRightly<D>(sys: System<D>, c: Config<D>, p: nat)
    requires p < |c.procs|
  {
    match c.procs[p].phase
    case Waiting(l, to, t) =>
      to < |c.procs| && (p, to) in sys.edges && exists i: nat :: AskedBy(sys, c, p, l, to, i, t)
    case _ => true
  }

  ghost predicate Linked<D>(sys: System<D>, c: Config<D>) {
    && OneAskEach(c) && RepliesAreResults(c) && Ordered(c)
    && forall p :: 0 <= p < |c.procs| ==> WaitsRightly(sys, c, p)
  }

  /** A step that sends nothing. */
  predicate NothingSent<D(==)>(c: Config<D>, c': Config<D>) {
    && |c'.procs| == |c.procs| && c'.nextTicket == c.nextTicket
    && forall q :: 0 <= q < |c.procs| ==>
      c'.procs[q].enqueued == c.procs[q].enqueued && c'.procs[q].sent == c.procs[q].sent
  }

  /** A step in which `env` is sent to `to`. */
  predicate OneSent<D(==)>(c: Config<D>, c': Config<D>, to: nat, env: Envelope<D>) {
    && |c'.procs| == |c.procs| && to < |c.procs| && env.from < |c.procs|
    && env.seqno == c.procs[env.from].sent
    && (env.ticket.Some? ==> env.ticket.value == c.nextTicket)
    && c'.nextTicket == c.nextTicket + (if env.ticket.Some? then 1 else 0)
    && forall q :: 0 <= q < |c.procs| ==>
      && c'.procs[q].enqueued == c.procs[q].enqueued + (if q == to then [env] else [])
      && c'.procs[q].sent == c.procs[q].sent + (if q == env.from then 1 else 0)
  }

  lemma NothingSentKeeps<D>(c: Config<D>, c': Config<D>)
    requires NothingSent(c, c') && OneAskEach(c) && Ordered(c)
    ensures OneAskEach(c') && Ordered(c')
    ensures forall p: nat, i: nat, t: nat :: Asked(c', p, i, t) <==> Asked(c, p, i, t)
  {
    assert forall p: nat, i: nat, t: nat :: Asked(c', p, i, t) <==> Asked(c, p, i, t);
    forall q | 0 <= q < |c'.procs| ensures InSendOrder(c'.procs[q].enqueued) && SentBefore(c', c'.procs[q].enqueued) {
      assert SentBefore(c, c.procs[q].enqueued);
    }
  }

  lemma OneSentAsks<D>(c: Config<D>, c': Config<D>, to: nat, env: Envelope<D>)
    requires OneSent(c, c', to, env)
    ensures forall p: nat, i: nat, t: nat :: Asked(c', p, i, t) <==>
      Asked(c, p, i, t) || (p == to && i == |c.procs[to].enqueued| && env.ticket == Some(t))
  {
  }

  lemma OneSentKeeps<D>(c: Config<D>, c': Config<D>, to: nat, env: Envelope<D>)
    requires OneSent(c, c', to, env) && OneAskEach(c) && Ordered(c)
    ensures OneAskEach(c') && Ordered(c')
  {
    OneSentAsks(c, c', to, env);
    assert OneAskEach(c') by {
      hide Asked, OneSent;
      assert env.ticket.Some? ==> env.ticket.value == c.nextTicket < c'.nextTicket by {
        OneSentTicket(c, c', to, env);
      }
      OneSentTicket(c, c', to, env);
    }
    forall q | 0 <= q < |c'.procs| ensures InSendOrder(c'.procs[q].enqueued) && SentBefore(c', c'.procs[q].enqueued) {
      hide OneAskEach, Asked;
      assert InSendOrder(c.procs[q].enqueued) && SentBefore(c, c.procs[q].enqueued);
    }
  }

  lemma OneSentTicket<D>(c: Config<D>, c': Config<D>, to: nat, env: Envelope<D>)
    requires OneSent(c, c', to, env)
    ensures c.nextTicket <= c'.nextTicket
    ensures env.ticket.Some? ==> env.ticket.value == c.nextTicket < c'.nextTicket
  {
  }

  /** No handler came to its end. */
  predicate NothingHandled<D(==)>(c: Config<D>, c': Config<D>) {
    && |c'.procs| == |c.procs| && c'.replies == c.replies
    && forall q :: 0 <= q < |c.procs| ==> c'.procs[q].handled == c.procs[q].handled
  }

  predicate OneHandled<D(==)>(c: Config<D>, c': Config<D>, p: nat, h: Handled<D>) {
    && |c'.procs| == |c.procs| && p < |c.procs|
    && c'.replies == (if h.env.ticket.Some? then c.replies[h.env.ticket.value := h.reply] else c.replies)
    && forall q :: 0 <= q < |c.procs| ==> c'.procs[q].handled == c.procs[q].handled + (if q == p then [h] else [])
  }

  lemma NothingHandledKeeps<D>(c: Config<D>, c': Config<D>)
    requires NothingHandled(c, c') && RepliesAreResults(c)
    ensures RepliesAreResults(c')
  {
    assert forall p: nat, i: nat, t: nat :: Answered(c', p, i, t) <==> Answered(c, p, i, t);
  }

  lemma OneHandledKeeps<D>(c: Config<D>, c': Config<D>, p: nat, h: Handled<D>)
    requires OneHandled(c, c', p, h) && RepliesAreResults(c)
    requires h.env.ticket.Some? ==> forall q: nat, j: nat :: !Answered(c, q, j, h.env.ticket.value)
    ensures RepliesAreResults(c')
    ensures h.env.ticket.Some? ==> h.env.ticket.value !in c.replies
  {
    assert forall q: nat, j: nat, t: nat :: Answered(c', q, j, t) <==>
      Answered(c, q, j, t) || (q == p && j == |c.procs[p].handled| && h.env.ticket == Some(t));
    forall t: nat | t in c'.replies ensures exists q: nat, j: nat :: Answered(c', q, j, t) {
      if t in c.replies {
        var q: nat, j: nat :| Answered(c, q, j, t);
        assert Answered(c', q, j, t);
      } else {
        assert Answered(c', p, |c.procs[p].handled|, t);
      }
    }
  }

  /** A message still in hand has not been answered: its channel is its own. */
  lemma InHandIsUnanswered<D>(sys: System<D>, c: Config<D>, p: nat, t: nat)
    requires Sized(sys, c) && LocallySound(sys, c) && OneAskEach(c)
    requires p < |c.procs| && c.procs[p].alive && c.procs[p].current.Some? && c.procs[p].current.value.ticket == Some(t)
    ensures forall q: nat, j: nat :: !Answered(c, q, j, t)
  {
    hide Folded, LocallySound;
    SoundAt(sys, c, p);
    assert Asked(c, p, |c.procs[p].handled|, t);
    forall q: nat, j: nat | Answered(c, q, j, t) ensures Asked(c, q, j, t) {
      AnsweredWasAsked(sys, c, q, j, t);
    }
  }

  lemma AnsweredWasAsked<D>(sys: System<D>, c: Config<D>, p: nat, i: nat, t: nat)
    requires Sized(sys, c) && LocallySound(sys, c) && Answered(c, p, i, t)
    ensures Asked(c, p, i, t)
  {
    hide Folded;
    SoundAt(sys, c, p);
    assert Envs(c.procs[p].handled)[i] == c.procs[p].enqueued[i];
  }

  /** What `p`'s next step puts in which inbox. */
  function Sends<D>(sys: System<D>, c: Config<D>, p: nat): Option<(nat, Envelope<D>)>
    requires p < |c.procs|
  {
    if !c.procs[p].phase.Running? then None
    else
      match sys.act(p, c.procs[p].phase.local)
      case Finish(_, _) => None
      case Event(to, m) => if Gone(c, to) then None else Some((to, Envelope(m, p, c.procs[p].sent, None)))
      case Ask(to, m) => if Gone(c, to) then None else Some((to, Envelope(m, p, c.procs[p].sent, Some(c.nextTicket))))
  }

  /** The handler run that `p`'s next step brings to its end. */
  function Completes<D>(sys: System<D>, c: Config<D>, p: nat): Option<Handled<D>>
    requires p < |c.procs|
  {
    if !c.procs[p].phase.Running? || c.procs[p].current.None? then None
    else
      match sys.act(p, c.procs[p].phase.local)
      case Finish(_, reply) => Some(Handled(c.procs[p].current.value, c.procs[p].inputs, reply))
      case _ => None
  }

  lemma StepSends<D>(sys: System<D>, c: Config<D>, p: nat)
    requires Sized(sys, c) && Enabled(sys, c, p)
    ensures Sends(sys, c, p).None? ==> NothingSent(c, Step(sys, c, p))
    ensures Sends(sys, c, p).Some? ==> OneSent(c, Step(sys, c, p), Sends(sys, c, p).value.0, Sends(sys, c, p).value.1)
  {
  }

  lemma StepHandles<D>(sys: System<D>, c: Config<D>, p: nat)
    requires Sized(sys, c) && Enabled(sys, c, p)
    ensures Completes(sys, c, p).None? ==> NothingHandled(c, Step(sys, c, p))
    ensures Completes(sys, c, p).Some? ==> OneHandled(c, Step(sys, c, p), p, Completes(sys, c, p).value)
  {
  }

  /** A task that is waiting after the step was waiting before, or has just asked. */
  lemma StepWaits<D>(sys: System<D>, c: Config<D>, p: nat, q: nat)
    requires Sized(sys, c) && Enabled(sys, c, p) && q < |c.procs|
    ensures Step(sys, c, p).procs[q].phase.Waiting? ==>
      var phase := Step(sys, c, p).procs[q].phase;
      || phase == c.procs[q].phase
      || (q == p && c.procs[p].phase.Running? && phase.local == c.procs[p].phase.local && Sends(sys, c, p).Some?
          && var (to, env) := Sends(sys, c, p).value;
             sys.act(p, phase.local) == Ask(to, env.m) && phase.to == to && env.ticket == Some(phase.ticket)
             && env.from == p)
  {
  }

  lemma StepKeepsLinked<D(!new)>(sys: System<D>, c: Config<D>, p: nat)
    requires WellFormed(sys) && Sized(sys, c) && LocallySound(sys, c) && Linked(sys, c) && Enabled(sys, c, p)
    ensures Linked(sys, Step(sys, c, p))
  {
    hide Step, Enabled, OneAskEach, Ordered, RepliesAreResults, Sends, Completes, OneSent, NothingSent, Asked,
      LocallySound;
    var c' := Step(sys, c, p);
    StepKeepsAsks(sys, c, p);
    StepKeepsReplies(sys, c, p);
    forall q | 0 <= q < |c'.procs| ensures WaitsRightly(sys, c', q) {
      StepWaits(sys, c, p, q);
      assert WaitsRightly(sys, c, q);
      if c'.procs[q].phase.Waiting? && c'.procs[q].phase != c.procs[q].phase {
        assert SendsAlong(sys, p, sys.act(p, c.procs[p].phase.local));
        JustAsked(sys, c, p);
      } else if c'.procs[q].phase.Waiting? {
        var (l, to, t) := (c.procs[q].phase.local, c.procs[q].phase.to, c.procs[q].phase.ticket);
        var i: nat :| AskedBy(sys, c, q, l, to, i, t);
        StillAsked(sys, c, c', q, l, to, i, t);
      }
    }
  }

  lemma JustAsked<D>(sys: System<D>, c: Config<D>, p: nat)
    requires Sized(sys, c) && Enabled(sys, c, p) && c.procs[p].phase.Running?
    requires Sends(sys, c, p).Some? && Sends(sys, c, p).value.1.ticket.Some?
    requires var (to, env) := Sends(sys, c, p).value;
      env.from == p && sys.act(p, c.procs[p].phase.local) == Ask(to, env.m)
    ensures var (to, env) := Sends(sys, c, p).value;
      exists i: nat :: AskedBy(sys, Step(sys, c, p), p, c.procs[p].phase.local, to, i, env.ticket.value)
  {
    hide Step, Sends;
    StepSends(sys, c, p);
    var (to, env) := Sends(sys, c, p).value;
    assert AskedBy(sys, Step(sys, c, p), p, c.procs[p].phase.local, to, |c.procs[to].enqueued|, env.ticket.value);
  }

  predicate LogsGrow<D(==)>(c: Config<D>, c': Config<D>) {
    |c'.procs| == |c.procs| && forall q :: 0 <= q < |c.procs| ==> c.procs[q].enqueued <= c'.procs[q].enqueued
  }

  lemma StillAsked<D>(sys: System<D>, c: Config<D>, c': Config<D>, p: nat, l: D, to: nat, i: nat, t: nat)
    requires LogsGrow(c, c') && AskedBy(sys, c, p, l, to, i, t)
    ensures AskedBy(sys, c', p, l, to, i, t)
  {
    assert c.procs[to].enqueued <= c'.procs[to].enqueued;
  }

  lemma StepKeepsAsks<D>(sys: System<D>, c: Config<D>, p: nat)
    requires Sized(sys, c) && Enabled(sys, c, p) && OneAskEach(c) && Ordered(c)
    ensures OneAskEach(Step(sys, c, p)) && Ordered(Step(sys, c, p)) && LogsGrow(c, Step(sys, c, p))
  {
    hide Step, Sends, Asked, OneAskEach, Ordered;
    StepSends(sys, c, p);
    if Sends(sys, c, p).None? {
      NothingSentKeeps(c, Step(sys, c, p));
    } else {
      var (to, env) := Sends(sys, c, p).value;
      OneSentKeeps(c, Step(sys, c, p), to, env);
    }
  }

  lemma StepKeepsReplies<D>(sys: System<D>, c: Config<D>, p: nat)
    requires Sized(sys, c) && LocallySound(sys, c) && Enabled(sys, c, p) && OneAskEach(c) && RepliesAreResults(c)
    ensures RepliesAreResults(Step(sys, c, p))
    ensures forall t: nat :: t in c.replies ==>
      t in Step(sys, c, p).replies && Step(sys, c, p).replies[t] == c.replies[t]
  {
    hide Step, RepliesAreResults, LocallySound, OneAskEach, Answered;
    StepHandles(sys, c, p);
    var h := Completes(sys, c, p);
    if h.None? {
      NothingHandledKeeps(c, Step(sys, c, p));
    } else {
      if h.value.env.ticket.Some? {
        InHandIsUnanswered(sys, c, p, h.value.env.ticket.value);
      }
      OneHandledKeeps(c, Step(sys, c, p), p, h.value);
    }
  }

  lemma StopKeepsLinked<D>(sys: System<D>, c: Config<D>, p: nat)
    requires Sized(sys, c) && Linked(sys, c) && p < |c.procs|
    ensures Linked(sys, StopTask(c, p))
    ensures StopTask(c, p).replies == c.replies
  {
    hide OneAskEach, Ordered, RepliesAreResults, Asked;
    var c' := StopTask(c, p);
    NothingSentKeeps(c, c');
    NothingHandledKeeps(c, c');
    forall q | 0 <= q < |c'.procs| ensures WaitsRightly(sys, c', q) {
      assert WaitsRightly(sys, c, q);
      if c'.procs[q].phase.Waiting? {
        var (l, to, t) := (c.procs[q].phase.local, c.procs[q].phase.to, c.procs[q].phase.ticket);
        var i: nat :| AskedBy(sys, c, q, l, to, i, t);
        StillAsked(sys, c, c', q, l, to, i, t);
      }
    }
  }

  lemma GiveUpKeepsLinked<D>(sys: System<D>, c: Config<D>, p: nat)
    requires Sized(sys, c) && Linked(sys, c) && Pending(sys, c, p)
    ensures Linked(sys, GiveUp(sys, c, p))
    ensures GiveUp(sys, c, p).replies == c.replies
  {
    hide OneAskEach, Ordered, RepliesAreResults, Asked;
    var c' := GiveUp(sys, c, p);
    NothingSentKeeps(c, c');
    NothingHandledKeeps(c, c');
    forall q | 0 <= q < |c'.procs| ensures WaitsRightly(sys, c', q) {
      assert WaitsRightly(sys, c, q);
      if c'.procs[q].phase.Waiting? {
        var (l, to, t) := (c.procs[q].phase.local, c.procs[q].phase.to, c.procs[q].phase.ticket);
        var i: nat :| AskedBy(sys, c, q, l, to, i, t);
        StillAsked(sys, c, c', q, l, to, i, t);
      }
    }
  }

  lemma StartIsLinked<D>(sys: System<D>)
    requires |sys.initial| == |sys.program| == |sys.capacity|
    ensures Linked(sys, Start(sys))
  {
  }

  lemma {:induction false} RunsAreLinked<D(!new)>(sys: System<D>, hs: seq<Happening>)
    requires WellFormed(sys) && Run(sys, hs).Some?
    ensures Linked(sys, Run(sys, hs).value)
  {
    hide LocallySound, Linked, Step, StopTask, Enabled;
    if hs == [] {
      StartIsLinked(sys);
    } else {
      var (before, h) := (hs[..|hs| - 1], hs[|hs| - 1]);
      RunsAreSound(sys, before);
      RunsAreLinked(sys, before);
      var c := Run(sys, before).value;
      match h {
        case Move(p) => StepKeepsLinked(sys, c, p);
        case Stop(p) => StopKeepsLinked(sys, c, p);
        case Abandon(p) => GiveUpKeepsLinked(sys, c, p);
      }
    }
  }

  // ---- safety over every run ---------------------------------------------------------------------

  /** No inbox ever exceeds its capacity. */
  lemma InboxesAreBounded<D>(sys: System<D>, hs: seq<Happening>, p: nat)
    requires |sys.initial| == |sys.program| == |sys.capacity|
    requires Run(sys, hs).Some? && p < |sys.capacity|
    ensures |Run(sys, hs).value.procs[p].inbox| <= sys.capacity[p]
  {
    RunsAreSound(sys, hs);
    SoundAt(sys, Run(sys, hs).value, p);
  }

  /**
   An actor's state is the fold of its handlers over the messages handled, which are
   the first of those enqueued, in that order; while it lives, the rest are the one
   in hand and those in its inbox.
   */
  lemma ActorsAreSerial<D>(sys: System<D>, hs: seq<Happening>, p: nat)
    requires |sys.initial| == |sys.program| == |sys.capacity|
    requires Run(sys, hs).Some? && p < |sys.capacity|
    ensures var q := Run(sys, hs).value.procs[p];
      && q.state == Replay(sys, p, sys.initial[p], q.handled)
      && Genuine(sys, p, sys.initial[p], q.handled)
      && Envs(q.handled) <= q.enqueued
      && (q.alive ==> q.enqueued == Envs(q.handled) + InHand(q.current) + q.inbox)
  {
    hide Replay, Genuine;
    RunsAreSound(sys, hs);
    SoundAt(sys, Run(sys, hs).value, p);
  }

  /**
   Each reply was computed by one handler run, from the state that the messages
   enqueued before the ask, and no others, leave.
   */
  lemma RepliesAreSerial<D(!new)>(sys: System<D>, hs: seq<Happening>, t: nat) returns (p: nat, i: nat)
    requires WellFormed(sys) && Run(sys, hs).Some? && t in Run(sys, hs).value.replies
    ensures var c := Run(sys, hs).value;
      && Asked(c, p, i, t) && (forall q: nat, j: nat :: Asked(c, q, j, t) ==> q == p && j == i)
      && i < |c.procs[p].handled| && Envs(c.procs[p].handled[..i]) == c.procs[p].enqueued[..i]
      && var a := Outcome(sys, p, Replay(sys, p, sys.initial[p], c.procs[p].handled[..i]), c.procs[p].handled[i]);
         a.Finish? && c.replies[t] == a.reply
  {
    hide Outcome, Replay;
    RunsAreLinked(sys, hs);
    var c := Run(sys, hs).value;
    p, i :| Answered(c, p, i, t);
    ActorsAreSerial(sys, hs, p);
    var (handled, enqueued) := (c.procs[p].handled, c.procs[p].enqueued);
    assert Envs(handled)[i] == enqueued[i];
    assert Asked(c, p, i, t);
    assert Envs(handled[..i]) == Envs(handled)[..i] == enqueued[..|handled|][..i];
  }

  /**
   What a waiting asker goes on with: the reply that the actor it asked computed
   for that very ask, from the state the messages enqueued before it leave, or,
   if there is none, word that the actor has stopped.
   */
  lemma AskersGetTheirReplies<D(!new)>(sys: System<D>, hs: seq<Happening>, p: nat) returns (i: nat)
    requires WellFormed(sys) && Run(sys, hs).Some? && Run(sys, hs + [Move(p)]).Some?
    requires Run(sys, hs).value.procs[p].phase.Waiting?
    ensures var (c, c') := (Run(sys, hs).value, Run(sys, hs + [Move(p)]).value);
      var (l, to, t) := (c.procs[p].phase.local, c.procs[p].phase.to, c.procs[p].phase.ticket);
      && AskedBy(sys, c, p, l, to, i, t)
      && if t in c.replies then
           && i < |c.procs[to].handled| && Envs(c.procs[to].handled[..i]) == c.procs[to].enqueued[..i]
           && var a := Outcome(sys, to, Replay(sys, to, sys.initial[to], c.procs[to].handled[..i]),
                               c.procs[to].handled[i]);
              a.Finish? && c'.procs[p].phase == Running(sys.resume(p, l, Reply(a.reply)))
         else !c.procs[to].alive && c'.procs[p].phase == Running(sys.resume(p, l, Stopped))
  {
    hide Outcome, Replay, OneAskEach, RepliesAreResults, Ordered, Asked;
    RunsAreLinked(sys, hs);
    var c := Run(sys, hs).value;
    assert (hs + [Move(p)])[..|hs|] == hs;
    assert WaitsRightly(sys, c, p);
    var (l, to, t) := (c.procs[p].phase.local, c.procs[p].phase.to, c.procs[p].phase.ticket);
    i :| AskedBy(sys, c, p, l, to, i, t);
    if t in c.replies {
      var q, j := RepliesAreSerial(sys, hs, t);
    }
  }

  predicate SameLogs<D(==)>(c: Config<D>, c': Config<D>) {
    |c'.procs| == |c.procs| && forall q :: 0 <= q < |c.procs| ==> c'.procs[q].enqueued == c.procs[q].enqueued
  }

  /**
   What a sender is told is so: its message is in the inbox, last, or it has been
   told that the actor has stopped or has given up, and nothing is in any inbox.
   */
  lemma SendersAreToldTheTruth<D(!new)>(sys: System<D>, hs: seq<Happening>, h: Happening)
    requires WellFormed(sys) && Run(sys, hs).Some? && Run(sys, hs + [h]).Some? && (h.Move? || h.Abandon?)
    requires var q := Run(sys, hs).value.procs[h.p]; q.phase.Running? && !sys.act(h.p, q.phase.local).Finish?
    ensures var (c, c') := (Run(sys, hs).value, Run(sys, hs + [h]).value);
      var (l, phase) := (c.procs[h.p].phase.local, c'.procs[h.p].phase);
      var a := sys.act(h.p, l);
      if h.Abandon? then phase == Running(sys.resume(h.p, l, GaveUp)) && SameLogs(c, c')
      else if !c.procs[a.to].alive then phase == Running(sys.resume(h.p, l, Stopped)) && SameLogs(c, c')
      else
        && OneSent(c, c', a.to, Envelope(a.m, h.p, c.procs[h.p].sent, if a.Ask? then Some(c.nextTicket) else None))
        && phase == if a.Ask? then Waiting(l, a.to, c.nextTicket) else Running(sys.resume(h.p, l, Sent))
  {
    assert (hs + [h])[..|hs|] == hs;
    var c := Run(sys, hs).value;
    assert SendsAlong(sys, h.p, sys.act(h.p, c.procs[h.p].phase.local));
  }

  /** No reply channel is answered by two handler runs, in one actor or in two. */
  lemma AsksAreAnsweredOnce<D(!new)>(sys: System<D>, hs: seq<Happening>, t: nat, p: nat, i: nat, q: nat, j: nat)
    requires WellFormed(sys) && Run(sys, hs).Some?
    requires Answered(Run(sys, hs).value, p, i, t) && Answered(Run(sys, hs).value, q, j, t)
    ensures p == q && i == j
  {
    hide Run, Linked, LocallySound, Answered, Asked;
    RunsAreSound(sys, hs);
    RunsAreLinked(sys, hs);
    var c := Run(sys, hs).value;
    LinkedParts(sys, c);
    AnsweredWasAsked(sys, c, p, i, t);
    AnsweredWasAsked(sys, c, q, j, t);
  }

  /** A reply, once sent, keeps its value. */
  lemma RepliesAreFinal<D(!new)>(sys: System<D>, hs: seq<Happening>, h: Happening, t: nat)
    requires WellFormed(sys) && Run(sys, hs).Some? && Run(sys, hs + [h]).Some?
    requires t in Run(sys, hs).value.replies
    ensures t in Run(sys, hs + [h]).value.replies
    ensures Run(sys, hs + [h]).value.replies[t] == Run(sys, hs).value.replies[t]
  {
    hide Step, StopTask, Linked, LocallySound;
    var all := hs + [h];
    assert all[..|all| - 1] == hs;
    RunsAreSound(sys, hs);
    RunsAreLinked(sys, hs);
    var c := Run(sys, hs).value;
    LinkedParts(sys, c);
    match h {
      case Move(p) => StepKeepsReplies(sys, c, p);
      case Stop(p) => StopKeepsLinked(sys, c, p);
      case Abandon(p) => GiveUpKeepsLinked(sys, c, p);
    }
  }

  lemma LinkedParts<D>(sys: System<D>, c: Config<D>)
    requires Linked(sys, c)
    ensures OneAskEach(c) && RepliesAreResults(c) && Ordered(c)
  {
  }

  /** By the time a message has been handled, so has everything its sender sent there before it. */
  lemma EarlierSendsAreSeen<D(!new)>(sys: System<D>, hs: seq<Happening>, p: nat, i: nat, j: nat)
    requires WellFormed(sys) && Run(sys, hs).Some? && p < |sys.capacity|
    requires var q := Run(sys, hs).value.procs[p];
      && i < |q.enqueued| && j < |q.handled|
      && q.enqueued[i].from == q.handled[j].env.from && q.enqueued[i].seqno < q.handled[j].env.seqno
    ensures var q := Run(sys, hs).value.procs[p];
      i < j && q.handled[i].env == q.enqueued[i]
  {
    hide Replay, Genuine, Run;
    RunsAreLinked(sys, hs);
    ActorsAreSerial(sys, hs, p);
    var q := Run(sys, hs).value.procs[p];
    assert InSendOrder(q.enqueued);
    EarlierInLog(q.enqueued, q.handled, i, j);
  }

  lemma EarlierInLog<D>(log: seq<Envelope<D>>, handled: seq<Handled<D>>, i: nat, j: nat)
    requires InSendOrder(log) && Envs(handled) <= log && i < |log| && j < |handled|
    requires log[i].from == handled[j].env.from && log[i].seqno < handled[j].env.seqno
    ensures i < j && handled[i].env == log[i]
  {
    assert Envs(handled)[j] == log[j];
    if i < |handled| {
      assert Envs(handled)[i] == log[i];
    }
  }

  // ---- deadlock -----------------------------------------------------------------------------------

  predicate Walk(edges: set<(nat, nat)>, w: seq<nat>) {
    forall i :: 0 <= i < |w| - 1 ==> (w[i], w[i + 1]) in edges
  }

  /** No walk of one edge or more comes back to where it began. */
  ghost predicate Acyclic(edges: set<(nat, nat)>) {
    forall w :: |w| >= 2 && Walk(edges, w) ==> w[0] != w[|w| - 1]
  }

  /** `p` has no edge to a member of `s`. */
  ghost predicate LeadsOut(edges: set<(nat, nat)>, s: set<nat>, p: nat) {
    forall q :: q in s ==> (p, q) !in edges
  }

  /** A set each of whose members has an edge into it can be walked for ever. */
  lemma {:induction false} LongWalk(edges: set<(nat, nat)>, s: set<nat>, n: nat) returns (w: seq<nat>)
    requires s != {} && forall p :: p in s ==> !LeadsOut(edges, s, p)
    ensures |w| == n + 1 && Walk(edges, w) && forall i :: 0 <= i < |w| ==> w[i] in s
  {
    if n == 0 {
      var p :| p in s;
      w := [p];
    } else {
      var v := LongWalk(edges, s, n - 1);
      assert !LeadsOut(edges, s, v[n - 1]);
      var q :| q in s && (v[n - 1], q) in edges;
      w := v + [q];
    }
  }

  lemma {:induction false} Pigeonhole(s: set<nat>, w: seq<nat>) returns (i: nat, j: nat)
    requires |w| > |s| && forall k :: 0 <= k < |w| ==> w[k] in s
    ensures i < j < |w| && w[i] == w[j]
  {
    var last := w[|w| - 1];
    var rest := w[..|w| - 1];
    if last in rest {
      i :| 0 <= i < |rest| && rest[i] == last;
      j := |w| - 1;
    } else {
      i, j := Pigeonhole(s - {last}, rest);
    }
  }

  /** A set each of whose members has an edge into it has a cycle in it. */
  lemma CycleWithin(edges: set<(nat, nat)>, s: set<nat>) returns (loop: seq<nat>)
    requires s != {} && forall p :: p in s ==> !LeadsOut(edges, s, p)
    ensures |loop| >= 2 && Walk(edges, loop) && loop[0] == loop[|loop| - 1]
  {
    hide LeadsOut;
    var w := LongWalk(edges, s, |s|);
    var i, j := Pigeonhole(s, w);
    loop := w[i..j + 1];
  }

  lemma AcyclicLeadsOut(edges: set<(nat, nat)>, s: set<nat>) returns (p: nat)
    requires Acyclic(edges) && s != {}
    ensures p in s && LeadsOut(edges, s, p)
  {
    hide LeadsOut;
    if forall q :: q in s ==> !LeadsOut(edges, s, q) {
      var loop := CycleWithin(edges, s);
      assert false;
    }
    p :| p in s && LeadsOut(edges, s, p);
  }

  /** Something is left to do: a message to handle, or a handler or program to finish. */
  predicate HasWork<D>(c: Config<D>, p: nat) {
    p < |c.procs| && c.procs[p].alive && (c.procs[p].inbox != [] || !c.procs[p].phase.Idle?)
  }

  /** An ask put in the inbox of a living task is answered, or that task has work. */
  lemma AskIsPending<D>(sys: System<D>, c: Config<D>, to: nat, i: nat, t: nat)
    requires Sized(sys, c) && LocallySound(sys, c) && RepliesAreResults(c)
    requires Asked(c, to, i, t) && c.procs[to].alive
    ensures t in c.replies || HasWork(c, to)
  {
    hide Folded, LocallySound;
    SoundAt(sys, c, to);
    var q := c.procs[to];
    if i < |q.handled| {
      assert Envs(q.handled)[i] == q.enqueued[i];
      assert Answered(c, to, i, t);
    }
    BusyInHand(sys, to, q);
  }

  /** A task that has work can move, or is held up by a task it may send to that has work too. */
  lemma FreeOrHeldUp<D(!new)>(sys: System<D>, c: Config<D>, p: nat)
    requires WellFormed(sys) && Sized(sys, c) && LocallySound(sys, c) && Linked(sys, c)
    requires HasWork(c, p)
    ensures Enabled(sys, c, p) || exists to: nat :: (p, to) in sys.edges && HasWork(c, to)
  {
    hide LocallySound, RepliesAreResults, OneAskEach, Ordered, Asked;
    match c.procs[p].phase {
      case Idle =>
      case Running(l) =>
        assert SendsAlong(sys, p, sys.act(p, l));
      case Waiting(l, to, t) =>
        assert WaitsRightly(sys, c, p);
        if c.procs[to].alive {
          var i: nat :| AskedBy(sys, c, p, l, to, i, t);
          AskIsPending(sys, c, to, i, t);
        }
    }
  }

  lemma BusyInHand<D>(sys: System<D>, p: nat, q: Proc<D>)
    requires p < |sys.initial| == |sys.capacity| && Sound(sys, p, q)
    ensures q.current.Some? ==> !q.phase.Idle?
    ensures q.alive && |q.enqueued| > |q.handled| ==> q.current.Some? || q.inbox != []
  {
  }

  /**
   When no task can, through any chain of sends, send to itself, then in every state
   of every run in which something is left to do, some task can take a step.
   */
  lemma DeadlockFree<D(!new)>(sys: System<D>, hs: seq<Happening>, p: nat) returns (free: nat)
    requires WellFormed(sys) && Acyclic(sys.edges)
    requires Run(sys, hs).Some? && HasWork(Run(sys, hs).value, p)
    ensures Enabled(sys, Run(sys, hs).value, free)
  {
    hide Enabled, LocallySound, Linked, Acyclic, WellFormed;
    assert |sys.initial| == |sys.program| == |sys.capacity| by {
      WellFormedSizes(sys);
    }
    RunsAreSound(sys, hs);
    RunsAreLinked(sys, hs);
    var c := Run(sys, hs).value;
    var busy := set q: nat | 0 <= q < |c.procs| && HasWork(c, q);
    assert forall q: nat :: HasWork(c, q) ==> q in busy;
    free := AcyclicLeadsOut(sys.edges, busy);
    FreeOrHeldUp(sys, c, free);
  }

  lemma WellFormedSizes<D(!new)>(sys: System<D>)
    requires WellFormed(sys)
    ensures |sys.initial| == |sys.program| == |sys.capacity|
  {
  }
}
