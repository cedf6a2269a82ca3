/**
 * The probe worker pool as a machine of atomic steps: the scheduler's enqueue (a set
 * insert, then a channel send), the dispatcher, the workers with their drop guards, and
 * shutdown. A step that is not enabled changes nothing, so every sequence of actions is a
 * run and every interleaving of the tasks is one of them.
 */
module WorkerPool {
  import opened Common
  import opened Net

  const U64_MAX: nat := 0xffff_ffff_ffff_ffff

  /** Beyond this the bounded channel refuses to be created. */
  const MAX_THREADS: nat := 0x0800_0000_0000_0000 - 1

  datatype Outcome = Accepted | Duplicate | Full | Closed

  /** Where the single producer stands inside `try_enqueue`. */
  datatype Producer =
    | Idle
    | Inserted(addr: NetAddress)
    | Refused(addr: NetAddress, why: Outcome)

  /**
   * A task of the join set: spawned but not yet polled, holding its guard while it works on
   * `job`, its guard half dropped (gauge down, address not yet removed), or over.
   */
  datatype Stage<+J> = Spawned | Live(job: J) | Dropping | Finished

  datatype Worker<+J> = Worker(addr: NetAddress, stage: Stage<J>)

  datatype Phase = Running | Draining | Ended

  /** `leaked` records the entries that shutdown leaves behind; the program does not keep it. */
  datatype Pool<+J> = Pool(
    threads: nat,
    inFlight: set<NetAddress>,
    producer: Producer,
    queue: seq<NetAddress>,
    received: Option<NetAddress>,
    workers: seq<Worker<J>>,
    gauge: nat,
    cancelled: bool,
    phase: Phase,
    leaked: seq<NetAddress>)

  datatype Action<+J> =
    | Insert(addr: NetAddress)
    | Send
    | Withdraw
    | Receive
    | Spawn
    | Start(i: nat, job: J)
    | Work(i: nat, job: J)
    | Release(i: nat)
    | Remove(i: nat)
    | Join(i: nat)
    | Cancel
    | Break
    | Abort(i: nat)
    | End

  function NewPool<J>(threads: nat): Pool<J> {
    Pool(if threads == 0 then 1 else threads, {}, Idle, [], None, [], 0, false, Running, [])
  }

  /** The channel holds `CHANNEL_PER_THREAD`, that is four, addresses per thread. */
  function Capacity(p: Pool): nat {
    4 * p.threads
  }

  function SetStage<J>(ws: seq<Worker<J>>, i: nat, s: Stage<J>): seq<Worker<J>>
    requires i < |ws|
  {
    ws[i := ws[i].(stage := s)]
  }

  function Next<J>(p: Pool<J>, a: Action<J>): Pool<J> {
    match a
    case Insert(addr) =>
      if p.producer.Idle? && addr !in p.inFlight
      then p.(inFlight := p.inFlight + {addr}, producer := Inserted(addr)) else p
    case Send =>
      if !p.producer.Inserted? then p
      else if p.phase.Ended? then p.(producer := Refused(p.producer.addr, Closed))
      else if |p.queue| >= Capacity(p) then p.(producer := Refused(p.producer.addr, Full))
      else p.(queue := p.queue + [p.producer.addr], producer := Idle)
    case Withdraw =>
      if p.producer.Refused?
      then p.(inFlight := p.inFlight - {p.producer.addr}, producer := Idle) else p
    case Receive =>
      if p.phase.Running? && p.received.None? && |p.workers| < p.threads && p.queue != []
      then p.(received := Some(p.queue[0]), queue := p.queue[1..]) else p
    case Spawn =>
      if p.received.Some?
      then p.(workers := p.workers + [Worker(p.received.value, Spawned)], received := None) else p
    case Start(i, job) =>
      if i < |p.workers| && p.workers[i].stage.Spawned?
      then
        p.(workers := SetStage(p.workers, i, Live(job)), gauge := if p.gauge == U64_MAX then 0 else p.gauge + 1)
      else p
    case Work(i, job) =>
      if i < |p.workers| && p.workers[i].stage.Live?
      then p.(workers := SetStage(p.workers, i, Live(job))) else p
    case Release(i) =>
      if i < |p.workers| && p.workers[i].stage.Live?
      then
        p.(workers := SetStage(p.workers, i, Dropping), gauge := if p.gauge == 0 then U64_MAX else p.gauge - 1)
      else p
    case Remove(i) =>
      if i < |p.workers| && p.workers[i].stage.Dropping?
      then p.(workers := SetStage(p.workers, i, Finished), inFlight := p.inFlight - {p.workers[i].addr}) else p
    case Join(i) =>
      if i < |p.workers| && p.workers[i].stage.Finished?
      then p.(workers := p.workers[..i] + p.workers[i + 1..]) else p
    case Cancel => p.(cancelled := true)
    case Break =>
      if p.phase.Running? && p.cancelled && p.received.None? then p.(phase := Draining) else p
    case Abort(i) =>
      if p.phase.Draining? && i < |p.workers| && p.workers[i].stage.Spawned?
      then p.(workers := SetStage(p.workers, i, Finished), leaked := p.leaked + [p.workers[i].addr]) else p
    case End =>
      if p.phase.Draining? && p.workers == []
      then p.(phase := Ended, queue := [], leaked := p.leaked + p.queue) else p
  }

  function Run<J>(p: Pool<J>, run: seq<Action<J>>): Pool<J> {
    if run == [] then p else Next(Run(p, run[..|run| - 1]), run[|run| - 1])
  }

  // ------------------------------------------------------------------- ownership

  function Count(s: seq<NetAddress>, a: NetAddress): nat {
    if s == [] then 0 else (if s[0] == a then 1 else 0) + Count(s[1..], a)
  }

  function One<J>(w: Worker<J>, a: NetAddress): nat {
    if !w.stage.Finished? && w.addr == a then 1 else 0
  }

  /** The workers on `a` whose in-flight entry is still to be removed. */
  function Holding<J>(ws: seq<Worker<J>>, a: NetAddress): nat {
    if ws == [] then 0 else One(ws[0], a) + Holding(ws[1..], a)
  }

  function OneLive<J>(w: Worker<J>): nat {
    if w.stage.Live? then 1 else 0
  }

  function LiveGuards<J>(ws: seq<Worker<J>>): nat {
    if ws == [] then 0 else OneLive(ws[0]) + LiveGuards(ws[1..])
  }

  function Enqueuing(p: Producer, a: NetAddress): nat {
    if !p.Idle? && p.addr == a then 1 else 0
  }

  function InHand(r: Option<NetAddress>, a: NetAddress): nat {
    if r == Some(a) then 1 else 0
  }

  /** How many of the producer, the queue, the dispatcher's hand and the workers own the entry of `a`. */
  function Owners<J>(p: Pool<J>, a: NetAddress): nat {
    Enqueuing(p.producer, a) + Count(p.queue, a) + InHand(p.received, a) + Holding(p.workers, a)
  }

  /** An address in flight has one owner, or was left behind once; any other has none. */
  predicate Owned<J>(p: Pool<J>, a: NetAddress) {
    Owners(p, a) + Count(p.leaked, a) == if a in p.inFlight then 1 else 0
  }

  predicate Sized<J>(p: Pool<J>) {
    && 1 <= p.threads <= MAX_THREADS
    && p.gauge == LiveGuards(p.workers)
    && |p.queue| <= Capacity(p)
    && (if p.received.Some? then 1 else 0) + |p.workers| <= p.threads
    && (p.phase.Running? ==> p.leaked == [])
    && (!p.phase.Running? ==> p.received.None? && p.cancelled)
    && (p.phase.Ended? ==> p.workers == [] && p.queue == [])
  }

  ghost predicate Inv<J>(p: Pool<J>) {
    Sized(p) && forall a :: Owned(p, a)
  }

  lemma {:induction false} CountConcat(s: seq<NetAddress>, t: seq<NetAddress>, a: NetAddress)
    ensures Count(s + t, a) == Count(s, a) + Count(t, a)
  {
    if s == [] {
      assert s + t == t;
    } else {
      assert (s + t)[1..] == s[1..] + t;
      CountConcat(s[1..], t, a);
    }
  }

  lemma {:induction false} CountMember(s: seq<NetAddress>, a: NetAddress)
    ensures Count(s, a) > 0 <==> a in s
  {
    if s != [] { CountMember(s[1..], a); }
  }

  lemma {:induction false} HoldingUpdate<J>(ws: seq<Worker<J>>, i: nat, w: Worker<J>, a: NetAddress)
    requires i < |ws|
    ensures Holding(ws[i := w], a) + One(ws[i], a) == Holding(ws, a) + One(w, a)
    ensures LiveGuards(ws[i := w]) + OneLive(ws[i]) == LiveGuards(ws) + OneLive(w)
  {
    if i > 0 {
      assert ws[i := w][1..] == ws[1..][i - 1 := w];
      HoldingUpdate(ws[1..], i - 1, w, a);
    } else {
      assert ws[i := w][1..] == ws[1..];
    }
  }

  lemma {:induction false} HoldingRemove<J>(ws: seq<Worker<J>>, i: nat, a: NetAddress)
    requires i < |ws|
    ensures Holding(ws[..i] + ws[i + 1..], a) + One(ws[i], a) == Holding(ws, a)
    ensures LiveGuards(ws[..i] + ws[i + 1..]) + OneLive(ws[i]) == LiveGuards(ws)
  {
    if i == 0 {
      assert ws[..i] + ws[i + 1..] == ws[1..];
    } else {
      assert (ws[..i] + ws[i + 1..])[1..] == ws[1..][..i - 1] + ws[1..][i..];
      HoldingRemove(ws[1..], i - 1, a);
    }
  }

  lemma {:induction false} HoldingAppend<J>(ws: seq<Worker<J>>, w: Worker<J>, a: NetAddress)
    ensures Holding(ws + [w], a) == Holding(ws, a) + One(w, a)
    ensures LiveGuards(ws + [w]) == LiveGuards(ws) + OneLive(w)
  {
    if ws == [] {
      assert ws + [w] == [w] && [w][1..] == [];
    } else {
      assert (ws + [w])[1..] == ws[1..] + [w];
      HoldingAppend(ws[1..], w, a);
    }
  }

  lemma {:induction false} LiveAtMost<J>(ws: seq<Worker<J>>)
    ensures LiveGuards(ws) <= |ws|
  {
    if ws != [] { LiveAtMost(ws[1..]); }
  }

  // ------------------------------------------------------------------- one step

  predicate ByProducer<J>(a: Action<J>) {
    a.Insert? || a.Send? || a.Withdraw?
  }

  lemma ProducerStep<J>(p: Pool<J>, act: Action<J>, a: NetAddress)
    requires Sized(p) && Owned(p, a) && ByProducer(act)
    ensures Owned(Next(p, act), a) && Sized(Next(p, act))
  {
    if act.Send? && p.producer.Inserted? {
      CountConcat(p.queue, [p.producer.addr], a);
    }
  }

  lemma ReceiveStep<J>(p: Pool<J>, act: Action<J>, a: NetAddress)
    requires Sized(p) && Owned(p, a) && act.Receive?
    ensures Owned(Next(p, act), a) && Sized(Next(p, act))
  {
  }

  lemma SpawnStep<J>(p: Pool<J>, act: Action<J>, a: NetAddress)
    requires Sized(p) && Owned(p, a) && act.Spawn?
    ensures Owned(Next(p, act), a) && Sized(Next(p, act))
  {
    if p.received.Some? { HoldingAppend(p.workers, Worker(p.received.value, Spawned), a); }
  }

  lemma JoinStep<J>(p: Pool<J>, act: Action<J>, a: NetAddress)
    requires Sized(p) && Owned(p, a) && act.Join?
    ensures Owned(Next(p, act), a) && Sized(Next(p, act))
  {
    if act.i < |p.workers| { HoldingRemove(p.workers, act.i, a); }
  }

  lemma ShutdownStep<J>(p: Pool<J>, act: Action<J>, a: NetAddress)
    requires Sized(p) && Owned(p, a) && (act.Cancel? || act.Break? || act.End?)
    ensures Owned(Next(p, act), a) && Sized(Next(p, act))
  {
    if act.End? { CountConcat(p.leaked, p.queue, a); }
  }

  lemma StageChange<J>(p: Pool<J>, i: nat, s: Stage<J>, a: NetAddress)
    requires i < |p.workers|
    ensures var w := p.workers[i];
            var ws := SetStage(p.workers, i, s);
            && |ws| == |p.workers|
            && Holding(ws, a) + One(w, a) == Holding(p.workers, a) + One(w.(stage := s), a)
            && LiveGuards(ws) + OneLive(w) == LiveGuards(p.workers) + OneLive(w.(stage := s))
            && LiveGuards(ws) <= |ws|
  {
    HoldingUpdate(p.workers, i, p.workers[i].(stage := s), a);
    LiveAtMost(SetStage(p.workers, i, s));
  }

  lemma StartStep<J>(p: Pool<J>, act: Action<J>, a: NetAddress)
    requires Sized(p) && Owned(p, a) && act.Start?
    ensures Owned(Next(p, act), a) && Sized(Next(p, act))
  {
    if act.i < |p.workers| { StageChange(p, act.i, Live(act.job), a); }
  }

  lemma ReleaseStep<J>(p: Pool<J>, act: Action<J>, a: NetAddress)
    requires Sized(p) && Owned(p, a) && act.Release?
    ensures Owned(Next(p, act), a) && Sized(Next(p, act))
  {
    if act.i < |p.workers| { StageChange(p, act.i, Dropping, a); }
  }

  lemma WorkStep<J>(p: Pool<J>, act: Action<J>, a: NetAddress)
    requires Sized(p) && Owned(p, a) && act.Work?
    ensures Owned(Next(p, act), a) && Sized(Next(p, act))
  {
    if act.i < |p.workers| { StageChange(p, act.i, Live(act.job), a); }
  }

  lemma RemoveStep<J>(p: Pool<J>, act: Action<J>, a: NetAddress)
    requires Sized(p) && Owned(p, a) && act.Remove?
    ensures Owned(Next(p, act), a) && Sized(Next(p, act))
  {
    if act.i < |p.workers| { StageChange(p, act.i, Finished, a); }
  }

  lemma AbortStep<J>(p: Pool<J>, act: Action<J>, a: NetAddress)
    requires Sized(p) && Owned(p, a) && act.Abort?
    ensures Owned(Next(p, act), a) && Sized(Next(p, act))
  {
    if act.i < |p.workers| {
      StageChange(p, act.i, Finished, a);
      CountConcat(p.leaked, [p.workers[act.i].addr], a);
    }
  }

  lemma StepKeepsInv<J>(p: Pool<J>, act: Action<J>)
    requires Inv(p)
    ensures Inv(Next(p, act))
  {
    forall a ensures Owned(Next(p, act), a) && Sized(Next(p, act)) {
      assert Owned(p, a);
      match act {
        case Insert(_) => ProducerStep(p, act, a);
        case Send => ProducerStep(p, act, a);
        case Withdraw => ProducerStep(p, act, a);
        case Receive => ReceiveStep(p, act, a);
        case Spawn => SpawnStep(p, act, a);
        case Join(_) => JoinStep(p, act, a);
        case Start(_, _) => StartStep(p, act, a);
        case Release(_) => ReleaseStep(p, act, a);
        case Work(_, _) => WorkStep(p, act, a);
        case Remove(_) => RemoveStep(p, act, a);
        case Abort(_) => AbortStep(p, act, a);
        case _ => ShutdownStep(p, act, a);
      }
    }
    var any := NetAddress(V4([0, 0, 0, 0]), 0);
    assert Owned(Next(p, act), any) && Sized(Next(p, act));
  }

  lemma {:induction false} RunKeepsInv<J>(p: Pool<J>, run: seq<Action<J>>)
    requires Inv(p)
    ensures Inv(Run(p, run))
  {
    if run != [] {
      RunKeepsInv(p, run[..|run| - 1]);
      StepKeepsInv(Run(p, run[..|run| - 1]), run[|run| - 1]);
    }
  }

  lemma NewPoolInv<J>(threads: nat)
    requires threads <= MAX_THREADS
    ensures Inv(NewPool<J>(threads))
  {
    forall a ensures Owned(NewPool<J>(threads), a) {
    }
  }

  // ------------------------------------------------------- what the steps answer

  /** An enqueue takes an address that is not in flight, and answers a duplicate otherwise. */
  lemma InsertOutcome<J>(p: Pool<J>, a: NetAddress)
    requires p.producer.Idle?
    ensures a !in p.inFlight ==> Next(p, Insert(a)) == p.(inFlight := p.inFlight + {a}, producer := Inserted(a))
    ensures a in p.inFlight ==> Next(p, Insert(a)) == p
  {
  }

  /** It is refused as full exactly when four addresses per thread are waiting, and queued last otherwise. */
  lemma SendOutcome<J>(p: Pool<J>)
    requires p.producer.Inserted? && !p.phase.Ended?
    ensures Next(p, Send).producer == Refused(p.producer.addr, Full) <==> |p.queue| >= 4 * p.threads
    ensures |p.queue| >= 4 * p.threads ==> Next(p, Send).queue == p.queue
    ensures |p.queue| < 4 * p.threads ==>
              Next(p, Send).producer.Idle? && Next(p, Send).queue == p.queue + [p.producer.addr]
  {
  }

  /** A refused address is in flight no longer. */
  lemma WithdrawOutcome<J>(p: Pool<J>)
    requires p.producer.Refused?
    ensures Next(p, Withdraw).producer.Idle? && Next(p, Withdraw).inFlight == p.inFlight - {p.producer.addr}
  {
  }

  /** The dispatcher takes the longest waiting address exactly if its hand is free and a thread is. */
  lemma ReceiveOutcome<J>(p: Pool<J>)
    requires p.phase.Running? && p.queue != []
    ensures p.received.None? && |p.workers| < p.threads ==>
              Next(p, Receive) == p.(received := Some(p.queue[0]), queue := p.queue[1..])
    ensures p.received.Some? || |p.workers| >= p.threads ==> Next(p, Receive) == p
  {
  }

  /** The addresses that enqueues have put on the queue, in order. */
  function Queued<J>(p: Pool<J>, run: seq<Action<J>>): seq<NetAddress> {
    if run == [] then [] else
      var q, act := Run(p, run[..|run| - 1]), run[|run| - 1];
      Queued(p, run[..|run| - 1]) +
      if act.Send? && q.producer.Inserted? && Next(q, act).producer.Idle? then [q.producer.addr] else []
  }

  /** The addresses that the dispatcher has taken from it, in order. */
  function Taken<J>(p: Pool<J>, run: seq<Action<J>>): seq<NetAddress> {
    if run == [] then [] else
      var q, act := Run(p, run[..|run| - 1]), run[|run| - 1];
      Taken(p, run[..|run| - 1]) +
      if act.Receive? && q.received.None? && Next(q, act).received.Some? then [Next(q, act).received.value] else []
  }

  lemma QueueStep<J>(q: Pool<J>, act: Action<J>)
    requires q.phase.Running? && !q.cancelled && !act.Cancel?
    ensures var n := Next(q, act);
            var out := if act.Receive? && q.received.None? && n.received.Some? then [n.received.value] else [];
            var add := if act.Send? && q.producer.Inserted? && n.producer.Idle? then [q.producer.addr] else [];
            q.queue + add == out + n.queue
  {
    if act.Receive? && q.queue != [] { assert q.queue == [q.queue[0]] + q.queue[1..]; }
  }

  /** First in, first out: in every uncancelled run what was queued is what was taken and then what still waits. */
  lemma {:induction false} QueueIsFifo<J>(threads: nat, run: seq<Action<J>>)
    requires Uncancelled(run)
    ensures var p := NewPool<J>(threads);
            Queued(p, run) == Taken(p, run) + Run(p, run).queue
  {
    if run != [] {
      var p, init, act := NewPool<J>(threads), run[..|run| - 1], run[|run| - 1];
      QueueIsFifo<J>(threads, init);
      UncancelledIsRunning(p, init);
      QueueStep(Run(p, init), act);
      QueueSplice(Queued(p, init), Taken(p, init), Run(p, init).queue, Next(Run(p, init), act).queue,
                  Queued(p, run)[|Queued(p, init)|..], Taken(p, run)[|Taken(p, init)|..]);
    }
  }

  lemma QueueSplice(queued: seq<NetAddress>, taken: seq<NetAddress>, queue: seq<NetAddress>, later: seq<NetAddress>,
                    add: seq<NetAddress>, out: seq<NetAddress>)
    requires queued == taken + queue && queue + add == out + later
    ensures queued + add == taken + out + later
  {
    assert queued + add == taken + (queue + add) && taken + out + later == taken + (out + later);
  }

  /** How much is left to do for everything in flight. */
  function Remaining<J>(p: Pool<J>): nat {
    (match p.producer case Idle => 0 case Inserted(_) => 8 case Refused(_, _) => 1) +
    6 * |p.queue| + (if p.received.Some? then 5 else 0) + Stages(p.workers)
  }

  function Stages<J>(ws: seq<Worker<J>>): nat {
    if ws == [] then 0 else
      (match ws[0].stage case Spawned => 4 case Live(_) => 3 case Dropping => 2 case Finished => 1) + Stages(ws[1..])
  }

  lemma {:induction false} RunFrom<J>(p: Pool<J>, act: Action<J>, run: seq<Action<J>>)
    ensures Run(p, [act] + run) == Run(Next(p, act), run)
  {
    if run == [] {
      assert [act] + run == [act] && [act][..0] == [];
    } else {
      assert ([act] + run)[..|run|] == [act] + run[..|run| - 1];
      RunFrom(p, act, run[..|run| - 1]);
    }
  }

  /** What a busy pool can do next. */
  function Pending<J>(p: Pool<J>, job: J): Action<J> {
    if p.producer.Inserted? then Send
    else if p.producer.Refused? then Withdraw
    else if p.workers != [] then
      match p.workers[0].stage
      case Spawned => Start(0, job)
      case Live(_) => Release(0)
      case Dropping => Remove(0)
      case Finished => Join(0)
    else if p.received.Some? then Spawn
    else Receive
  }

  lemma PendingProgresses<J>(p: Pool<J>, job: J)
    requires p.phase.Running? && 1 <= p.threads
    requires !p.producer.Idle? || p.workers != [] || p.received.Some? || p.queue != []
    ensures Remaining(Next(p, Pending(p, job))) < Remaining(p)
    ensures Next(p, Pending(p, job)).phase.Running?
  {
    var ws := p.workers;
    if p.producer.Idle? && ws != [] {
      var act := Pending(p, job);
      if act.Join? {
        assert ws[..0] + ws[1..] == ws[1..];
      } else {
        assert Next(p, act).workers[1..] == ws[1..];
      }
    } else if p.producer.Idle? && p.received.Some? {
      assert ws + [Worker(p.received.value, Spawned)] == [Worker(p.received.value, Spawned)];
    }
  }

  /**
   * Nothing gets stuck: from every state of a running pool, producer, dispatcher and workers can
   * go on, each by its own steps, until nothing is queued, worked on or in flight.
   */
  lemma {:induction false} InFlightDrains<J>(p: Pool<J>, job: J) returns (run: seq<Action<J>>)
    requires Inv(p) && p.phase.Running?
    ensures Uncancelled(run)
    ensures var q := Run(p, run);
            && q.inFlight == {} && q.queue == [] && q.received == None && q.workers == []
            && q.producer.Idle? && q.gauge == 0
    decreases Remaining(p)
  {
    if p.producer.Idle? && p.workers == [] && p.received.None? && p.queue == [] {
      forall a ensures a !in p.inFlight {
        assert Owned(p, a);
      }
      run := [];
    } else {
      PendingProgresses(p, job);
      StepKeepsInv(p, Pending(p, job));
      var rest := InFlightDrains(Next(p, Pending(p, job)), job);
      RunFrom(p, Pending(p, job), rest);
      run := [Pending(p, job)] + rest;
    }
  }

  /** What is left to do once the dispatcher has stopped taking addresses. */
  function WindUp<J>(p: Pool<J>): Action<J>
    requires p.workers != []
  {
    match p.workers[0].stage
    case Spawned => Abort(0)
    case Live(_) => Release(0)
    case Dropping => Remove(0)
    case Finished => Join(0)
  }

  lemma {:induction false} WorkersWindUp<J>(p: Pool<J>) returns (run: seq<Action<J>>)
    requires Inv(p) && p.phase.Draining?
    ensures Run(p, run).phase.Draining? && Run(p, run).workers == [] && Run(p, run).producer == p.producer
    decreases Stages(p.workers)
  {
    if p.workers == [] {
      run := [];
    } else {
      var act, ws := WindUp(p), p.workers;
      if act.Join? {
        assert ws[..0] + ws[1..] == ws[1..];
      } else {
        assert Next(p, act).workers[1..] == ws[1..];
      }
      StepKeepsInv(p, act);
      var rest := WorkersWindUp(Next(p, act));
      RunFrom(p, act, rest);
      run := [act] + rest;
    }
  }

  /** Cancellation stops the dispatcher: the address in its hand is still spawned, and then it breaks off. */
  lemma CancelBreaks<J>(p: Pool<J>)
    requires p.phase.Running?
    ensures Next(Next(Next(p, Cancel), Spawn), Break).phase.Draining?
    ensures Next(Next(Next(p, Cancel), Spawn), Break).producer == p.producer
  {
  }

  /**
   * Shutdown comes to an end: from every state of a running pool, cancellation can be followed
   * by steps of the dispatcher and the workers until the dispatcher is gone with no task left;
   * whoever enqueues after that is told the pool is closed.
   */
  lemma ShutdownEnds<J>(p: Pool<J>) returns (run: seq<Action<J>>)
    requires Inv(p) && p.phase.Running?
    ensures var q := Run(p, [Cancel] + run);
            && q.phase.Ended? && q.workers == [] && q.queue == [] && q.gauge == 0
            && (p.producer.Inserted? ==> Next(q, Send).producer == Refused(p.producer.addr, Closed))
  {
    var p1 := Next(p, Cancel);
    var p2 := Next(p1, Spawn);
    var p3 := Next(p2, Break);
    CancelBreaks(p);
    StepKeepsInv(p, Cancel);
    StepKeepsInv(p1, Spawn);
    StepKeepsInv(p2, Break);
    var rest := WorkersWindUp(p3);
    RunKeepsInv(p3, rest);
    RunThen(p3, rest, End);
    RunFrom(p2, Break, rest + [End]);
    RunFrom(p1, Spawn, [Break] + (rest + [End]));
    run := [Spawn] + ([Break] + (rest + [End]));
    RunFrom(p, Cancel, run);
  }

  lemma RunThen<J>(p: Pool<J>, run: seq<Action<J>>, act: Action<J>)
    ensures Run(p, run + [act]) == Next(Run(p, run), act)
  {
    assert (run + [act])[..|run|] == run;
  }

  // -------------------------------------------------------------- over whole runs

  lemma {:induction false} HoldingMember<J>(ws: seq<Worker<J>>, i: nat)
    requires i < |ws| && !ws[i].stage.Finished?
    ensures Holding(ws, ws[i].addr) >= 1
  {
    if i > 0 { HoldingMember(ws[1..], i - 1); }
  }

  lemma {:induction false} HoldingPair<J>(ws: seq<Worker<J>>, i: nat, j: nat)
    requires i < j < |ws| && !ws[i].stage.Finished? && !ws[j].stage.Finished? && ws[i].addr == ws[j].addr
    ensures Holding(ws, ws[i].addr) >= 2
  {
    if i > 0 {
      HoldingPair(ws[1..], i - 1, j - 1);
    } else {
      HoldingMember(ws[1..], j - 1);
    }
  }

  lemma {:induction false} HoldingWitness<J>(ws: seq<Worker<J>>, a: NetAddress) returns (i: nat)
    requires Holding(ws, a) > 0
    ensures i < |ws| && ws[i].addr == a && !ws[i].stage.Finished?
  {
    if One(ws[0], a) > 0 {
      i := 0;
    } else {
      i := HoldingWitness(ws[1..], a);
      i := i + 1;
    }
  }

  predicate Uncancelled<J>(run: seq<Action<J>>) {
    forall i :: 0 <= i < |run| ==> !run[i].Cancel?
  }

  lemma {:induction false} UncancelledIsRunning<J>(p: Pool<J>, run: seq<Action<J>>)
    requires Uncancelled(run) && p.phase.Running? && !p.cancelled
    ensures Run(p, run).phase.Running? && !Run(p, run).cancelled
  {
    if run != [] {
      UncancelledIsRunning(p, run[..|run| - 1]);
    }
  }

  /**
   * Exact ownership: in every uncancelled run an address is in flight exactly when one of the
   * producer, the queue, the dispatcher's hand and the workers owns it, and then only one does.
   */
  lemma InFlightExactlyOwned<J>(threads: nat, run: seq<Action<J>>, a: NetAddress)
    requires threads <= MAX_THREADS && Uncancelled(run)
    ensures var p := Run(NewPool<J>(threads), run);
            && Owners(p, a) == (if a in p.inFlight then 1 else 0)
            && |p.queue| <= 4 * p.threads && |p.workers| <= p.threads
  {
    NewPoolInv<J>(threads);
    RunKeepsInv(NewPool<J>(threads), run);
    UncancelledIsRunning(NewPool<J>(threads), run);
    assert Owned(Run(NewPool<J>(threads), run), a);
  }

  /** In every run, shutdown included, a worker that has not finished is the only owner of its address. */
  lemma WorkerOwnsAlone<J>(threads: nat, run: seq<Action<J>>, i: nat)
    requires threads <= MAX_THREADS
    requires var p := Run(NewPool<J>(threads), run); i < |p.workers| && !p.workers[i].stage.Finished?
    ensures var p := Run(NewPool<J>(threads), run);
            var a := p.workers[i].addr;
            && Owners(p, a) == 1 && a in p.inFlight
            && a !in p.queue && p.received != Some(a) && (!p.producer.Idle? ==> p.producer.addr != a)
  {
    var p := Run(NewPool<J>(threads), run);
    NewPoolInv<J>(threads);
    RunKeepsInv(NewPool<J>(threads), run);
    assert Owned(p, p.workers[i].addr);
    HoldingMember(p.workers, i);
    CountMember(p.queue, p.workers[i].addr);
  }

  /** In every run, shutdown included, no two workers that have not finished are on one address. */
  lemma NoDoubleProbe<J>(threads: nat, run: seq<Action<J>>, i: nat, j: nat)
    requires threads <= MAX_THREADS
    requires var p := Run(NewPool<J>(threads), run);
             i < j < |p.workers| && !p.workers[i].stage.Finished? && !p.workers[j].stage.Finished?
    ensures var p := Run(NewPool<J>(threads), run);
            p.workers[i].addr != p.workers[j].addr && p.workers[i].addr !in p.queue
  {
    var p := Run(NewPool<J>(threads), run);
    WorkerOwnsAlone(threads, run, i);
    if p.workers[i].addr == p.workers[j].addr {
      HoldingPair(p.workers, i, j);
      assert false;
    }
  }

  function LiveAddrs<J>(ws: seq<Worker<J>>): set<NetAddress> {
    if ws == [] then {} else (if ws[0].stage.Live? then {ws[0].addr} else {}) + LiveAddrs(ws[1..])
  }

  lemma {:induction false} LiveAddrsHold<J>(ws: seq<Worker<J>>, a: NetAddress)
    requires a in LiveAddrs(ws)
    ensures Holding(ws, a) >= 1
  {
    if a in LiveAddrs(ws[1..]) { LiveAddrsHold(ws[1..], a); }
  }

  lemma {:induction false} LiveAddrsSize<J>(ws: seq<Worker<J>>)
    requires forall a :: Holding(ws, a) <= 1
    ensures |LiveAddrs(ws)| == LiveGuards(ws)
  {
    if ws != [] {
      forall a ensures Holding(ws[1..], a) <= 1 {
        assert Holding(ws, a) <= 1;
      }
      LiveAddrsSize(ws[1..]);
      assert Holding(ws, ws[0].addr) <= 1;
      if ws[0].stage.Live? && ws[0].addr in LiveAddrs(ws[1..]) {
        LiveAddrsHold(ws[1..], ws[0].addr);
        assert false;
      }
    }
  }

  /**
   * The gauge over every run: it is the number of live guards, never more than the in-flight
   * set holds, so a guard never takes it below zero, and it is zero once the dispatcher is gone.
   */
  lemma GaugeCountsGuards<J>(threads: nat, run: seq<Action<J>>)
    requires threads <= MAX_THREADS
    ensures var p := Run(NewPool<J>(threads), run);
            && p.gauge == LiveGuards(p.workers) <= |p.inFlight|
            && (p.phase.Ended? ==> p.gauge == 0)
            && (forall i :: 0 <= i < |p.workers| && p.workers[i].stage.Live? ==> p.gauge > 0)
  {
    var p := Run(NewPool<J>(threads), run);
    NewPoolInv<J>(threads);
    RunKeepsInv(NewPool<J>(threads), run);
    forall a ensures Holding(p.workers, a) <= 1 && (a in LiveAddrs(p.workers) ==> a in p.inFlight) {
      assert Owned(p, a);
      if a in LiveAddrs(p.workers) { LiveAddrsHold(p.workers, a); }
    }
    LiveAddrsSize(p.workers);
    SubsetSize(LiveAddrs(p.workers), p.inFlight);
    forall i | 0 <= i < |p.workers| && p.workers[i].stage.Live? ensures p.gauge > 0 {
      LiveAt(p.workers, i);
    }
  }

  lemma {:induction false} LiveAt<J>(ws: seq<Worker<J>>, i: nat)
    requires i < |ws| && ws[i].stage.Live?
    ensures LiveGuards(ws) >= 1
  {
    if i > 0 { LiveAt(ws[1..], i - 1); }
  }

  function WorkerAddrs<J>(ws: seq<Worker<J>>): (s: seq<NetAddress>)
    ensures |s| == |ws|
    ensures forall i :: 0 <= i < |ws| ==> s[i] == ws[i].addr
  {
    seq(|ws|, i requires 0 <= i < |ws| => ws[i].addr)
  }

  lemma {:induction false} SetOfSize<T>(s: seq<T>)
    ensures |SetOf(s)| <= |s|
  {
    if s != [] {
      SetOfSize(s[..|s| - 1]);
      SetOfSnoc(s, |s| - 1);
      assert s[..|s| - 1 + 1] == s;
    }
  }

  /** Between two enqueues of a running pool at most 5 addresses per thread are in flight. */
  lemma InFlightBound<J>(p: Pool<J>)
    requires Inv(p) && p.phase.Running? && p.producer.Idle?
    ensures |p.inFlight| <= 5 * p.threads
  {
    var hand := if p.received.Some? then [p.received.value] else [];
    var all := p.queue + hand + WorkerAddrs(p.workers);
    forall a | a in p.inFlight ensures a in SetOf(all) {
      assert Owned(p, a);
      CountMember(p.queue, a);
      SetOfConcat(p.queue, hand);
      SetOfConcat(p.queue + hand, WorkerAddrs(p.workers));
      if Holding(p.workers, a) > 0 {
        var i := HoldingWitness(p.workers, a);
        assert WorkerAddrs(p.workers)[i] == a;
      }
    }
    SubsetSize(p.inFlight, SetOf(all));
    SetOfSize(all);
  }

  /** Only the producer touches its own state, and only it adds in-flight entries. */
  lemma OthersLeaveProducer<J>(p: Pool<J>, act: Action<J>)
    requires !ByProducer(act) && !act.Cancel? && p.phase.Running? && !p.cancelled
    ensures var q := Next(p, act);
            && q.producer == p.producer && q.threads == p.threads
            && q.phase.Running? && !q.cancelled && q.inFlight <= p.inFlight
  {
  }

  /** A worker that has not finished keeps its address in flight. */
  lemma WorkerInFlight<J>(p: Pool<J>, i: nat)
    requires Inv(p) && i < |p.workers| && !p.workers[i].stage.Finished?
    ensures p.workers[i].addr in p.inFlight
  {
    HoldingMember(p.workers, i);
    assert Owned(p, p.workers[i].addr);
  }
}
