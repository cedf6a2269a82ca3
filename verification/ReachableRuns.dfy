/** Reachable runs of the crawler in which a lagging tick, a late commit or a new policy breaks a property. */
module ReachableRuns {
  import opened Common
  import opened Net
  import opened Index
  import opened Peers
  import opened Probe
  import opened Crawler
  import opened TickProgress
  import opened DispatchSpacing
  import WP = WorkerPool

  // ------------------------------------------------------------ pieces of runs

  function NoCounts(): Counts {
    Counts(0, 0, 0, 0)
  }

  function Single(rec: PeerRecord): Table {
    map[rec.address := Good(rec)]
  }

  function PoolWith(c: Config, inFlight: set<NetAddress>, producer: WP.Producer, queue: seq<NetAddress>,
                    workers: seq<WP.Worker<Job>>, gauge: nat): WP.Pool<Job>
  {
    WP.Pool(Threads(c), inFlight, producer, queue, None, workers, gauge, false, WP.Running, [])
  }

  /** Nobody is queued or being probed. */
  function With(c: Config, clock: I64, p: Table, inFlight: set<NetAddress>, producer: WP.Producer,
                ws: seq<WP.Worker<Job>>, tick: Tick, web: seq<WebJob>): System
  {
    System(clock, p, PoolWith(c, inFlight, producer, [], ws, 0), tick, web)
  }

  function Idling(c: Config, clock: I64, p: Table, web: seq<WebJob>): System {
    With(c, clock, p, {}, WP.Idle, [], Waiting, web)
  }

  /** Only `a` is in flight, queued or with a worker. */
  function Working(c: Config, a: NetAddress, clock: I64, p: Table, web: seq<WebJob>,
                   queue: seq<NetAddress>, ws: seq<WP.Worker<Job>>, gauge: nat): System
  {
    System(clock, p, PoolWith(c, {a}, WP.Idle, queue, ws, gauge), Waiting, web)
  }

  /** A tick dated `now` has inserted its only candidate `a` and is about to send it. */
  function AboutToSend(c: Config, a: NetAddress, clock: I64, now: I64, p: Table,
                       ws: seq<WP.Worker<Job>>, web: seq<WebJob>): System
  {
    With(c, clock, p, {a}, WP.Inserted(a), ws, Sending(Scan(now, p, {}, [a]), a, [], NoCounts()), web)
  }

  ghost predicate OnlyDue(c: Config, a: NetAddress, now: I64, p: Table)
    requires c.Valid()
  {
    Addresses(Due(p, now, c.windows, SatSub(now, c.deadAfter), 8 * Threads(c))) == [a]
  }

  lemma SingleDue(c: Config, rec: PeerRecord, now: I64)
    requires c.Valid() && IsEligible(rec, now, c.windows, SatSub(now, c.deadAfter))
    ensures OnlyDue(c, rec.address, now, Single(rec))
  {
    var e, p := Entry(rec.lastAttemptMs, rec.address), Single(rec);
    assert HasRecord(p, rec.address) && p[rec.address].rec == rec;
    assert DueEntries(p, now, c.windows, SatSub(now, c.deadAfter)) == {e};
    OrderedSingle(e);
  }

  /** Nothing in the run can disturb the spacing of any address. */
  ghost predicate Quiet(run: seq<Move>) {
    forall i :: 0 <= i < |run| ==>
      && !run[i].Restart? && !run[i].WebDelete? && !run[i].PruneTick? && !run[i].WebPersist? && !run[i].WebRecord?
      && (run[i].TickRecord? ==> !run[i].fault)
  }

  lemma {:induction false} QuietIsUndisturbed(c: Config, s: System, run: seq<Move>, a: NetAddress, since: I64)
    requires c.Valid() && Quiet(run)
    ensures UndisturbedRun(c, s, run, a, since)
  {
    if run != [] {
      QuietIsUndisturbed(c, s, run[..|run| - 1], a, since);
    }
  }

  lemma SeedingStored(c: Config, a: NetAddress, at: I64, s: System)
    requires c.Valid() && Storable(a, c.policy) && s.peers == map[] && s.clock >= at
    ensures Step(c, s, Bootstrap([a], at, false)) == s.(peers := Single(SeenStub(a, at)))
  {
    assert Bootstrapped([a], c.policy) == [a];
    assert Seen(map[], SetOf([a]), at) == Single(SeenStub(a, at));
  }

  lemma SightingStored(c: Config, rec: PeerRecord, at: I64, s: System)
    requires c.Valid() && Storable(rec.address, c.policy) && s.peers == Single(rec) && s.clock >= at
    ensures Step(c, s, Bootstrap([rec.address], at, false)) == s.(peers := Single(rec.(lastSeenMs := at)))
  {
    assert Bootstrapped([rec.address], c.policy) == [rec.address];
    assert rec.address in SetOf([rec.address]);
    assert Seen(Single(rec), SetOf([rec.address]), at) == Single(rec.(lastSeenMs := at));
  }

  /** A tick at `now` that finds only `a` due, and `a` not in flight, comes to send it. */
  lemma TickOffers(c: Config, a: NetAddress, now: I64, p: Table, ws: seq<WP.Worker<Job>>, web: seq<WebJob>)
    returns (run: seq<Move>)
    requires c.Valid() && IsAcceptable(a, c.policy) && OnlyDue(c, a, now, p)
    ensures Quiet(run)
    ensures Run(c, With(c, now, p, {}, WP.Idle, ws, Waiting, web), run) == AboutToSend(c, a, now, now, p, ws, web)
  {
    run := [TickStart, TickFetch(false)] + [TickOffer];
    var s0 := With(c, now, p, {}, WP.Idle, ws, Waiting, web);
    RunTwo(c, s0, TickStart, TickFetch(false));
    assert Step(c, s0, TickStart) == s0.(tick := Timed(now));
    var s1 := s0.(tick := Scanning(Scan(now, p, {}, [a]), [a], NoCounts()));
    assert Step(c, s0.(tick := Timed(now)), TickFetch(false)) == s1;
    RunSnoc(c, s0, [TickStart, TickFetch(false)], TickOffer);
    OfferInserts(c, a, s1);
  }

  lemma OfferInserts(c: Config, a: NetAddress, s: System)
    requires c.Valid() && IsAcceptable(a, c.policy) && s.pool.inFlight == {} && s.pool.producer.Idle?
    requires s.tick.Scanning? && s.tick.rest == [a]
    ensures Step(c, s, TickOffer) ==
            s.(pool := s.pool.(inFlight := {a}, producer := WP.Inserted(a)),
               tick := Sending(s.tick.scan, a, [], s.tick.n))
  {
    assert [a][1..] == [] && {} + {a} == {a};
  }

  lemma OfferIsSent(c: Config, a: NetAddress, clock: I64, now: I64, p: Table, ws: seq<WP.Worker<Job>>, web: seq<WebJob>)
    requires c.Valid()
    ensures var s := AboutToSend(c, a, clock, now, p, ws, web);
            && Dispatches(c, s, TickSend, a)
            && Step(c, s, TickSend) == Sent(c, a, clock, now, p, ws, web)
  {
  }

  function Sent(c: Config, a: NetAddress, clock: I64, now: I64, p: Table,
                ws: seq<WP.Worker<Job>>, web: seq<WebJob>): System
  {
    System(clock, p, PoolWith(c, {a}, WP.Idle, [a], ws, 0), Recording(Scan(now, p, {}, [a]), a, [], NoCounts()), web)
  }

  lemma ProbeSpawned(c: Config, a: NetAddress, s: System)
    requires c.Valid() && s.pool == PoolWith(c, {a}, WP.Idle, [a], [], 0)
    ensures Step(c, Step(c, s, Receive), Spawn) ==
            s.(pool := PoolWith(c, {a}, WP.Idle, [], [WP.Worker(a, WP.Spawned)], 0))
  {
    assert [a][1..] == [];
  }

  lemma ProbeStarted(c: Config, a: NetAddress, s: System)
    requires c.Valid() && s.pool == PoolWith(c, {a}, WP.Idle, [], [WP.Worker(a, WP.Spawned)], 0)
    ensures Step(c, s, Start(0)) == s.(pool := PoolWith(c, {a}, WP.Idle, [], [WP.Worker(a, WP.Live(Probing))], 1))
  {
  }

  lemma WorkerMoves(c: Config, a: NetAddress, s: System, m: Move, j: Job)
    requires c.Valid() && |s.pool.workers| == 1 && s.pool.workers[0].addr == a && s.pool.workers[0].stage.Live?
    requires PoolAction(c, s, m) == Some(WP.Work(0, j)) && !m.Restart?
    ensures NextPool(c, s, m) == s.pool.(workers := [WP.Worker(a, WP.Live(j))])
  {
  }

  /** The queued address is taken up by a worker. */
  lemma ProbeUnderWay(c: Config, a: NetAddress, s: System) returns (run: seq<Move>)
    requires c.Valid() && s.pool == PoolWith(c, {a}, WP.Idle, [a], [], 0)
    ensures Quiet(run)
    ensures Run(c, s, run) == s.(pool := PoolWith(c, {a}, WP.Idle, [], [WP.Worker(a, WP.Live(Probing))], 1))
  {
    run := [Receive, Spawn] + [Start(0)];
    RunTwo(c, s, Receive, Spawn);
    ProbeSpawned(c, a, s);
    RunSnoc(c, s, [Receive, Spawn], Start(0));
    ProbeStarted(c, a, s.(pool := PoolWith(c, {a}, WP.Idle, [], [WP.Worker(a, WP.Spawned)], 0)));
  }

  /** The scheduled probe fails, its slot is freed, and time passes. */
  lemma ProbeOver(c: Config, a: NetAddress, clock: I64, p: Table, web: seq<WebJob>, later: I64) returns (run: seq<Move>)
    requires c.Valid() && clock <= later
    ensures Quiet(run)
    ensures Run(c, Working(c, a, clock, p, web, [a], [], 0), run) ==
            With(c, later, p, {}, WP.Idle, [WP.Worker(a, WP.Finished)], Waiting, web)
  {
    var s0 := Working(c, a, clock, p, web, [a], [], 0);
    var r1 := ProbeUnderWay(c, a, s0);
    var r2 := ProbeFails(c, a, clock, p, web, later);
    RunConcat(c, s0, r1, r2);
    run := r1 + r2;
  }

  lemma ProbeFails(c: Config, a: NetAddress, clock: I64, p: Table, web: seq<WebJob>, later: I64)
    returns (run: seq<Move>)
    requires c.Valid() && clock <= later
    ensures Quiet(run)
    ensures Run(c, Working(c, a, clock, p, web, [], [WP.Worker(a, WP.Live(Probing))], 1), run) ==
            With(c, later, p, {}, WP.Idle, [WP.Worker(a, WP.Finished)], Waiting, web)
  {
    var s := Working(c, a, clock, p, web, [], [WP.Worker(a, WP.Live(Probing))], 1);
    RunOne(c, s, Fail(0));
    WorkerMoves(c, a, s, Fail(0), Done);
    var r := SlotFreed(c, a, clock, p, web, later);
    RunConcat(c, s, [Fail(0)], r);
    run := [Fail(0)] + r;
  }

  lemma SlotFreed(c: Config, a: NetAddress, clock: I64, p: Table, web: seq<WebJob>, later: I64) returns (run: seq<Move>)
    requires c.Valid() && clock <= later
    ensures Quiet(run)
    ensures Run(c, Working(c, a, clock, p, web, [], [WP.Worker(a, WP.Live(Done))], 1), run) ==
            With(c, later, p, {}, WP.Idle, [WP.Worker(a, WP.Finished)], Waiting, web)
  {
    var s := Working(c, a, clock, p, web, [], [WP.Worker(a, WP.Live(Done))], 1);
    RunTwo(c, s, Release(0), Remove(0));
    GuardDropped(c, a, s);
    RunSnoc(c, s, [Release(0), Remove(0)], Advance(later));
    run := [Release(0), Remove(0)] + [Advance(later)];
  }

  lemma GuardDropped(c: Config, a: NetAddress, s: System)
    requires c.Valid() && s.pool == PoolWith(c, {a}, WP.Idle, [], [WP.Worker(a, WP.Live(Done))], 1)
    ensures Step(c, Step(c, s, Release(0)), Remove(0)) ==
            s.(pool := PoolWith(c, {}, WP.Idle, [], [WP.Worker(a, WP.Finished)], 0))
  {
    assert Step(c, s, Release(0)) == s.(pool := PoolWith(c, {a}, WP.Idle, [], [WP.Worker(a, WP.Dropping)], 0));
    assert {a} - {a} == {};
  }

  /** The attempt is stored under the tick's date, and the tick ends. */
  lemma AttemptStored(c: Config, rec: PeerRecord, clock: I64, now: I64, web: seq<WebJob>) returns (run: seq<Move>)
    requires c.Valid()
    ensures Quiet(run)
    ensures var a := rec.address;
            Run(c, Sent(c, a, clock, now, Single(rec), [], web), run) ==
            Working(c, a, clock, Single(rec.(lastAttemptMs := now)), web, [a], [], 0)
  {
    var a := rec.address;
    var s0 := Sent(c, a, clock, now, Single(rec), [], web);
    var s1 := Working(c, a, clock, Single(rec.(lastAttemptMs := now)), web, [a], [], 0);
    var t := Scanning(s0.tick.scan, [], NoCounts().(dispatched := 1));
    AttemptRecorded(c, rec, s0);
    RunOne(c, s0, TickRecord(false));
    RunTwo(c, s1.(tick := t), TickOffer, TickClose);
    RunConcat(c, s0, [TickRecord(false)], [TickOffer, TickClose]);
    run := [TickRecord(false)] + [TickOffer, TickClose];
  }

  lemma AttemptRecorded(c: Config, rec: PeerRecord, s: System)
    requires c.Valid() && s.peers == Single(rec)
    requires s.tick.Recording? && s.tick.addr == rec.address && s.tick.n == NoCounts()
    ensures Step(c, s, TickRecord(false)) ==
            s.(peers := Single(rec.(lastAttemptMs := s.tick.scan.now)),
               tick := Scanning(s.tick.scan, s.tick.rest, NoCounts().(dispatched := 1)))
  {
    assert Attempted(Single(rec), rec.address, s.tick.scan.now) == Single(rec.(lastAttemptMs := s.tick.scan.now));
  }

  // ------------------------------------------------------------ a tick that lags

  /** Any configuration that accepts the address and has a threshold for unanswered peers, as long as dates fit. */
  ghost predicate CanLag(c: Config, a: NetAddress, lag: nat) {
    && c.Valid() && Storable(a, c.policy) && 0 <= c.deadAfter && 0 < c.windows.staleBad
    && 2 * c.windows.staleBad <= I64_MAX && c.windows.staleBad + lag <= I64_MAX
  }

  /** Seeded at the first time at which it is due. */
  function Stub(c: Config, a: NetAddress): PeerRecord {
    SeenStub(a, c.windows.staleBad)
  }

  /** A tick that read the clock when `a` was seeded comes to send it only `lag` later. */
  ghost function Lagging(c: Config, a: NetAddress, lag: nat): System
    requires CanLag(c, a, lag)
  {
    AboutToSend(c, a, c.windows.staleBad + lag, c.windows.staleBad, Single(Stub(c, a)), [], [])
  }

  lemma TickLags(c: Config, a: NetAddress, lag: nat) returns (run: seq<Move>)
    requires CanLag(c, a, lag)
    ensures Run(c, Initial(c, c.windows.staleBad, map[]), run) == Lagging(c, a, lag)
  {
    var at := c.windows.staleBad;
    var s0 := Initial(c, at, map[]);
    var seed := [Bootstrap([a], at, false)];
    RunOne(c, s0, seed[0]);
    SeedingStored(c, a, at, s0);
    assert Run(c, s0, seed) == Idling(c, at, Single(Stub(c, a)), []);
    SingleDue(c, Stub(c, a), at);
    var r0 := TickOffers(c, a, at, Single(Stub(c, a)), [], []);
    RunConcat(c, s0, seed, r0);
    var r := seed + r0;
    RunSnoc(c, s0, r, Advance(at + lag));
    run := r + [Advance(at + lag)];
  }

  /** The first time after a dispatch lagging by `lag` at which its peer is due again. */
  ghost function Earliest(c: Config, a: NetAddress, lag: nat): I64
    requires CanLag(c, a, lag)
  {
    c.windows.staleBad + if lag <= c.windows.staleBad then c.windows.staleBad else lag
  }

  /** The peer as the second tick finds it: attempted at the first tick's date, and just seen again. */
  ghost function Repeated(c: Config, a: NetAddress, lag: nat): PeerRecord
    requires CanLag(c, a, lag)
  {
    SeenStub(a, c.windows.staleBad).(lastAttemptMs := c.windows.staleBad, lastSeenMs := Earliest(c, a, lag))
  }

  lemma AttemptRepeated(c: Config, a: NetAddress, lag: nat) returns (run: seq<Move>)
    requires CanLag(c, a, lag)
    ensures Quiet(run)
    ensures Run(c, Step(c, Lagging(c, a, lag), TickSend), run) ==
            AboutToSend(c, a, Earliest(c, a, lag), Earliest(c, a, lag), Single(Repeated(c, a, lag)),
                     [WP.Worker(a, WP.Finished)], [])
  {
    var at, later := c.windows.staleBad, Earliest(c, a, lag);
    OfferIsSent(c, a, at + lag, at, Single(Stub(c, a)), [], []);
    RepeatedDue(c, a, lag);
    run := SentAgain(c, Stub(c, a), at + lag, at, later);
  }

  lemma RepeatedDue(c: Config, a: NetAddress, lag: nat)
    requires CanLag(c, a, lag)
    ensures Repeated(c, a, lag) == Stub(c, a).(lastAttemptMs := c.windows.staleBad, lastSeenMs := Earliest(c, a, lag))
    ensures OnlyDue(c, a, Earliest(c, a, lag), Single(Repeated(c, a, lag)))
  {
    SingleDue(c, Repeated(c, a, lag), Earliest(c, a, lag));
  }

  /** A sent peer is tried in vain, seen again at `later`, and then found due by a tick. */
  lemma SentAgain(c: Config, rec: PeerRecord, clock: I64, now: I64, later: I64) returns (run: seq<Move>)
    requires c.Valid() && Storable(rec.address, c.policy) && clock <= later
    requires OnlyDue(c, rec.address, later, Single(rec.(lastAttemptMs := now, lastSeenMs := later)))
    ensures Quiet(run)
    ensures var a := rec.address;
            Run(c, Sent(c, a, clock, now, Single(rec), [], []), run) ==
            AboutToSend(c, a, later, later, Single(rec.(lastAttemptMs := now, lastSeenMs := later)),
                     [WP.Worker(a, WP.Finished)], [])
  {
    var r1 := AttemptStored(c, rec, clock, now, []);
    var r2 := FoundAgain(c, rec.(lastAttemptMs := now), clock, later);
    RunConcat(c, Sent(c, rec.address, clock, now, Single(rec), [], []), r1, r2);
    run := r1 + r2;
  }

  lemma FoundAgain(c: Config, tried: PeerRecord, clock: I64, later: I64) returns (run: seq<Move>)
    requires c.Valid() && Storable(tried.address, c.policy) && clock <= later
    requires OnlyDue(c, tried.address, later, Single(tried.(lastSeenMs := later)))
    ensures Quiet(run)
    ensures var a := tried.address;
            Run(c, Working(c, a, clock, Single(tried), [], [a], [], 0), run) ==
            AboutToSend(c, a, later, later, Single(tried.(lastSeenMs := later)), [WP.Worker(a, WP.Finished)], [])
  {
    var a := tried.address;
    var r1 := ProbeOver(c, a, clock, Single(tried), [], later);
    var r2 := SeenAndOffered(c, tried, later, [WP.Worker(a, WP.Finished)]);
    RunConcat(c, Working(c, a, clock, Single(tried), [], [a], [], 0), r1, r2);
    run := r1 + r2;
  }

  lemma SeenAndOffered(c: Config, rec: PeerRecord, now: I64, ws: seq<WP.Worker<Job>>) returns (run: seq<Move>)
    requires c.Valid() && Storable(rec.address, c.policy)
    requires OnlyDue(c, rec.address, now, Single(rec.(lastSeenMs := now)))
    ensures Quiet(run)
    ensures Run(c, With(c, now, Single(rec), {}, WP.Idle, ws, Waiting, []), run) ==
            AboutToSend(c, rec.address, now, now, Single(rec.(lastSeenMs := now)), ws, [])
  {
    var s, a := With(c, now, Single(rec), {}, WP.Idle, ws, Waiting, []), rec.address;
    RunOne(c, s, Bootstrap([a], now, false));
    SightingStored(c, rec, now, s);
    var r := TickOffers(c, a, now, Single(rec.(lastSeenMs := now)), ws, []);
    RunConcat(c, s, [Bootstrap([a], now, false)], r);
    run := [Bootstrap([a], now, false)] + r;
  }

  /**
   * The bound on dispatches is tight at every lag: with no submission, fault, removal or restart,
   * the two dispatches are exactly the threshold less the lag apart, or at the same instant.
   */
  lemma LagShortensSpacing(c: Config, a: NetAddress, lag: nat) returns (before: seq<Move>, between: seq<Move>)
    requires CanLag(c, a, lag)
    ensures DispatchedTwice(c, c.windows.staleBad, map[], before, between, a) && Quiet(between)
    ensures var bad := c.windows.staleBad;
            var s1 := Run(c, Initial(c, bad, map[]), before);
            var s2 := Run(c, Step(c, s1, TickSend), between);
            && Lag(s1) == lag && HasRecord(s2.tick.scan.table, a)
            && Threshold(s2.tick.scan.table[a].rec, c.windows) == bad
            && s2.clock - s1.clock == if lag <= bad then bad - lag else 0
  {
    var at, later := c.windows.staleBad, Earliest(c, a, lag);
    before := TickLags(c, a, lag);
    OfferIsSent(c, a, at + lag, at, Single(Stub(c, a)), [], []);
    between := AttemptRepeated(c, a, lag);
    OfferIsSent(c, a, later, later, Single(Repeated(c, a, lag)), [WP.Worker(a, WP.Finished)], []);
    QuietIsUndisturbed(c, Step(c, Lagging(c, a, lag), TickSend), between, a, at);
  }

  /** Exactly a tick that dispatches at the instant it read the clock keeps its dispatches a threshold apart. */
  lemma AlwaysClockApartIff(c: Config, a: NetAddress, lag: nat)
    requires CanLag(c, a, lag)
    ensures AlwaysClockApart(c, lag) <==> lag == 0
  {
    var before, between := LagShortensSpacing(c, a, lag);
    assert DispatchedTwice(c, c.windows.staleBad, map[], before, between, a);
    PromptDispatchesApart(c);
  }

  // --------------------------------------------- an attempt stored after the answer

  function Report(): VersionMessage {
    VersionMessage([], 7, 0, "", None)
  }

  function Answer(rec: PeerRecord, at: I64): PeerRecord {
    PeerRecordFromVersion(rec.address, Report(), at, Some(rec))
  }

  /** A worker's probe of the only stored peer: it reads the record, then the clock, and commits the answer. */
  lemma WorkerAnswers(c: Config, rec: PeerRecord, s: System, later: I64) returns (run: seq<Move>)
    requires c.Valid() && IsCanonical(rec.address.ip) && s.peers == Single(rec) && s.clock <= later
    requires s.pool == PoolWith(c, {rec.address}, WP.Idle, [], [WP.Worker(rec.address, WP.Live(Probing))], 1)
    ensures Run(c, s, run) ==
            s.(clock := later, peers := Single(Answer(rec, later)),
               pool := PoolWith(c, {rec.address}, WP.Idle, [], [WP.Worker(rec.address, WP.Live(Done))], 1))
  {
    var a := rec.address;
    var s1 := s.(pool := PoolWith(c, {a}, WP.Idle, [], [WP.Worker(a, WP.Live(Fetched(Some(rec))))], 1));
    RunTwo(c, s, Fetch(0, false), Advance(later));
    WorkerMoves(c, a, s, Fetch(0, false), Fetched(Some(rec)));
    assert Step(c, s, Fetch(0, false)) == s1;
    var r := WorkerPersists(c, rec, s1.(clock := later));
    RunConcat(c, s, [Fetch(0, false), Advance(later)], r);
    run := [Fetch(0, false), Advance(later)] + r;
  }

  lemma WorkerPersists(c: Config, rec: PeerRecord, s: System) returns (run: seq<Move>)
    requires c.Valid() && IsCanonical(rec.address.ip) && s.peers == Single(rec)
    requires s.pool == PoolWith(c, {rec.address}, WP.Idle, [], [WP.Worker(rec.address, WP.Live(Fetched(Some(rec))))], 1)
    ensures Run(c, s, run) ==
            s.(peers := Single(Answer(rec, s.clock)),
               pool := PoolWith(c, {rec.address}, WP.Idle, [], [WP.Worker(rec.address, WP.Live(Done))], 1))
  {
    var a := rec.address;
    var s1 := s.(pool := PoolWith(c, {a}, WP.Idle, [], [WP.Worker(a, WP.Live(Stamped(Some(rec), s.clock)))], 1));
    RunTwo(c, s, Stamp(0), Persist(0, Report(), false));
    WorkerMoves(c, a, s, Stamp(0), Stamped(Some(rec), s.clock));
    assert Step(c, s, Stamp(0)) == s1;
    WorkerMoves(c, a, s1, Persist(0, Report(), false), Done);
    assert Upserted(Single(rec), Answer(rec, s.clock)) == Single(Answer(rec, s.clock));
    run := [Stamp(0), Persist(0, Report(), false)];
  }

  /**
   * The scheduler stores a dispatch's attempt, dated by the tick, after the worker has stored
   * the answer to that very dispatch: the answered peer is left with an attempt date `delay`
   * before its answer, and becomes due that much earlier.
   */
  lemma AttemptStoredAfterAnswer(c: Config, a: NetAddress, delay: nat) returns (run: seq<Move>)
    requires CanLag(c, a, delay)
    ensures var p := Run(c, Initial(c, c.windows.staleBad, map[]), run).peers;
            && HasRecord(p, a)
            && p[a].rec.lastAttemptMs == c.windows.staleBad && p[a].rec.lastSuccessMs == c.windows.staleBad + delay
  {
    var at := c.windows.staleBad;
    var s0, p := Initial(c, at, map[]), Single(Stub(c, a));
    var r0 := TickLags(c, a, 0);
    RunSnoc(c, s0, r0, TickSend);
    OfferIsSent(c, a, at, at, p, [], []);
    var s1 := Sent(c, a, at, at, p, [], []);
    var r1 := DispatchAnswered(c, Stub(c, a), s1, at + delay);
    RunConcat(c, s0, r0 + [TickSend], r1);
    var r2 := r0 + [TickSend] + r1;
    RunSnoc(c, s0, r2, TickRecord(false));
    AttemptRecorded(c, Answer(Stub(c, a), at + delay), Run(c, s0, r2));
    run := r2 + [TickRecord(false)];
  }

  lemma DispatchAnswered(c: Config, rec: PeerRecord, s: System, later: I64) returns (run: seq<Move>)
    requires c.Valid() && IsCanonical(rec.address.ip) && s.peers == Single(rec) && s.clock <= later
    requires s.pool == PoolWith(c, {rec.address}, WP.Idle, [rec.address], [], 0)
    ensures var t := Run(c, s, run);
            t.peers == Single(Answer(rec, later)) && t.tick == s.tick
  {
    var a := rec.address;
    var r1 := ProbeUnderWay(c, a, s);
    var r2 := WorkerAnswers(
      c, rec, s.(pool := PoolWith(c, {a}, WP.Idle, [], [WP.Worker(a, WP.Live(Probing))], 1)), later);
    RunConcat(c, s, r1, r2);
    run := r1 + r2;
  }

  // ------------------------------------------------ a submission that commits late

  const PEER: NetAddress := NetAddress(V4([1, 1, 1, 1]), 16111)

  function Example(): Config {
    Config(Policy(16111, true, ip => true), Windows(1000, 1000), I64_MAX, 1)
  }

  /** A submission of the peer has read the empty store. */
  lemma SubmissionReads() returns (run: seq<Move>)
    ensures Example().Valid()
    ensures Run(Example(), Initial(Example(), 1000, map[]), run) ==
            Idling(Example(), 1000, map[], [WebJob(PEER, Fetched(None))])
  {
    var c := Example();
    var s0 := Initial(c, 1000, map[]);
    assert s0 == Idling(c, 1000, map[], []);
    RunTwo(c, s0, Submit(PEER), WebFetch(0, false));
    PeerSubmitted(c, s0);
    run := [Submit(PEER), WebFetch(0, false)];
  }

  lemma PeerSubmitted(c: Config, s: System)
    requires c.Valid() && Storable(PEER, c.policy) && s.web == []
    ensures Step(c, s, Submit(PEER)) == s.(web := [WebJob(PEER, Probing)])
  {
  }

  /** The peer is seeded at 1000 and half a second passes. */
  lemma SeededMeanwhile(web: seq<WebJob>) returns (run: seq<Move>)
    ensures Example().Valid()
    ensures Run(Example(), Idling(Example(), 1000, map[], web), run) ==
            Idling(Example(), 1500, Single(SeenStub(PEER, 1000)), web)
  {
    var s := Idling(Example(), 1000, map[], web);
    RunTwo(Example(), s, Bootstrap([PEER], 1000, false), Advance(1500));
    SeedingStored(Example(), PEER, 1000, s);
    run := [Bootstrap([PEER], 1000, false), Advance(1500)];
  }

  /** A submission reads the store before the peer is seeded and commits after it: the first sighting moves. */
  lemma LateSubmissionMovesFirstSeen() returns (c: Config, before: seq<Move>, after: seq<Move>)
    ensures c.Valid()
    ensures var s1 := Run(c, Initial(c, 1000, map[]), before);
            var s2 := Run(c, s1, after);
            && KeepsAlong(c, s1, after, PEER)
            && HasRecord(s1.peers, PEER) && s1.peers[PEER].rec.firstSeenMs == 1000
            && HasRecord(s2.peers, PEER) && s2.peers[PEER].rec.firstSeenMs == 1500
  {
    c := Example();
    var r1 := SubmissionReads();
    var r2 := SeededMeanwhile([WebJob(PEER, Fetched(None))]);
    RunConcat(c, Initial(c, 1000, map[]), r1, r2);
    before := r1 + r2;
    after := LateReadCommits();
  }

  lemma LateReadCommits() returns (run: seq<Move>)
    ensures Example().Valid()
    ensures var s := Idling(Example(), 1500, Single(SeenStub(PEER, 1000)), [WebJob(PEER, Fetched(None))]);
            var p := Run(Example(), s, run).peers;
            KeepsAlong(Example(), s, run, PEER) && HasRecord(p, PEER) && p[PEER].rec.firstSeenMs == 1500
  {
    var c := Example();
    var s := Idling(c, 1500, Single(SeenStub(PEER, 1000)), [WebJob(PEER, Fetched(None))]);
    run := [WebStamp(0), WebPersist(0, Report(), false)];
    RunTwo(c, s, WebStamp(0), WebPersist(0, Report(), false));
    assert Step(c, s, WebStamp(0)) == s.(web := [WebJob(PEER, Stamped(None, 1500))]);
    assert run[..1] == [WebStamp(0)] && run[..1][..0] == [];
    assert KeepsAlong(c, s, [], PEER) && KeepsAlong(c, s, run[..1], PEER);
  }

  function BackDated(): PeerRecord {
    PeerRecordFromVersion(PEER, Report(), 1000, None)
  }

  /** The submission reads the clock at 1000; then the peer is seeded, and at 1500 a tick comes to send it. */
  lemma SubmissionStamped() returns (run: seq<Move>)
    ensures Example().Valid()
    ensures Run(Example(), Initial(Example(), 1000, map[]), run) ==
            AboutToSend(Example(), PEER, 1500, 1500, Single(SeenStub(PEER, 1000)), [],
                        [WebJob(PEER, Stamped(None, 1000))])
  {
    var c, rec, web := Example(), SeenStub(PEER, 1000), [WebJob(PEER, Stamped(None, 1000))];
    var s0 := Initial(c, 1000, map[]);
    var r0 := SubmissionReads();
    RunSnoc(c, s0, r0, WebStamp(0));
    assert Run(c, s0, r0 + [WebStamp(0)]) == Idling(c, 1000, map[], web);
    var r1 := SeededMeanwhile(web);
    RunConcat(c, s0, r0 + [WebStamp(0)], r1);
    SingleDue(c, rec, 1500);
    var r2 := TickOffers(c, PEER, 1500, Single(rec), [], web);
    RunConcat(c, s0, r0 + [WebStamp(0)] + r1, r2);
    run := r0 + [WebStamp(0)] + r1 + r2;
  }

  /** The attempt is stored at 1500; the submission then commits its record dated 1000; a tick at 1800 finds it due. */
  lemma SubmissionDatesBack() returns (run: seq<Move>)
    ensures Example().Valid()
    ensures var web := [WebJob(PEER, Stamped(None, 1000))];
            Run(Example(), Sent(Example(), PEER, 1500, 1500, Single(SeenStub(PEER, 1000)), [], web), run) ==
            AboutToSend(Example(), PEER, 1800, 1800, Single(BackDated()),
                     [WP.Worker(PEER, WP.Finished)], [WebJob(PEER, Done)])
  {
    var c, rec, web := Example(), SeenStub(PEER, 1000), [WebJob(PEER, Stamped(None, 1000))];
    var s0 := Sent(c, PEER, 1500, 1500, Single(rec), [], web);
    var r0 := AttemptStored(c, rec, 1500, 1500, web);
    RunSnoc(c, s0, r0, WebPersist(0, Report(), false));
    LateRecordCommits();
    var r1 := r0 + [WebPersist(0, Report(), false)];
    var r2 := ProbeOver(c, PEER, 1500, Single(BackDated()), [WebJob(PEER, Done)], 1800);
    RunConcat(c, s0, r1, r2);
    SingleDue(c, BackDated(), 1800);
    var r3 := TickOffers(c, PEER, 1800, Single(BackDated()), [WP.Worker(PEER, WP.Finished)], [WebJob(PEER, Done)]);
    RunConcat(c, s0, r1 + r2, r3);
    run := r1 + r2 + r3;
  }

  lemma LateRecordCommits()
    ensures Example().Valid()
    ensures var tried := SeenStub(PEER, 1000).(lastAttemptMs := 1500);
            var s := Working(Example(), PEER, 1500, Single(tried), [WebJob(PEER, Stamped(None, 1000))], [PEER], [], 0);
            Step(Example(), s, WebPersist(0, Report(), false)) ==
            Working(Example(), PEER, 1500, Single(BackDated()), [WebJob(PEER, Done)], [PEER], [], 0)
  {
    var tried := SeenStub(PEER, 1000).(lastAttemptMs := 1500);
    assert Upserted(Single(tried), BackDated()) == Single(BackDated());
  }

  /**
   * Without the condition the spacing fails: in this reachable run a submission that read the
   * clock before a dispatch commits after it, and the peer is dispatched again 300 ms later
   * although both thresholds are at least 800 ms.
   */
  lemma LateSubmissionShortensSpacing() returns (c: Config, before: seq<Move>, between: seq<Move>)
    ensures c.Valid() && GoodThreshold(c.windows) == 800 && c.windows.staleBad == 1000
    ensures var s1 := Run(c, Initial(c, 1000, map[]), before);
            && Dispatches(c, s1, TickSend, PEER)
            && var s2 := Run(c, Step(c, s1, TickSend), between);
            Dispatches(c, s2, TickSend, PEER) && s2.tick.scan.now - s1.tick.scan.now == 300
  {
    c := Example();
    before := SubmissionStamped();
    between := SubmissionDatesBack();
    OfferIsSent(c, PEER, 1500, 1500, Single(SeenStub(PEER, 1000)), [], [WebJob(PEER, Stamped(None, 1000))]);
    OfferIsSent(c, PEER, 1800, 1800, Single(BackDated()), [WP.Worker(PEER, WP.Finished)], [WebJob(PEER, Done)]);
  }

  // --------------------------------------------------- a seeding that commits late

  function Pruning(): Config {
    Config(Policy(16111, true, ip => true), Windows(30, 30), 50, 1)
  }

  /** The peer is seen at 1, and a submitted probe of it has read the store. */
  lemma PeerRead() returns (run: seq<Move>)
    ensures Pruning().Valid()
    ensures var stub := SeenStub(PEER, 1);
            Run(Pruning(), Initial(Pruning(), 1, map[]), run) ==
            Idling(Pruning(), 1, Single(stub), [WebJob(PEER, Fetched(Some(stub)))])
  {
    var c, s0 := Pruning(), Initial(Pruning(), 1, map[]);
    RunOne(c, s0, Bootstrap([PEER], 1, false));
    SeedingStored(c, PEER, 1, s0);
    var r := SubmissionRead(c, SeenStub(PEER, 1), s0.(peers := Single(SeenStub(PEER, 1))));
    RunConcat(c, s0, [Bootstrap([PEER], 1, false)], r);
    run := [Bootstrap([PEER], 1, false)] + r;
  }

  lemma SubmissionRead(c: Config, rec: PeerRecord, s: System) returns (run: seq<Move>)
    requires c.Valid() && Storable(PEER, c.policy) && rec.address == PEER && s.peers == Single(rec) && s.web == []
    ensures Run(c, s, run) == s.(web := [WebJob(PEER, Fetched(Some(rec)))])
  {
    run := [Submit(PEER), WebFetch(0, false)];
    RunTwo(c, s, Submit(PEER), WebFetch(0, false));
    PeerSubmitted(c, s);
    assert Lookup(Single(rec), PEER) == Some(rec);
  }

  /** It answers at 100. */
  lemma AnswerStored() returns (run: seq<Move>)
    ensures Pruning().Valid()
    ensures var c, stub := Pruning(), SeenStub(PEER, 1);
            Run(c, Idling(c, 1, Single(stub), [WebJob(PEER, Fetched(Some(stub)))]), run) ==
            Idling(c, 100, Single(Answer(stub, 100)), [WebJob(PEER, Done)])
  {
    var c, stub := Pruning(), SeenStub(PEER, 1);
    var s0 := Idling(c, 1, Single(stub), [WebJob(PEER, Fetched(Some(stub)))]);
    var s1 := Idling(c, 100, Single(stub), [WebJob(PEER, Stamped(Some(stub), 100))]);
    RunTwo(c, s0, Advance(100), WebStamp(0));
    assert Step(c, s0, Advance(100)) == s0.(clock := 100);
    assert Step(c, s0.(clock := 100), WebStamp(0)) == s1;
    RunSnoc(c, s0, [Advance(100), WebStamp(0)], WebPersist(0, Report(), false));
    AnswerPersisted(c, stub, s1);
    run := [Advance(100), WebStamp(0)] + [WebPersist(0, Report(), false)];
  }

  lemma PeerAnswers() returns (run: seq<Move>)
    ensures Pruning().Valid()
    ensures Run(Pruning(), Initial(Pruning(), 1, map[]), run) ==
            Idling(Pruning(), 100, Single(Answer(SeenStub(PEER, 1), 100)), [WebJob(PEER, Done)])
  {
    var r0 := PeerRead();
    var r1 := AnswerStored();
    RunConcat(Pruning(), Initial(Pruning(), 1, map[]), r0, r1);
    run := r0 + r1;
  }

  lemma AnswerPersisted(c: Config, rec: PeerRecord, s: System)
    requires c.Valid() && IsCanonical(rec.address.ip) && s.peers == Single(rec)
    requires s.web == [WebJob(rec.address, Stamped(Some(rec), s.clock))]
    ensures Step(c, s, WebPersist(0, Report(), false)) ==
            s.(peers := Single(Answer(rec, s.clock)), web := [WebJob(rec.address, Done)])
  {
    assert Upserted(Single(rec), Answer(rec, s.clock)) == Single(Answer(rec, s.clock));
  }

  /**
   * A batch that read the clock at 5 commits after the answer of 100, and a prune at 120
   * removes the peer although it answered within the serving window of 30 ms.
   */
  lemma LateGossipPrunesServedPeer() returns (c: Config, run: seq<Move>)
    ensures c.Valid() && c.windows.staleGood <= c.deadAfter
    ensures var s := Run(c, Initial(c, 1, map[]), run);
            && HasRecord(s.peers, PEER) && InServingWindow(s.peers[PEER].rec, s.clock, c.windows.staleGood)
            && PEER !in Step(c, s, PruneTick(s.clock, false)).peers
  {
    c := Pruning();
    var s0, rec := Initial(c, 1, map[]), Answer(SeenStub(PEER, 1), 100);
    var r1 := PeerAnswers();
    var r2 := LateBatch(c, rec, Idling(c, 100, Single(rec), [WebJob(PEER, Done)]));
    RunConcat(c, s0, r1, r2);
    run := r1 + r2;
    assert IsDead(rec.(lastSeenMs := 5), SatSub(120, 50));
  }

  lemma LateBatch(c: Config, rec: PeerRecord, s: System) returns (run: seq<Move>)
    requires c.Valid() && rec.address == PEER && Storable(PEER, c.policy) && s.peers == Single(rec) && s.clock == 100
    ensures Run(c, s, run) == s.(clock := 120, peers := Single(rec.(lastSeenMs := 5)))
  {
    RunTwo(c, s, Gossip([PEER], 5, false), Advance(120));
    GossipDatesBack(c, rec, s);
    run := [Gossip([PEER], 5, false), Advance(120)];
  }

  lemma GossipDatesBack(c: Config, rec: PeerRecord, s: System)
    requires c.Valid() && rec.address == PEER && Storable(PEER, c.policy) && s.peers == Single(rec) && s.clock >= 5
    ensures Step(c, s, Gossip([PEER], 5, false)) == s.(peers := Single(rec.(lastSeenMs := 5)))
  {
    assert Discovered([PEER], c.policy) == [PEER];
    assert PEER in SetOf([PEER]);
    assert Seen(Single(rec), SetOf([PEER]), 5) == Single(rec.(lastSeenMs := 5));
  }

  // ------------------------------------------------ a restart under a stricter policy

  function Loose(): Config {
    Example().(policy := Example().policy.(strictPort := false))
  }

  /** Eight peers on other ports, which only the loose policy accepts. */
  function Others(): (s: seq<NetAddress>)
    ensures |s| == 8
    ensures forall i :: 0 <= i < 8 ==> s[i] == NetAddress(PEER.ip, i + 1)
  {
    seq(8, i requires 0 <= i < 8 => NetAddress(PEER.ip, i + 1))
  }

  /** The eight are seeded and never tried; the peer itself was tried at 1000 and failed. */
  function Mixed(): Table {
    OthersSeeded()[PEER := Good(AttemptStub(PEER, 1000))]
  }

  function OthersSeeded(): Table {
    map a | a in SetOf(Others()) :: Good(SeenStub(a, 1000))
  }

  lemma {:induction false} SeedsKept(raw: seq<NetAddress>, policy: Policy)
    requires forall i :: 0 <= i < |raw| ==> Storable(raw[i], policy)
    ensures Bootstrapped(raw, policy) == raw
  {
    if raw != [] {
      assert raw == [raw[0]] + raw[1..];
      SeedsKept(raw[1..], policy);
    }
  }

  lemma MixedReached() returns (run: seq<Move>)
    ensures Loose().Valid()
    ensures Run(Loose(), Initial(Loose(), 1000, map[]), run).peers == Mixed()
  {
    var c, s0 := Loose(), Initial(Loose(), 1000, map[]);
    assert Storable(PEER, c.policy);
    var s1 := s0.(peers := OthersSeeded());
    RunTwo(c, s0, Bootstrap(Others(), 1000, false), Submit(PEER));
    SeedsStored(c, Others(), 1000, s0);
    PeerSubmitted(c, s1);
    var s2 := s1.(web := [WebJob(PEER, Probing)]);
    RunTwo(c, s2, WebFail(0), WebRecord(0, false));
    SubmissionFails(s2);
    RunConcat(c, s0, [Bootstrap(Others(), 1000, false), Submit(PEER)], [WebFail(0), WebRecord(0, false)]);
    run := [Bootstrap(Others(), 1000, false), Submit(PEER)] + [WebFail(0), WebRecord(0, false)];
  }

  lemma SeedsStored(c: Config, raw: seq<NetAddress>, at: I64, s: System)
    requires c.Valid() && s.peers == map[] && at <= s.clock
    requires forall i :: 0 <= i < |raw| ==> Storable(raw[i], c.policy)
    ensures Step(c, s, Bootstrap(raw, at, false)) == s.(peers := map a | a in SetOf(raw) :: Good(SeenStub(a, at)))
  {
    SeedsKept(raw, c.policy);
    NewlySeen(SetOf(raw), at);
  }

  lemma NewlySeen(addrs: set<NetAddress>, at: I64)
    ensures Seen(map[], addrs, at) == map a | a in addrs :: Good(SeenStub(a, at))
  {
  }

  lemma SubmissionFails(s: System)
    requires s.peers == OthersSeeded() && s.clock == 1000 && s.web == [WebJob(PEER, Probing)]
    ensures Loose().Valid() && Step(Loose(), Step(Loose(), s, WebFail(0)), WebRecord(0, false)).peers == Mixed()
  {
    assert Step(Loose(), s, WebFail(0)) == s.(web := [WebJob(PEER, Failed(1000))]);
    assert PEER !in OthersSeeded();
  }

  function OtherEntries(): (es: seq<Entry>)
    ensures |es| == 8
    ensures forall i :: 0 <= i < 8 ==> es[i] == Entry(0, Others()[i])
  {
    seq(8, i requires 0 <= i < 8 => Entry(0, Others()[i]))
  }

  lemma MixedDue(clock: I64)
    requires 2000 <= clock
    ensures Example().Valid() && PEER !in SetOf(Others())
    ensures DueEntries(Mixed(), clock, Example().windows, SatSub(clock, I64_MAX)) ==
            SetOf(OtherEntries()) + {Entry(1000, PEER)}
  {
    var p, w, cutoff := Mixed(), Example().windows, SatSub(clock, I64_MAX);
    var es := DueEntries(p, clock, w, cutoff);
    assert PEER !in SetOf(Others());
    forall i | 0 <= i < 8 ensures OtherEntries()[i] in es {
      var k := Others()[i];
      assert k in SetOf(Others()) && p[k] == Good(SeenStub(k, 1000)) && IsEligible(p[k].rec, clock, w, cutoff);
      assert HasRecord(p, k) && OtherEntries()[i] == Entry(p[k].rec.lastAttemptMs, k);
    }
    assert HasRecord(p, PEER) && IsEligible(p[PEER].rec, clock, w, cutoff);
    forall e | e in es ensures e in SetOf(OtherEntries()) + {Entry(1000, PEER)} {
      if e.key != PEER {
        var i :| 0 <= i < 8 && Others()[i] == e.key;
        assert e == OtherEntries()[i];
      }
    }
  }

  /**
   * Restarted under a policy that bars the eight, the crawler never gets to the peer: at any
   * later time a tick finds it due, acceptable and not in flight, and yet fetches only the
   * eight, rejects them and leaves everything as it was.
   */
  lemma StricterPolicyStarves(clock: I64)
    requires 2000 <= clock
    ensures Example().Valid() && TableOk(Mixed())
    ensures var s := Initial(Example(), clock, Mixed());
            && Starving(Example(), s) && s.pool.inFlight == {} && IsAcceptable(PEER, Example().policy)
            && PEER in DueSet(s.peers, clock, Example().windows, SatSub(clock, Example().deadAfter))
  {
    var c, s := Example(), Initial(Example(), clock, Mixed());
    WP.NewPoolInv<Job>(c.threads);
    MixedDue(clock);
    var barred := SetOf(OtherEntries());
    DistinctSize(OtherEntries());
    assert Entry(1000, PEER) in DueEntries(Mixed(), clock, c.windows, SatSub(clock, I64_MAX));
    OldBarredPeersStarve(c, s, barred, {Entry(1000, PEER)});
  }
}
