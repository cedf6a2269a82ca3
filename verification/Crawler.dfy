/**
 * The running crawler: clock, peer table, worker pool, the scheduler's probe tick and the
 * HTTP submissions, as one machine of atomic steps. Each step commits at most one store
 * transaction and makes at most one pool step, except a restart, which keeps only the store
 * and the clock; a step that is not enabled changes nothing,
 * so every sequence of moves is a run and every interleaving is one of them.
 */
module Crawler {
  import opened Common
  import opened Net
  import opened Peers
  import opened Probe
  import WP = WorkerPool

  datatype Config = Config(policy: Policy, windows: Windows, deadAfter: I64, threads: nat) {
    ghost predicate Valid() {
      windows.Valid() && threads <= WP.MAX_THREADS
    }
  }

  /**
   * How far a probe has come: waiting for the peer, then, on success, the old record read,
   * the clock read and the new record committed, each in its own step. A failed HTTP probe
   * reads the clock and then commits an attempt.
   */
  datatype Job =
    | Probing
    | Fetched(existing: Option<PeerRecord>)
    | Stamped(existing: Option<PeerRecord>, at: I64)
    | Failed(at: I64)
    | Done

  datatype WebJob = WebJob(addr: NetAddress, job: Job)

  /** What a tick knew when it scanned the store: its clock reading, the table, who was in flight. */
  datatype Scan = Scan(now: I64, table: Table, busy: set<NetAddress>, candidates: seq<NetAddress>)

  datatype Counts = Counts(dispatched: nat, duplicate: nat, unacceptable: nat, skipped: nat)

  datatype End = Exhausted | BackPressured | Shut

  datatype Tick =
    | Waiting
    | Timed(at: I64)
    | Scanning(scan: Scan, rest: seq<NetAddress>, n: Counts)
    | Sending(scan: Scan, addr: NetAddress, rest: seq<NetAddress>, n: Counts)
    | Recording(scan: Scan, addr: NetAddress, rest: seq<NetAddress>, n: Counts)
    | Over(scan: Scan, n: Counts, end: End)

  /** The one clock reading a tick works with. */
  function TickDate(t: Tick): I64
    requires !t.Waiting?
  {
    if t.Timed? then t.at else t.scan.now
  }

  datatype System = System(clock: I64, peers: Table, pool: WP.Pool<Job>, tick: Tick, web: seq<WebJob>)

  datatype Move =
    | Advance(to: I64)
    | TickStart
    | TickFetch(fault: bool)
    | TickOffer
    | TickSend
    | TickWithdraw
    | TickRecord(fault: bool)
    | TickClose
    | Receive
    | Spawn
    | Start(i: nat)
    | Fail(i: nat)
    | Fetch(i: nat, fault: bool)
    | Stamp(i: nat)
    | Persist(i: nat, v: VersionMessage, fault: bool)
    | Release(i: nat)
    | Remove(i: nat)
    | Join(i: nat)
    | Bootstrap(addrs: seq<NetAddress>, at: I64, fault: bool)
    | Gossip(addrs: seq<NetAddress>, at: I64, fault: bool)
    | Submit(raw: NetAddress)
    | WebFetch(i: nat, fault: bool)
    | WebStamp(i: nat)
    | WebPersist(i: nat, v: VersionMessage, fault: bool)
    | WebFail(i: nat)
    | WebRecord(i: nat, fault: bool)
    | WebDelete(raw: NetAddress, fault: bool)
    | PruneTick(at: I64, fault: bool)
    | Restart

  /** A process that starts on the rows `p`, an empty store or what an earlier process, under any policy, left. */
  function Initial(c: Config, clock: I64, p: Table): System {
    System(clock, p, WP.NewPool(c.threads), Waiting, [])
  }

  function Lookup(p: Table, a: NetAddress): Option<PeerRecord> {
    if HasRecord(p, a) then Some(p[a].rec) else None
  }

  /** `get` fails on a storage fault and on a row that does not decode; the probe then writes nothing. */
  function Reads(p: Table, a: NetAddress, fault: bool): Job {
    if fault || (a in p && p[a].Corrupt?) then Done else Fetched(Lookup(p, a))
  }

  predicate IsLive(s: System, i: nat) {
    i < |s.pool.workers| && s.pool.workers[i].stage.Live?
  }

  function JobOf(s: System, i: nat): Job
    requires IsLive(s, i)
  {
    s.pool.workers[i].stage.job
  }

  // --------------------------------------------------------- what a move commits

  /** The store transaction of a move, if it makes one and the database does not fail. */
  function CommitOf(c: Config, s: System, m: Move): Option<Commit> {
    match m
    case TickRecord(fault) =>
      if s.tick.Recording? && !fault then Some(Attempt(s.tick.addr, s.tick.scan.now)) else None
    case Persist(i, v, fault) =>
      if IsLive(s, i) && JobOf(s, i).Stamped? && !fault
      then Some(Upsert(PeerRecordFromVersion(s.pool.workers[i].addr, v, JobOf(s, i).at, JobOf(s, i).existing)))
      else None
    case Bootstrap(raw, at, fault) =>
      if at <= s.clock && !fault then Some(SeenBatch(Bootstrapped(raw, c.policy), at)) else None
    case Gossip(raw, at, fault) =>
      if at <= s.clock && !fault then Some(SeenBatch(Discovered(raw, c.policy), at)) else None
    case WebPersist(i, v, fault) =>
      if i < |s.web| && s.web[i].job.Stamped? && !fault
      then Some(Upsert(PeerRecordFromVersion(s.web[i].addr, v, s.web[i].job.at, s.web[i].job.existing))) else None
    case WebRecord(i, fault) =>
      if i < |s.web| && s.web[i].job.Failed? && !fault
      then Some(Attempt(NetFrom(s.web[i].addr), s.web[i].job.at)) else None
    case WebDelete(raw, fault) =>
      if !fault then Some(Delete(NetFrom(raw))) else None
    case PruneTick(at, fault) =>
      if at <= s.clock && !fault then Some(Prune(SatSub(at, c.deadAfter))) else None
    case Restart => Some(Reopen)
    case _ => None
  }

  function NextPeers(c: Config, s: System, m: Move): Table {
    match CommitOf(c, s, m)
    case Some(commit) => Apply(s.peers, commit)
    case None => s.peers
  }

  // --------------------------------------------------------- what a move does to the pool

  function PoolAction(c: Config, s: System, m: Move): Option<WP.Action<Job>> {
    match m
    case TickOffer =>
      if s.tick.Scanning? && s.tick.rest != [] && IsAcceptable(s.tick.rest[0], c.policy)
      then Some(WP.Insert(s.tick.rest[0])) else None
    case TickSend => if s.tick.Sending? then Some(WP.Send) else None
    case TickWithdraw => if s.tick.Sending? then Some(WP.Withdraw) else None
    case Receive => Some(WP.Receive)
    case Spawn => Some(WP.Spawn)
    case Start(i) => Some(WP.Start(i, Probing))
    case Fail(i) => if IsLive(s, i) && JobOf(s, i).Probing? then Some(WP.Work(i, Done)) else None
    case Fetch(i, fault) =>
      if IsLive(s, i) && JobOf(s, i).Probing?
      then Some(WP.Work(i, Reads(s.peers, NetFrom(s.pool.workers[i].addr), fault))) else None
    case Stamp(i) =>
      if IsLive(s, i) && JobOf(s, i).Fetched?
      then Some(WP.Work(i, Stamped(JobOf(s, i).existing, s.clock))) else None
    case Persist(i, _, _) => if IsLive(s, i) && JobOf(s, i).Stamped? then Some(WP.Work(i, Done)) else None
    case Release(i) => if IsLive(s, i) && JobOf(s, i).Done? then Some(WP.Release(i)) else None
    case Remove(i) => Some(WP.Remove(i))
    case Join(i) => Some(WP.Join(i))
    case _ => None
  }

  function NextPool(c: Config, s: System, m: Move): WP.Pool<Job> {
    if m.Restart? then WP.NewPool(c.threads)
    else
      match PoolAction(c, s, m)
      case Some(a) => WP.Next(s.pool, a)
      case None => s.pool
  }

  // --------------------------------------------------------- the tick

  ghost function DueNow(c: Config, s: System, now: I64): seq<NetAddress>
    requires c.Valid()
  {
    Addresses(Due(s.peers, now, c.windows, SatSub(now, c.deadAfter), 8 * s.pool.threads))
  }

  ghost function NextTick(c: Config, s: System, m: Move): Tick
    requires c.Valid()
  {
    match m
    case TickStart => if s.tick.Waiting? then Timed(s.clock) else s.tick
    case TickFetch(fault) =>
      if !s.tick.Timed? then s.tick
      else if fault then Waiting
      else
        var due := DueNow(c, s, s.tick.at);
        Scanning(Scan(s.tick.at, s.peers, s.pool.inFlight, due), due, Counts(0, 0, 0, 0))
    case TickOffer =>
      if !s.tick.Scanning? then s.tick
      else
        var scan, rest, n := s.tick.scan, s.tick.rest, s.tick.n;
        if rest == [] then Over(scan, n, Exhausted)
        else if !IsAcceptable(rest[0], c.policy) then Scanning(scan, rest[1..], n.(unacceptable := n.unacceptable + 1))
        else if rest[0] in s.pool.inFlight then Scanning(scan, rest[1..], n.(duplicate := n.duplicate + 1))
        else Sending(scan, rest[0], rest[1..], n)
    case TickSend =>
      if s.tick.Sending? && s.pool.producer.Inserted? && NextPool(c, s, m).producer.Idle?
      then Recording(s.tick.scan, s.tick.addr, s.tick.rest, s.tick.n) else s.tick
    case TickWithdraw =>
      if s.tick.Sending? && s.pool.producer.Refused? then
        if s.pool.producer.why.Full?
        then Over(s.tick.scan, s.tick.n.(skipped := 1 + |s.tick.rest|), BackPressured)
        else Over(s.tick.scan, s.tick.n, Shut)
      else s.tick
    case TickRecord(_) =>
      if s.tick.Recording?
      then Scanning(s.tick.scan, s.tick.rest, s.tick.n.(dispatched := s.tick.n.dispatched + 1)) else s.tick
    case TickClose => if s.tick.Over? then Waiting else s.tick
    case Restart => Waiting
    case _ => s.tick
  }

  // --------------------------------------------------------- HTTP submissions

  function SetJob(web: seq<WebJob>, i: nat, j: Job): seq<WebJob>
    requires i < |web|
  {
    web[i := web[i].(job := j)]
  }

  function NextWeb(c: Config, s: System, m: Move): seq<WebJob> {
    match m
    case Submit(raw) =>
      if IsAcceptable(NetFrom(raw), c.policy) then s.web + [WebJob(NetFrom(raw), Probing)] else s.web
    case WebFetch(i, fault) =>
      if i < |s.web| && s.web[i].job.Probing?
      then SetJob(s.web, i, Reads(s.peers, NetFrom(s.web[i].addr), fault)) else s.web
    case WebStamp(i) =>
      if i < |s.web| && s.web[i].job.Fetched?
      then SetJob(s.web, i, Stamped(s.web[i].job.existing, s.clock)) else s.web
    case WebPersist(i, _, _) =>
      if i < |s.web| && s.web[i].job.Stamped? then SetJob(s.web, i, Done) else s.web
    case WebFail(i) =>
      if i < |s.web| && s.web[i].job.Probing? then SetJob(s.web, i, Failed(s.clock)) else s.web
    case WebRecord(i, _) =>
      if i < |s.web| && s.web[i].job.Failed? then SetJob(s.web, i, Done) else s.web
    case Restart => []
    case _ => s.web
  }

  ghost function Step(c: Config, s: System, m: Move): System
    requires c.Valid()
  {
    System(
      if m.Advance? && m.to >= s.clock then m.to else s.clock,
      NextPeers(c, s, m), NextPool(c, s, m), NextTick(c, s, m), NextWeb(c, s, m))
  }

  ghost function Run(c: Config, s: System, run: seq<Move>): System
    requires c.Valid()
  {
    if run == [] then s else Step(c, Run(c, s, run[..|run| - 1]), run[|run| - 1])
  }

  lemma RunSnoc(c: Config, s: System, run: seq<Move>, m: Move)
    requires c.Valid()
    ensures Run(c, s, run + [m]) == Step(c, Run(c, s, run), m)
  {
    assert (run + [m])[..|run|] == run;
  }

  lemma RunOne(c: Config, s: System, m: Move)
    requires c.Valid()
    ensures Run(c, s, [m]) == Step(c, s, m)
  {
    RunSnoc(c, s, [], m);
    assert [] + [m] == [m];
  }

  lemma RunTwo(c: Config, s: System, m1: Move, m2: Move)
    requires c.Valid()
    ensures Run(c, s, [m1, m2]) == Step(c, Step(c, s, m1), m2)
  {
    RunOne(c, s, m1);
    RunSnoc(c, s, [m1], m2);
    assert [m1] + [m2] == [m1, m2];
  }

  lemma {:induction false} RunConcat(c: Config, s: System, a: seq<Move>, b: seq<Move>)
    requires c.Valid()
    ensures Run(c, s, a + b) == Run(c, Run(c, s, a), b)
  {
    if b == [] {
      assert a + b == a;
    } else {
      var n := |b| - 1;
      assert (a + b)[..|a + b| - 1] == a + b[..n];
      RunConcat(c, s, a, b[..n]);
    }
  }

  // ------------------------------------------- every new address is acceptable

  /** What opening the store leaves: rows that decode, each filed under its own canonical address. */
  ghost predicate TableOk(p: Table) {
    forall k :: k in p ==> p[k].Good? && p[k].rec.address == k && IsCanonical(k.ip)
  }

  /** Every address is acceptable, except those of `early`, which another policy may have let in. */
  ghost predicate NewStorable(p: Table, early: Table, policy: Policy) {
    forall k :: k in p && k !in early ==> Storable(k, policy)
  }

  ghost predicate CommitOk(commit: Commit, policy: Policy) {
    match commit
    case Upsert(rec) => Storable(rec.address, policy)
    case Attempt(a, _) => Storable(a, policy)
    case SeenBatch(addrs, _) => forall a :: a in addrs ==> Storable(a, policy)
    case _ => true
  }

  lemma CommitKeepsTableOk(p: Table, commit: Commit, policy: Policy)
    requires TableOk(p) && CommitOk(commit, policy)
    ensures TableOk(Apply(p, commit))
    ensures forall early :: NewStorable(p, early, policy) ==> NewStorable(Apply(p, commit), early, policy)
  {
  }

  /** Everything on its way into the store is storable too; what a tick has yet to offer is canonical. */
  ghost predicate PipelineOk(s: System, policy: Policy) {
    && (forall a :: a in s.pool.inFlight ==> Storable(a, policy))
    && (forall w :: w in s.web ==> Storable(w.addr, policy))
    && TickStorable(s.tick, policy)
  }

  ghost predicate TickStorable(t: Tick, policy: Policy) {
    && (t.Scanning? || t.Sending? || t.Recording? ==> forall a :: a in t.rest ==> IsCanonical(a.ip))
    && (t.Sending? || t.Recording? ==> Storable(t.addr, policy))
  }

  ghost predicate PoolOk(c: Config, s: System) {
    && WP.Inv(s.pool) && s.pool.phase.Running? && !s.pool.cancelled
    && s.pool.threads == (if c.threads == 0 then 1 else c.threads)
    && Offering(s.tick, s.pool.producer)
  }

  /** The pool is inside an enqueue exactly while the tick is sending, and for that address. */
  predicate Offering(tick: Tick, producer: WP.Producer) {
    && (tick.Sending? ==> !producer.Idle? && producer.addr == tick.addr)
    && (!tick.Sending? ==> producer.Idle?)
    && (producer.Refused? ==> producer.why.Full?)
  }

  ghost predicate Inv(c: Config, s: System) {
    PoolOk(c, s) && TableOk(s.peers) && PipelineOk(s, c.policy)
  }

  lemma StepKeepsPool(c: Config, s: System, m: Move)
    requires c.Valid() && PoolOk(c, s)
    ensures PoolOk(c, Step(c, s, m))
  {
    var a := PoolAction(c, s, m);
    if m.Restart? {
      WP.NewPoolInv<Job>(c.threads);
    } else if a.Some? {
      WP.StepKeepsInv(s.pool, a.value);
      if WP.ByProducer(a.value) {
        TickKeepsOffering(c, s, m);
      } else {
        WorkersKeepOffering(c, s, m);
        WP.OthersLeaveProducer(s.pool, a.value);
      }
    } else {
      IdleKeepsOffering(c, s, m);
    }
  }

  lemma TickKeepsOffering(c: Config, s: System, m: Move)
    requires c.Valid() && s.pool.phase.Running? && Offering(s.tick, s.pool.producer)
    requires m.TickOffer? || m.TickSend? || m.TickWithdraw?
    ensures Offering(NextTick(c, s, m), NextPool(c, s, m).producer)
    ensures var q := NextPool(c, s, m);
            q.phase == s.pool.phase && q.cancelled == s.pool.cancelled && q.threads == s.pool.threads
  {
  }

  lemma WorkersKeepOffering(c: Config, s: System, m: Move)
    requires c.Valid()
    requires var a := PoolAction(c, s, m); a.Some? && !WP.ByProducer(a.value)
    ensures NextTick(c, s, m) == s.tick
    ensures !PoolAction(c, s, m).value.Cancel?
  {
  }

  lemma IdleKeepsOffering(c: Config, s: System, m: Move)
    requires c.Valid() && PoolAction(c, s, m).None? && !m.Restart?
    ensures NextTick(c, s, m).Sending? == s.tick.Sending?
    ensures s.tick.Sending? ==> NextTick(c, s, m) == s.tick
  {
  }

  /** A live worker after a move was there before, has just started, or is the one the move advanced. */
  lemma LiveWorkers(c: Config, s: System, m: Move)
    ensures forall w :: w in NextPool(c, s, m).workers && w.stage.Live? ==>
              || w in s.pool.workers
              || w.stage.job.Probing?
              || var a := PoolAction(c, s, m);
                 && a.Some? && a.value.Work? && IsLive(s, a.value.i)
                 && w.addr == s.pool.workers[a.value.i].addr && w.stage.job == a.value.job
  {
  }

  lemma CommitsAreOk(c: Config, s: System, m: Move)
    requires c.Valid() && Inv(c, s)
    ensures CommitOf(c, s, m).Some? ==> CommitOk(CommitOf(c, s, m).value, c.policy)
  {
    if m.Persist? && IsLive(s, m.i) {
      WP.WorkerInFlight(s.pool, m.i);
    }
    if (m.WebPersist? || m.WebRecord?) && m.i < |s.web| {
      assert s.web[m.i] in s.web;
    }
  }

  /** A scheduled probe writes back to exactly the key it was scheduled under. */
  lemma PersistWritesScheduledKey(c: Config, s: System, i: nat, v: VersionMessage)
    requires c.Valid() && Inv(c, s) && IsLive(s, i) && JobOf(s, i).Stamped?
    ensures var commit := CommitOf(c, s, Persist(i, v, false));
            commit.Some? && commit.value.Upsert? && commit.value.rec.address == s.pool.workers[i].addr
  {
    WP.WorkerInFlight(s.pool, i);
  }

  lemma DueNowInTable(c: Config, s: System, now: I64)
    requires c.Valid() && TableOk(s.peers)
    ensures forall a :: a in DueNow(c, s, now) ==> IsCanonical(a.ip)
  {
    var cutoff := SatSub(now, c.deadAfter);
    DueAddresses(s.peers, now, c.windows, cutoff, 8 * s.pool.threads);
    forall a | a in DueNow(c, s, now) ensures IsCanonical(a.ip) {
      assert a in SetOf(DueNow(c, s, now));
    }
  }

  lemma InFlightGrowsByOffer(c: Config, s: System, m: Move)
    requires c.Valid() && PoolOk(c, s)
    ensures forall a :: a in NextPool(c, s, m).inFlight && a !in s.pool.inFlight ==>
              && m.TickOffer? && s.tick.Scanning? && s.tick.rest != []
              && a == s.tick.rest[0] && IsAcceptable(a, c.policy)
  {
    var a := PoolAction(c, s, m);
    if a.Some? && !WP.ByProducer(a.value) {
      WP.OthersLeaveProducer(s.pool, a.value);
    }
  }

  lemma TickKeepsStorable(c: Config, s: System, m: Move)
    requires c.Valid() && Inv(c, s)
    ensures TickStorable(NextTick(c, s, m), c.policy)
  {
    if m.TickFetch? && s.tick.Timed? {
      DueNowInTable(c, s, s.tick.at);
    }
  }

  lemma WebKeepsStorable(c: Config, s: System, m: Move)
    requires PipelineOk(s, c.policy)
    ensures forall w :: w in NextWeb(c, s, m) ==> Storable(w.addr, c.policy)
  {
  }

  lemma StepKeepsPipeline(c: Config, s: System, m: Move)
    requires c.Valid() && Inv(c, s)
    ensures PipelineOk(Step(c, s, m), c.policy)
  {
    InFlightGrowsByOffer(c, s, m);
    TickKeepsStorable(c, s, m);
    WebKeepsStorable(c, s, m);
  }

  lemma StepKeepsInv(c: Config, s: System, m: Move)
    requires c.Valid() && Inv(c, s)
    ensures Inv(c, Step(c, s, m))
  {
    StepKeepsPool(c, s, m);
    CommitsAreOk(c, s, m);
    if CommitOf(c, s, m).Some? {
      CommitKeepsTableOk(s.peers, CommitOf(c, s, m).value, c.policy);
    }
    StepKeepsPipeline(c, s, m);
  }

  lemma {:induction false} RunKeepsInv(c: Config, s: System, run: seq<Move>)
    requires c.Valid() && Inv(c, s)
    ensures Inv(c, Run(c, s, run))
  {
    if run != [] {
      RunKeepsInv(c, s, run[..|run| - 1]);
      StepKeepsInv(c, Run(c, s, run[..|run| - 1]), run[|run| - 1]);
    }
  }

  lemma InitialInv(c: Config, clock: I64, p: Table)
    requires c.Valid() && TableOk(p)
    ensures Inv(c, Initial(c, clock, p))
  {
    WP.NewPoolInv<Job>(c.threads);
  }

  lemma {:induction false} RunStoresAcceptable(c: Config, s: System, run: seq<Move>)
    requires c.Valid() && Inv(c, s)
    ensures NewStorable(Run(c, s, run).peers, s.peers, c.policy)
  {
    if run != [] {
      var init, m := run[..|run| - 1], run[|run| - 1];
      RunStoresAcceptable(c, s, init);
      RunKeepsInv(c, s, init);
      var t := Run(c, s, init);
      CommitsAreOk(c, t, m);
      if CommitOf(c, t, m).Some? {
        CommitKeepsTableOk(t.peers, CommitOf(c, t, m).value, c.policy);
      }
    }
  }

  /**
   * In every run, however bootstrap, gossip, submissions, probes and pruning interleave, every
   * stored address is canonical and files its own record, and is acceptable unless it was in
   * the store when the process started.
   */
  lemma StoredAddressesAcceptable(c: Config, clock: I64, p: Table, run: seq<Move>, a: NetAddress)
    requires c.Valid() && TableOk(p) && a in Run(c, Initial(c, clock, p), run).peers
    ensures IsCanonical(a.ip) && (a in p || IsAcceptable(a, c.policy))
    ensures HasRecord(Run(c, Initial(c, clock, p), run).peers, a)
    ensures Run(c, Initial(c, clock, p), run).peers[a].rec.address == a
  {
    InitialInv(c, clock, p);
    RunKeepsInv(c, Initial(c, clock, p), run);
    RunStoresAcceptable(c, Initial(c, clock, p), run);
  }

  /** A restart is a fresh start on what the store holds. */
  lemma RestartIsFreshStart(c: Config, s: System)
    requires c.Valid() && TableOk(s.peers)
    ensures Step(c, s, Restart) == Initial(c, s.clock, s.peers)
  {
    assert Decodable(s.peers) == s.peers;
  }

  /** A tick whose scan fails is over, with nothing changed. */
  lemma FailedScanEndsTick(c: Config, s: System)
    requires c.Valid() && s.tick.Timed?
    ensures Step(c, s, TickFetch(true)) == s.(tick := Waiting)
  {
  }

  /** An accepted submission joins those under way, and a refused one changes nothing. */
  lemma SubmissionsJoin(c: Config, s: System, raw: NetAddress)
    requires c.Valid()
    ensures var web := Step(c, s, Submit(raw)).web;
            if IsAcceptable(NetFrom(raw), c.policy)
            then |web| == |s.web| + 1 && web[..|s.web|] == s.web && web[|s.web|] == WebJob(NetFrom(raw), Probing)
            else web == s.web
  {
  }

  /** No step but a restart loses a submission or touches one that is not its own. */
  lemma SubmissionsIndependent(c: Config, s: System, m: Move, j: nat)
    requires c.Valid() && j < |s.web| && !m.Restart?
    requires m.WebFetch? || m.WebStamp? || m.WebPersist? || m.WebFail? || m.WebRecord? ==> m.i != j
    ensures j < |Step(c, s, m).web| && Step(c, s, m).web[j] == s.web[j]
  {
  }

  /** A scheduled probe holds its slot until it has failed or its result is dealt with. */
  lemma SlotHeldUntilDone(c: Config, s: System, i: nat)
    requires c.Valid() && IsLive(s, i) && !JobOf(s, i).Done?
    ensures Step(c, s, Release(i)) == s
    ensures !JobOf(s, i).Probing? ==> Step(c, s, Fail(i)) == s
  {
  }

  /** A read that fails, for a fault or a row that does not decode, ends the probe without a write. */
  lemma FailedReadEndsProbe(c: Config, s: System, i: nat, fault: bool)
    requires c.Valid() && IsLive(s, i) && JobOf(s, i).Probing?
    requires var a := NetFrom(s.pool.workers[i].addr); fault || (a in s.peers && s.peers[a].Corrupt?)
    ensures var t := Step(c, s, Fetch(i, fault));
            t.peers == s.peers && IsLive(t, i) && JobOf(t, i).Done?
  {
  }

  /** A deletion that commits removes the peer under its canonical address. */
  lemma DeletionRemoves(c: Config, s: System, raw: NetAddress)
    requires c.Valid()
    ensures NetAddress(CanonicalizeIp(raw.ip), raw.port) !in Step(c, s, WebDelete(raw, false)).peers
  {
    DeletedMeans(s.peers, NetFrom(raw));
  }

  /** A prune removes exactly whoever answered, but not within `deadAfter`, or was not seen within it. */
  lemma PruneTickRemovesIff(c: Config, s: System, at: I64, k: NetAddress)
    requires c.Valid() && 0 <= at <= s.clock && 0 <= c.deadAfter && HasRecord(s.peers, k)
    ensures var rec := s.peers[k].rec;
            k !in Step(c, s, PruneTick(at, false)).peers <==>
              || (rec.lastSuccessMs > 0 && at - rec.lastSuccessMs > c.deadAfter)
              || (at - rec.lastSeenMs > c.deadAfter && at - rec.firstSeenMs > c.deadAfter)
  {
    PrunedMeans(s.peers, SatSub(at, c.deadAfter), k);
  }

  /** Whatever a probe's peer advertises is stored, seen at the time the batch was read, if the policy accepts it. */
  lemma GossipIsStored(c: Config, s: System, raw: seq<NetAddress>, at: I64, x: NetAddress)
    requires c.Valid() && TableOk(s.peers) && at <= s.clock
    requires x in raw && x.port != 0 && IsAcceptable(NetFrom(x), c.policy)
    ensures var p := Step(c, s, Gossip(raw, at, false)).peers;
            HasRecord(p, NetFrom(x)) && p[NetFrom(x)].rec.lastSeenMs == at
  {
    var found := SetOf(Discovered(raw, c.policy));
    assert NetFrom(x) in found && AllDecode(s.peers, found);
    SeenMeans(s.peers, found, at);
  }

  /** The move does not remove `a` from the store. */
  predicate Keeps(c: Config, s: System, m: Move, a: NetAddress) {
    match CommitOf(c, s, m)
    case Some(Delete(x)) => x != a
    case Some(Prune(cutoff)) => HasRecord(s.peers, a) ==> !IsDead(s.peers[a].rec, cutoff)
    case _ => true
  }

  ghost predicate KeepsAlong(c: Config, s: System, run: seq<Move>, a: NetAddress)
    requires c.Valid()
  {
    run == [] ||
    var init := run[..|run| - 1];
    KeepsAlong(c, s, init, a) && Keeps(c, Run(c, s, init), run[|run| - 1], a)
  }

  /** The store transactions of a run, in commit order. */
  ghost function Commits(c: Config, s: System, run: seq<Move>): seq<Commit>
    requires c.Valid()
  {
    if run == [] then [] else
      var init := run[..|run| - 1];
      var commit := CommitOf(c, Run(c, s, init), run[|run| - 1]);
      Commits(c, s, init) + if commit.Some? then [commit.value] else []
  }

  /** The table is at any time what its commits make of it, whoever made them from whatever stale read. */
  lemma {:induction false} PeersAreCommitted(c: Config, s: System, run: seq<Move>)
    requires c.Valid()
    ensures Run(c, s, run).peers == ApplyAll(s.peers, Commits(c, s, run))
  {
    if run != [] {
      var init := run[..|run| - 1];
      PeersAreCommitted(c, s, init);
      var log := Commits(c, s, init);
      var commit := CommitOf(c, Run(c, s, init), run[|run| - 1]);
      if commit.Some? {
        assert (log + [commit.value])[..|log|] == log;
      } else {
        assert log + [] == log;
      }
    }
  }
}
