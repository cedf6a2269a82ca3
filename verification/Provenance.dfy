/** Where the dates in the store come from, over whole runs of the crawler. */
module Provenance {
  import opened Common
  import opened Net
  import opened Peers
  import opened PeerFilter
  import opened Probe
  import opened Crawler
  import Dns
  import WP = WorkerPool

  // --------------------------------------------- a success date means a probe

  /** Move j of the run committed the success of a probe of `k`, dated `at`. */
  ghost predicate ProbeSucceeded(c: Config, s: System, run: seq<Move>, j: nat, k: NetAddress, at: I64)
    requires c.Valid()
  {
    && j < |run| && (run[j].Persist? || run[j].WebPersist?)
    && var commit := CommitOf(c, Run(c, s, run[..j]), run[j]);
    commit.Some? && commit.value.Upsert? && commit.value.rec.address == k && commit.value.rec.lastSuccessMs == at
  }

  /** `k` has an answer on record that it had not before the run. */
  ghost predicate AnsweredSince(c: Config, s: System, run: seq<Move>, k: NetAddress)
    requires c.Valid()
  {
    var p := Run(c, s, run).peers;
    && HasRecord(p, k) && p[k].rec.lastSuccessMs != 0
    && (HasRecord(s.peers, k) ==> s.peers[k].rec.lastSuccessMs != p[k].rec.lastSuccessMs)
  }

  /** In every run a success date that a stored peer did not have before is that of a probe of that very address. */
  lemma {:induction false} SuccessWasProbed(c: Config, s: System, run: seq<Move>, k: NetAddress) returns (j: nat)
    requires c.Valid() && AnsweredSince(c, s, run, k)
    ensures ProbeSucceeded(c, s, run, j, k, Run(c, s, run).peers[k].rec.lastSuccessMs)
  {
    var n := |run| - 1;
    var t := Run(c, s, run[..n]);
    var commit := CommitOf(c, t, run[n]);
    if commit.Some? && commit.value.Upsert? && commit.value.rec.address == k {
      j := n;
    } else {
      if commit.Some? { OnlyUpsertDatesSuccess(t.peers, commit.value, k); }
      j := SuccessWasProbed(c, s, run[..n], k);
      assert run[..n][..j] == run[..j];
    }
  }

  // ------------------------------------------------- the first sighting is kept

  /** The record a probe will write, if it succeeds, carries the first sighting `first`. */
  predicate CarriesFirst(j: Job, first: I64) {
    match j
    case Fetched(e) => e.Some? && e.value.firstSeenMs == first
    case Stamped(e, _) => e.Some? && e.value.firstSeenMs == first
    case _ => true
  }

  /** `a` is stored with first sighting `first`, and no probe under way read the store before that. */
  ghost predicate FirstSeenHeld(s: System, a: NetAddress, first: I64) {
    && HasRecord(s.peers, a) && s.peers[a].rec.firstSeenMs == first
    && (forall w :: w in s.pool.workers && w.addr == a && w.stage.Live? ==> CarriesFirst(w.stage.job, first))
    && (forall w :: w in s.web && w.addr == a ==> CarriesFirst(w.job, first))
  }

  lemma CommitKeepsFirstSeen(c: Config, s: System, m: Move, a: NetAddress, first: I64)
    requires c.Valid() && Inv(c, s) && FirstSeenHeld(s, a, first) && Keeps(c, s, m, a)
    ensures var p := NextPeers(c, s, m); HasRecord(p, a) && p[a].rec.firstSeenMs == first
  {
    if m.Persist? && IsLive(s, m.i) {
      WP.WorkerInFlight(s.pool, m.i);
      assert s.pool.workers[m.i] in s.pool.workers;
    }
    if m.WebPersist? && m.i < |s.web| {
      assert s.web[m.i] in s.web;
    }
  }

  lemma ProbesCarryFirstSeen(c: Config, s: System, m: Move, a: NetAddress, first: I64)
    requires c.Valid() && Inv(c, s) && FirstSeenHeld(s, a, first)
    ensures forall w :: w in NextPool(c, s, m).workers && w.addr == a && w.stage.Live? ==>
              CarriesFirst(w.stage.job, first)
  {
    LiveWorkers(c, s, m);
    if (m.Fetch? || m.Stamp?) && IsLive(s, m.i) {
      WP.WorkerInFlight(s.pool, m.i);
      assert s.pool.workers[m.i] in s.pool.workers;
    }
  }

  lemma SubmissionsCarryFirstSeen(c: Config, s: System, m: Move, a: NetAddress, first: I64)
    requires c.Valid() && Inv(c, s) && FirstSeenHeld(s, a, first)
    ensures forall w :: w in NextWeb(c, s, m) && w.addr == a ==> CarriesFirst(w.job, first)
  {
    if (m.WebFetch? || m.WebStamp?) && m.i < |s.web| {
      assert s.web[m.i] in s.web;
    }
  }

  /**
   * Probing preserves history: once a peer is stored and no probe under way read the store
   * before that, its first sighting stays the same until the peer is removed.
   */
  lemma {:induction false} FirstSeenKept(c: Config, s: System, run: seq<Move>, a: NetAddress, first: I64)
    requires c.Valid() && Inv(c, s) && FirstSeenHeld(s, a, first) && KeepsAlong(c, s, run, a)
    ensures FirstSeenHeld(Run(c, s, run), a, first)
  {
    if run != [] {
      var init, m := run[..|run| - 1], run[|run| - 1];
      FirstSeenKept(c, s, init, a, first);
      RunKeepsInv(c, s, init);
      CommitKeepsFirstSeen(c, Run(c, s, init), m, a, first);
      ProbesCarryFirstSeen(c, Run(c, s, init), m, a, first);
      SubmissionsCarryFirstSeen(c, Run(c, s, init), m, a, first);
    }
  }

  /** The record a probe writes from what it read, at its clock reading, says `first`. */
  predicate SaysFirst(existing: Option<PeerRecord>, at: I64, first: I64) {
    if existing.Some? then existing.value.firstSeenMs == first else at == first
  }

  /** If the move commits a probe of `a`, that probe read the first sighting the store has. */
  predicate Agrees(s: System, m: Move, a: NetAddress, first: I64) {
    match m
    case Persist(i, _, fault) =>
      !fault && IsLive(s, i) && s.pool.workers[i].addr == a && JobOf(s, i).Stamped? ==>
        SaysFirst(JobOf(s, i).existing, JobOf(s, i).at, first)
    case WebPersist(i, _, fault) =>
      !fault && i < |s.web| && s.web[i].addr == a && s.web[i].job.Stamped? ==>
        SaysFirst(s.web[i].job.existing, s.web[i].job.at, first)
    case _ => true
  }

  lemma MoveKeepsFirstSeenIff(c: Config, s: System, m: Move, a: NetAddress)
    requires c.Valid() && Inv(c, s) && HasRecord(s.peers, a) && Keeps(c, s, m, a)
    ensures var p, first := NextPeers(c, s, m), s.peers[a].rec.firstSeenMs;
            HasRecord(p, a) && (p[a].rec.firstSeenMs == first <==> Agrees(s, m, a, first))
  {
    if m.Persist? && IsLive(s, m.i) {
      WP.WorkerInFlight(s.pool, m.i);
    }
    if m.WebPersist? && m.i < |s.web| {
      assert s.web[m.i] in s.web;
    }
  }

  ghost predicate FirstSeenAlong(c: Config, s: System, run: seq<Move>, a: NetAddress, first: I64)
    requires c.Valid()
  {
    && (var p := Run(c, s, run).peers; HasRecord(p, a) && p[a].rec.firstSeenMs == first)
    && (run == [] || FirstSeenAlong(c, s, run[..|run| - 1], a, first))
  }

  ghost predicate AgreesAlong(c: Config, s: System, run: seq<Move>, a: NetAddress, first: I64)
    requires c.Valid()
  {
    run == [] ||
    var init := run[..|run| - 1];
    AgreesAlong(c, s, init, a, first) && Agrees(Run(c, s, init), run[|run| - 1], a, first)
  }

  /**
   * Without the condition on probes under way: while a peer stays stored, its first sighting
   * stays the same exactly if no committing probe read another one.
   */
  lemma {:induction false} FirstSeenKeptIff(c: Config, s: System, run: seq<Move>, a: NetAddress, first: I64)
    requires c.Valid() && Inv(c, s) && HasRecord(s.peers, a) && s.peers[a].rec.firstSeenMs == first
    requires KeepsAlong(c, s, run, a)
    ensures FirstSeenAlong(c, s, run, a, first) <==> AgreesAlong(c, s, run, a, first)
  {
    if run != [] {
      var init, m := run[..|run| - 1], run[|run| - 1];
      FirstSeenKeptIff(c, s, init, a, first);
      if FirstSeenAlong(c, s, init, a, first) {
        RunKeepsInv(c, s, init);
        assert HasRecord(Run(c, s, init).peers, a);
        MoveKeepsFirstSeenIff(c, Run(c, s, init), m, a);
      }
    }
  }

  // ---------------------------------------- seen since the last answer, or pruned

  /** The last sighting is not before the last answer; a prune then never removes the peer while it is served. */
  predicate SeenSince(p: Table, a: NetAddress) {
    HasRecord(p, a) && p[a].rec.lastSuccessMs <= p[a].rec.lastSeenMs
  }

  /** If the move commits a batch that names `a`, the batch read the clock no earlier than `a` last answered. */
  predicate BatchSince(c: Config, s: System, m: Move, a: NetAddress)
    requires HasRecord(s.peers, a)
  {
    match m
    case Bootstrap(raw, at, fault) =>
      !fault && at <= s.clock && a in Bootstrapped(raw, c.policy) ==> s.peers[a].rec.lastSuccessMs <= at
    case Gossip(raw, at, fault) =>
      !fault && at <= s.clock && a in Discovered(raw, c.policy) ==> s.peers[a].rec.lastSuccessMs <= at
    case _ => true
  }

  lemma MoveKeepsSeenIff(c: Config, s: System, m: Move, a: NetAddress)
    requires c.Valid() && Inv(c, s) && SeenSince(s.peers, a) && Keeps(c, s, m, a)
    ensures SeenSince(NextPeers(c, s, m), a) <==> BatchSince(c, s, m, a)
  {
  }

  ghost predicate SeenAlong(c: Config, s: System, run: seq<Move>, a: NetAddress)
    requires c.Valid()
  {
    SeenSince(Run(c, s, run).peers, a) && (run == [] || SeenAlong(c, s, run[..|run| - 1], a))
  }

  ghost predicate BatchesSince(c: Config, s: System, run: seq<Move>, a: NetAddress)
    requires c.Valid()
  {
    run == [] ||
    var init := run[..|run| - 1];
    && BatchesSince(c, s, init, a)
    && HasRecord(Run(c, s, init).peers, a) && BatchSince(c, Run(c, s, init), run[|run| - 1], a)
  }

  /**
   * Over every run: while a peer stays stored, its last sighting stays at or after its last
   * answer exactly if every committing batch that names it is dated so.
   */
  lemma {:induction false} SeenAlongIff(c: Config, s: System, run: seq<Move>, a: NetAddress)
    requires c.Valid() && Inv(c, s) && SeenSince(s.peers, a) && KeepsAlong(c, s, run, a)
    ensures SeenAlong(c, s, run, a) <==> BatchesSince(c, s, run, a)
  {
    if run != [] {
      var init, m := run[..|run| - 1], run[|run| - 1];
      SeenAlongIff(c, s, init, a);
      if SeenAlong(c, s, init, a) {
        RunKeepsInv(c, s, init);
        MoveKeepsSeenIff(c, Run(c, s, init), m, a);
      }
    }
  }

  /** A peer seen since it answered is never pruned while it is served. */
  lemma SeenIsNotPruned(c: Config, s: System, a: NetAddress, now: I64)
    requires c.Valid() && c.windows.staleGood <= c.deadAfter && 0 <= now <= s.clock && SeenSince(s.peers, a)
    requires InServingWindow(s.peers[a].rec, now, c.windows.staleGood)
    ensures HasRecord(Step(c, s, PruneTick(now, false)).peers, a)
  {
    ServedPeerPrunedIff(s.peers, a, now, c.windows.staleGood, c.deadAfter);
  }

  // -------------------------------------------------- dates stay behind the clock

  predicate Dated(t: I64, clock: I64) {
    0 <= t <= clock
  }

  predicate RecordDated(rec: PeerRecord, clock: I64) {
    && Dated(rec.firstSeenMs, clock) && Dated(rec.lastSeenMs, clock)
    && Dated(rec.lastAttemptMs, clock) && Dated(rec.lastSuccessMs, clock)
  }

  ghost predicate TableDated(p: Table, clock: I64) {
    forall k :: HasRecord(p, k) ==> RecordDated(p[k].rec, clock)
  }

  predicate JobDated(j: Job, clock: I64) {
    match j
    case Fetched(e) => e.Some? ==> RecordDated(e.value, clock)
    case Stamped(e, at) => Dated(at, clock) && (e.Some? ==> RecordDated(e.value, clock))
    case Failed(at) => Dated(at, clock)
    case _ => true
  }

  ghost predicate JobsDated(s: System) {
    && (forall w :: w in s.pool.workers && w.stage.Live? ==> JobDated(w.stage.job, s.clock))
    && (forall w :: w in s.web ==> JobDated(w.job, s.clock))
  }

  predicate TickDated(t: Tick, clock: I64) {
    !t.Waiting? ==> Dated(TickDate(t), clock)
  }

  ghost predicate AllDated(s: System) {
    0 <= s.clock && TableDated(s.peers, s.clock) && JobsDated(s) && TickDated(s.tick, s.clock)
  }

  /** Seeding and gossip are dated by a clock reading that is not before the epoch. */
  predicate SeedsDated(m: Move) {
    m.Bootstrap? || m.Gossip? ==> 0 <= m.at
  }

  predicate CommitDated(c: Commit, clock: I64) {
    match c
    case Upsert(rec) => RecordDated(rec, clock)
    case Attempt(_, now) => Dated(now, clock)
    case SeenBatch(_, now) => Dated(now, clock)
    case _ => true
  }

  lemma CommitKeepsDated(p: Table, commit: Commit, clock: I64)
    requires TableDated(p, clock) && CommitDated(commit, clock) && 0 <= clock
    ensures TableDated(Apply(p, commit), clock)
  {
  }

  lemma CommitsDated(c: Config, s: System, m: Move)
    requires AllDated(s) && SeedsDated(m)
    ensures CommitOf(c, s, m).Some? ==> CommitDated(CommitOf(c, s, m).value, s.clock)
  {
    if m.Persist? && IsLive(s, m.i) {
      assert s.pool.workers[m.i] in s.pool.workers;
    }
    if (m.WebPersist? || m.WebRecord?) && m.i < |s.web| {
      assert s.web[m.i] in s.web;
    }
  }

  lemma WorkersStayDated(c: Config, s: System, m: Move)
    requires AllDated(s)
    ensures forall w :: w in NextPool(c, s, m).workers && w.stage.Live? ==> JobDated(w.stage.job, s.clock)
  {
    LiveWorkers(c, s, m);
    if (m.Stamp? || m.Fetch?) && IsLive(s, m.i) {
      assert s.pool.workers[m.i] in s.pool.workers;
    }
  }

  lemma WebStaysDated(c: Config, s: System, m: Move)
    requires AllDated(s)
    ensures forall w :: w in NextWeb(c, s, m) ==> JobDated(w.job, s.clock)
  {
    if (m.WebStamp? || m.WebFetch?) && m.i < |s.web| {
      assert s.web[m.i] in s.web;
    }
  }

  lemma LaterClock(p: Table, clock: I64, later: I64)
    requires TableDated(p, clock) && clock <= later
    ensures TableDated(p, later)
  {
  }

  lemma StepKeepsDated(c: Config, s: System, m: Move)
    requires c.Valid() && AllDated(s) && SeedsDated(m)
    ensures AllDated(Step(c, s, m))
  {
    TableStaysDated(c, s, m);
    WorkersStayDated(c, s, m);
    WebStaysDated(c, s, m);
    TickStaysDated(c, s, m);
  }

  lemma TableStaysDated(c: Config, s: System, m: Move)
    requires c.Valid() && AllDated(s) && SeedsDated(m)
    ensures TableDated(NextPeers(c, s, m), Step(c, s, m).clock)
  {
    CommitsDated(c, s, m);
    if CommitOf(c, s, m).Some? { CommitKeepsDated(s.peers, CommitOf(c, s, m).value, s.clock); }
    LaterClock(NextPeers(c, s, m), s.clock, Step(c, s, m).clock);
  }

  lemma TickStaysDated(c: Config, s: System, m: Move)
    requires c.Valid() && 0 <= s.clock && TickDated(s.tick, s.clock)
    ensures TickDated(NextTick(c, s, m), Step(c, s, m).clock)
  {
  }

  lemma {:induction false} RunKeepsDated(c: Config, s: System, run: seq<Move>)
    requires c.Valid() && AllDated(s)
    requires forall i :: 0 <= i < |run| ==> SeedsDated(run[i])
    ensures AllDated(Run(c, s, run))
  {
    if run != [] {
      RunKeepsDated(c, s, run[..|run| - 1]);
      StepKeepsDated(c, Run(c, s, run[..|run| - 1]), run[|run| - 1]);
    }
  }

  /**
   * In every run of a clock past the epoch, no date in the store is ahead of the clock and no
   * scan aborts: the ages a filter computes at any time from the epoch on fit `i64`.
   */
  lemma ScansNeverOverflow(c: Config, clock: I64, p: Table, run: seq<Move>, f: Filter)
    requires c.Valid() && 0 <= clock && 0 <= f.nowMs && TableDated(p, clock)
    requires forall i :: 0 <= i < |run| ==> SeedsDated(run[i])
    ensures AllComparable(f, Run(c, Initial(c, clock, p), run).peers)
    ensures TableDated(Run(c, Initial(c, clock, p), run).peers, Run(c, Initial(c, clock, p), run).clock)
  {
    RunKeepsDated(c, Initial(c, clock, p), run);
  }

  /**
   * From probe to answer: whatever a DNS snapshot selects from the store of a run is a peer
   * that a probe of the run reached within the serving window, at its own address, or one whose
   * answer was on record when the run began.
   */
  lemma ServedPeersWereProbed(
    c: Config, clock: I64, p: Table, run: seq<Move>,
    cfg: Dns.DnsConfig, port: Port, family: Family, now: I64, k: NetAddress)
    returns (j: nat)
    requires c.Valid() && 0 <= clock && TableDated(p, clock) && cfg.staleGood < now && 0 <= now
    requires forall i :: 0 <= i < |run| ==> SeedsDated(run[i])
    requires AllComparable(Dns.ServingFilter(cfg, port, family, now), Run(c, Initial(c, clock, p), run).peers)
    requires k in Selected(Run(c, Initial(c, clock, p), run).peers, Dns.ServingFilter(cfg, port, family, now))
    ensures var s := Run(c, Initial(c, clock, p), run);
            var at := s.peers[k].rec.lastSuccessMs;
            && now - cfg.staleGood <= at <= s.clock
            && (|| ProbeSucceeded(c, Initial(c, clock, p), run, j, k, at)
                || (HasRecord(p, k) && p[k].rec.lastSuccessMs == at))
  {
    var s0 := Initial(c, clock, p);
    Dns.SelectedAreServable(Run(c, s0, run).peers, cfg, port, family, now, k);
    RunKeepsDated(c, s0, run);
    j := 0;
    if AnsweredSince(c, s0, run, k) {
      j := SuccessWasProbed(c, s0, run, k);
    }
  }
}
