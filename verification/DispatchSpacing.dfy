/** How far apart two probes of one address are, over whole runs of the crawler. */
module DispatchSpacing {
  import opened Common
  import opened Net
  import opened Peers
  import opened Crawler
  import opened TickProgress
  import WP = WorkerPool

  /** The scan found `a` due, by its record at that time, no earlier than its class allows after `since`. */
  ghost predicate Gap(c: Config, scan: Scan, a: NetAddress, since: I64)
    requires c.Valid()
  {
    HasRecord(scan.table, a) && scan.now - since >= Threshold(scan.table[a].rec, c.windows)
  }

  ghost predicate TickSpaced(c: Config, tick: Tick, a: NetAddress, since: I64)
    requires c.Valid()
  {
    match tick
    case Scanning(scan, rest, _) => a in rest ==> Gap(c, scan, a, since)
    case Sending(scan, addr, rest, _) => a == addr || a in rest ==> Gap(c, scan, a, since)
    case Recording(scan, addr, rest, _) =>
      (a in rest ==> Gap(c, scan, a, since)) && (a == addr && scan.now != since ==> Gap(c, scan, a, since))
    case _ => true
  }

  predicate Recorded(p: Table, a: NetAddress, since: I64) {
    HasRecord(p, a) && p[a].rec.lastAttemptMs >= since
  }

  predicate Pending(tick: Tick, a: NetAddress, since: I64) {
    tick.Recording? && tick.addr == a && tick.scan.now == since
  }

  ghost predicate JobsSpaced(ws: seq<WP.Worker<Job>>, a: NetAddress, since: I64) {
    forall w :: w in ws && w.addr == a && w.stage.Live? && w.stage.job.Stamped? ==> since <= w.stage.job.at
  }

  /** `a` was last dispatched by a tick dated `since`, and nothing under way can date it earlier. */
  ghost predicate Spaced(c: Config, s: System, a: NetAddress, since: I64)
    requires c.Valid()
  {
    && since <= s.clock
    && JobsSpaced(s.pool.workers, a, since)
    && (Pending(s.tick, a, since) || Recorded(s.peers, a, since))
    && TickSpaced(c, s.tick, a, since)
  }

  /**
   * What may not happen to `a` between two dispatches for the spacing to hold: its attempt
   * fails to be stored or is lost in a restart, it is removed, or an HTTP submission that read
   * the clock before `since` commits only now.
   */
  predicate Undisturbed(c: Config, s: System, m: Move, a: NetAddress, since: I64) {
    match m
    case TickRecord(fault) => !(fault && s.tick.Recording? && s.tick.addr == a)
    case Restart => !(s.tick.Recording? && s.tick.addr == a)
    case WebDelete(raw, fault) => fault || NetFrom(raw) != a
    case PruneTick(at, fault) => fault || !HasRecord(s.peers, a) || !IsDead(s.peers[a].rec, SatSub(at, c.deadAfter))
    case _ => SubmittedSince(s, m, a, since)
  }

  /** If the move commits an HTTP submission of `a`, that submission read the clock at `since` or later. */
  predicate SubmittedSince(s: System, m: Move, a: NetAddress, since: I64) {
    match m
    case WebPersist(i, _, fault) =>
      !fault && i < |s.web| && s.web[i].addr == a && s.web[i].job.Stamped? ==> since <= s.web[i].job.at
    case WebRecord(i, fault) =>
      !fault && i < |s.web| && s.web[i].addr == a && s.web[i].job.Failed? ==> since <= s.web[i].job.at
    case _ => true
  }

  lemma JobsStaySpaced(c: Config, s: System, m: Move, a: NetAddress, since: I64)
    requires c.Valid() && since <= s.clock && JobsSpaced(s.pool.workers, a, since)
    ensures JobsSpaced(NextPool(c, s, m).workers, a, since)
  {
    LiveWorkers(c, s, m);
  }

  predicate Harmless(p: Table, commit: Commit, a: NetAddress, since: I64) {
    match commit
    case Upsert(rec) => rec.address == a ==> since <= rec.lastAttemptMs
    case Attempt(x, now) => x == a ==> since <= now
    case Delete(x) => x != a
    case SeenBatch(_, _) => true
    case Prune(cutoff) => HasRecord(p, a) ==> !IsDead(p[a].rec, cutoff)
    case Reopen => true
  }

  lemma HarmlessKeepsRecorded(p: Table, commit: Commit, a: NetAddress, since: I64)
    requires Recorded(p, a, since) && Harmless(p, commit, a, since)
    ensures Recorded(Apply(p, commit), a, since)
  {
  }

  /** The scheduler, its probes and seeding never date `a` back; the rest is asked of the run. */
  lemma CommitsHarmless(c: Config, s: System, m: Move, a: NetAddress, since: I64)
    requires c.Valid() && Inv(c, s) && Spaced(c, s, a, since) && Undisturbed(c, s, m, a, since)
    ensures CommitOf(c, s, m).Some? ==> Harmless(s.peers, CommitOf(c, s, m).value, a, since)
  {
    if m.Persist? && IsLive(s, m.i) {
      WP.WorkerInFlight(s.pool, m.i);
      assert s.pool.workers[m.i] in s.pool.workers;
    }
    if (m.WebPersist? || m.WebRecord?) && m.i < |s.web| {
      assert s.web[m.i] in s.web;
    }
  }

  lemma PeersStaySpaced(c: Config, s: System, m: Move, a: NetAddress, since: I64)
    requires c.Valid() && Inv(c, s) && Spaced(c, s, a, since) && Undisturbed(c, s, m, a, since)
    ensures Recorded(s.peers, a, since) ==> Recorded(NextPeers(c, s, m), a, since)
    ensures m.TickRecord? && s.tick.Recording? && s.tick.addr == a ==> Recorded(NextPeers(c, s, m), a, since)
  {
    CommitsHarmless(c, s, m, a, since);
    if CommitOf(c, s, m).Some? && Recorded(s.peers, a, since) {
      HarmlessKeepsRecorded(s.peers, CommitOf(c, s, m).value, a, since);
    }
  }

  lemma FetchSpaced(c: Config, s: System, a: NetAddress, since: I64)
    requires c.Valid() && Inv(c, s) && s.tick.Timed? && Recorded(s.peers, a, since)
    ensures TickSpaced(c, NextTick(c, s, TickFetch(false)), a, since)
  {
    if a in DueNow(c, s, s.tick.at) {
      DueIsEligible(c, s, s.tick.at, a);
    }
  }

  lemma DueIsEligible(c: Config, s: System, now: I64, a: NetAddress)
    requires c.Valid() && TableOk(s.peers) && a in DueNow(c, s, now)
    ensures HasRecord(s.peers, a) && IsEligible(s.peers[a].rec, now, c.windows, SatSub(now, c.deadAfter))
  {
    DueAddresses(s.peers, now, c.windows, SatSub(now, c.deadAfter), 8 * s.pool.threads);
    assert a in SetOf(DueNow(c, s, now));
  }

  lemma OfferSpaced(c: Config, s: System, a: NetAddress, since: I64)
    requires c.Valid() && s.tick.Scanning? && TickSpaced(c, s.tick, a, since)
    ensures TickSpaced(c, NextTick(c, s, TickOffer), a, since)
  {
  }

  lemma SendSpaced(c: Config, s: System, m: Move, a: NetAddress, since: I64)
    requires c.Valid() && (m.TickSend? || m.TickWithdraw? || m.TickRecord?) && TickSpaced(c, s.tick, a, since)
    ensures TickSpaced(c, NextTick(c, s, m), a, since)
  {
  }

  lemma TickStaysSpaced(c: Config, s: System, m: Move, a: NetAddress, since: I64)
    requires c.Valid() && Inv(c, s) && Spaced(c, s, a, since)
    ensures TickSpaced(c, NextTick(c, s, m), a, since)
  {
    if !MovesTick(s, m) {
      TickUnmoved(c, s, m);
    } else {
      match m {
        case TickFetch(fault) => if !fault { FetchSpaced(c, s, a, since); }
        case TickOffer => OfferSpaced(c, s, a, since);
        case TickSend => SendSpaced(c, s, m, a, since);
        case TickWithdraw => SendSpaced(c, s, m, a, since);
        case TickRecord(_) => SendSpaced(c, s, m, a, since);
        case _ =>
      }
    }
  }

  lemma StepKeepsSpaced(c: Config, s: System, m: Move, a: NetAddress, since: I64)
    requires c.Valid() && Healthy(c, s) && Spaced(c, s, a, since) && Undisturbed(c, s, m, a, since)
    ensures Spaced(c, Step(c, s, m), a, since)
  {
    JobsStaySpaced(c, s, m, a, since);
    PeersStaySpaced(c, s, m, a, since);
    TickStaysSpaced(c, s, m, a, since);
  }

  ghost predicate UndisturbedRun(c: Config, s: System, run: seq<Move>, a: NetAddress, since: I64)
    requires c.Valid()
  {
    run == [] ||
    var init := run[..|run| - 1];
    UndisturbedRun(c, s, init, a, since) && Undisturbed(c, Run(c, s, init), run[|run| - 1], a, since)
  }

  lemma {:induction false} RunKeepsSpaced(c: Config, s: System, run: seq<Move>, a: NetAddress, since: I64)
    requires c.Valid() && Healthy(c, s) && Spaced(c, s, a, since) && UndisturbedRun(c, s, run, a, since)
    ensures Spaced(c, Run(c, s, run), a, since)
  {
    if run != [] {
      var init := run[..|run| - 1];
      RunKeepsSpaced(c, s, init, a, since);
      RunKeepsHealthy(c, s, init);
      StepKeepsSpaced(c, Run(c, s, init), run[|run| - 1], a, since);
    }
  }

  /** The move hands `a` to the pool. */
  ghost predicate Dispatches(c: Config, s: System, m: Move, a: NetAddress)
    requires c.Valid()
  {
    m.TickSend? && s.tick.Sending? && s.tick.addr == a && Step(c, s, m).tick.Recording?
  }

  /** At the moment of a dispatch no worker is still on the address: the enqueuing scheduler owns it. */
  lemma DispatchFindsNoWorker(c: Config, s: System, a: NetAddress, since: I64)
    requires PoolOk(c, s) && s.tick.Sending? && s.tick.addr == a
    ensures JobsSpaced(s.pool.workers, a, since)
  {
    assert WP.Owned(s.pool, a);
    forall w | w in s.pool.workers && w.addr == a && w.stage.Live? ensures false {
      var i :| 0 <= i < |s.pool.workers| && s.pool.workers[i] == w;
      WP.HoldingMember(s.pool.workers, i);
    }
  }

  lemma CandidateOffersOnce(c: Config, scan: Scan, a: NetAddress, rest: seq<NetAddress>)
    requires c.Valid() && ScanOk(c, scan) && Suffix(scan, [a] + rest)
    ensures a !in rest
  {
    DueAddresses(scan.table, scan.now, c.windows, SatSub(scan.now, c.deadAfter), 8 * Threads(c));
    DistinctTail(scan.candidates, a, rest);
  }

  lemma DispatchStartsSpacing(c: Config, s: System, a: NetAddress)
    requires c.Valid() && Healthy(c, s) && Dispatches(c, s, TickSend, a)
    ensures Spaced(c, Step(c, s, TickSend), a, s.tick.scan.now)
  {
    DispatchFindsNoWorker(c, s, a, s.tick.scan.now);
    JobsStaySpaced(c, s, TickSend, a, s.tick.scan.now);
    CandidateOffersOnce(c, s.tick.scan, a, s.tick.rest);
    DispatchMakesPending(c, s, a);
  }

  lemma DispatchMakesPending(c: Config, s: System, a: NetAddress)
    requires c.Valid() && Dispatches(c, s, TickSend, a)
    ensures Step(c, s, TickSend).tick == Recording(s.tick.scan, a, s.tick.rest, s.tick.n)
    ensures Step(c, s, TickSend).clock == s.clock
  {
  }

  /** Between two dispatches of `a`, the first after `before` and the second after `between`, nothing disturbs it. */
  ghost predicate DispatchedTwice(c: Config, clock: I64, p: Table, before: seq<Move>, between: seq<Move>, a: NetAddress)
    requires c.Valid()
  {
    var s1 := Run(c, Initial(c, clock, p), before);
    && TableOk(p) && Dispatches(c, s1, TickSend, a)
    && UndisturbedRun(c, Step(c, s1, TickSend), between, a, s1.tick.scan.now)
    && Dispatches(c, Run(c, Step(c, s1, TickSend), between), TickSend, a)
  }

  /**
   * Dispatch spacing: whatever happens in between, as long as nothing disturbs `a`, two ticks
   * that dispatch `a` are dated at least its re-probe threshold apart, by the class it had at
   * the second scan.
   */
  lemma DispatchSpacing(c: Config, clock: I64, p: Table, before: seq<Move>, between: seq<Move>, a: NetAddress)
    requires c.Valid() && DispatchedTwice(c, clock, p, before, between, a)
    ensures var s1 := Run(c, Initial(c, clock, p), before);
            var s2 := Run(c, Step(c, s1, TickSend), between);
            && HasRecord(s2.tick.scan.table, a)
            && var w, rec := c.windows, s2.tick.scan.table[a].rec;
            s2.tick.scan.now - s1.tick.scan.now >= if rec.lastSuccessMs > 0 then GoodThreshold(w) else w.staleBad
  {
    ReachableHealthy(c, clock, p, before);
    var s1 := Run(c, Initial(c, clock, p), before);
    DispatchStartsSpacing(c, s1, a);
    StepKeepsHealthy(c, s1, TickSend);
    RunKeepsSpaced(c, Step(c, s1, TickSend), between, a, s1.tick.scan.now);
  }

  /** How long ago the tick that is sending read the clock. */
  function Lag(s: System): int
    requires s.tick.Sending?
  {
    s.clock - s.tick.scan.now
  }

  /** On the machine's own clock the two dispatches are a threshold apart. */
  ghost predicate ClockApart(c: Config, s1: System, s2: System, a: NetAddress)
    requires c.Valid()
  {
    && s2.tick.Sending? && HasRecord(s2.tick.scan.table, a)
    && s2.clock - s1.clock >= Threshold(s2.tick.scan.table[a].rec, c.windows)
  }

  /**
   * The dispatches themselves can be closer than their ticks' dates, by no more than the time
   * the first tick took from its clock reading to the dispatch; without such a lag they are not.
   */
  lemma ClockSpacing(c: Config, clock: I64, p: Table, before: seq<Move>, between: seq<Move>, a: NetAddress)
    requires c.Valid() && DispatchedTwice(c, clock, p, before, between, a)
    ensures var s1 := Run(c, Initial(c, clock, p), before);
            var s2 := Run(c, Step(c, s1, TickSend), between);
            && HasRecord(s2.tick.scan.table, a) && Lag(s1) >= 0
            && s2.clock - s1.clock >= Threshold(s2.tick.scan.table[a].rec, c.windows) - Lag(s1)
            && (Lag(s1) == 0 ==> ClockApart(c, s1, s2, a))
  {
    var s1 := Run(c, Initial(c, clock, p), before);
    DispatchSpacing(c, clock, p, before, between, a);
    ReachableHealthy(c, clock, p, before);
    StepKeepsHealthy(c, s1, TickSend);
    RunKeepsHealthy(c, Step(c, s1, TickSend), between);
  }

  /** Every two undisturbed dispatches, the first of which lags by `lag`, are a threshold apart on the clock. */
  ghost predicate AlwaysClockApart(c: Config, lag: int)
    requires c.Valid()
  {
    forall clock, p, before, between, a :: DispatchedTwice(c, clock, p, before, between, a) ==>
      var s1 := Run(c, Initial(c, clock, p), before);
      Lag(s1) == lag ==> ClockApart(c, s1, Run(c, Step(c, s1, TickSend), between), a)
  }

  lemma PromptDispatchesApart(c: Config)
    requires c.Valid()
    ensures AlwaysClockApart(c, 0)
  {
    forall clock, p, before, between, a | DispatchedTwice(c, clock, p, before, between, a) {
      ClockSpacing(c, clock, p, before, between, a);
    }
  }

  // -------------------------------------------- when a stored attempt is dated back

  /** The scheduler, its probes and seeding never date `a` back; a move that keeps `a` does so only by a submission. */
  lemma MoveKeepsDateIff(c: Config, s: System, m: Move, a: NetAddress, since: I64)
    requires c.Valid() && Inv(c, s) && Spaced(c, s, a, since) && Recorded(s.peers, a, since) && Keeps(c, s, m, a)
    ensures Recorded(NextPeers(c, s, m), a, since) <==> SubmittedSince(s, m, a, since)
  {
    if m.Persist? && IsLive(s, m.i) {
      WP.WorkerInFlight(s.pool, m.i);
      assert s.pool.workers[m.i] in s.pool.workers;
    }
    if (m.WebPersist? || m.WebRecord?) && m.i < |s.web| {
      assert s.web[m.i] in s.web;
    }
  }

  ghost predicate RecordedAlong(c: Config, s: System, run: seq<Move>, a: NetAddress, since: I64)
    requires c.Valid()
  {
    Recorded(Run(c, s, run).peers, a, since) && (run == [] || RecordedAlong(c, s, run[..|run| - 1], a, since))
  }

  ghost predicate SubmittedSinceAlong(c: Config, s: System, run: seq<Move>, a: NetAddress, since: I64)
    requires c.Valid()
  {
    run == [] ||
    var init := run[..|run| - 1];
    SubmittedSinceAlong(c, s, init, a, since) && SubmittedSince(Run(c, s, init), run[|run| - 1], a, since)
  }

  lemma StepFromRecorded(c: Config, s: System, m: Move, a: NetAddress, since: I64)
    requires c.Valid() && Healthy(c, s) && Spaced(c, s, a, since) && Recorded(Step(c, s, m).peers, a, since)
    ensures Spaced(c, Step(c, s, m), a, since)
  {
    JobsStaySpaced(c, s, m, a, since);
    TickStaysSpaced(c, s, m, a, since);
  }

  lemma {:induction false} RecordedAlongIff(c: Config, s: System, run: seq<Move>, a: NetAddress, since: I64)
    requires c.Valid() && Healthy(c, s) && Spaced(c, s, a, since) && Recorded(s.peers, a, since)
    requires KeepsAlong(c, s, run, a)
    ensures RecordedAlong(c, s, run, a, since) <==> SubmittedSinceAlong(c, s, run, a, since)
    ensures RecordedAlong(c, s, run, a, since) ==> Spaced(c, Run(c, s, run), a, since)
  {
    if run != [] {
      var init, m := run[..|run| - 1], run[|run| - 1];
      RecordedAlongIff(c, s, init, a, since);
      if RecordedAlong(c, s, init, a, since) {
        RunKeepsHealthy(c, s, init);
        MoveKeepsDateIff(c, Run(c, s, init), m, a, since);
        if Recorded(Run(c, s, run).peers, a, since) {
          StepFromRecorded(c, Run(c, s, init), m, a, since);
        }
      }
    }
  }

  /**
   * When a dispatch's date survives, over every run: once the attempt of a dispatch is stored,
   * and while the peer is not removed, it stays dated at or after the dispatch exactly if every
   * submission of it that commits read the clock at or after the dispatch's date.
   */
  lemma AttemptDateKeptIff(
    c: Config, clock: I64, p: Table, before: seq<Move>, stored: seq<Move>, run: seq<Move>, a: NetAddress)
    requires c.Valid() && TableOk(p) && Dispatches(c, Run(c, Initial(c, clock, p), before), TickSend, a)
    requires var s1 := Run(c, Initial(c, clock, p), before);
             var s := Run(c, Step(c, s1, TickSend), stored);
             && UndisturbedRun(c, Step(c, s1, TickSend), stored, a, s1.tick.scan.now)
             && Recorded(s.peers, a, s1.tick.scan.now) && KeepsAlong(c, s, run, a)
    ensures var s1 := Run(c, Initial(c, clock, p), before);
            var s := Run(c, Step(c, s1, TickSend), stored);
            RecordedAlong(c, s, run, a, s1.tick.scan.now) <==> SubmittedSinceAlong(c, s, run, a, s1.tick.scan.now)
  {
    var s1 := Run(c, Initial(c, clock, p), before);
    ReachableHealthy(c, clock, p, before);
    DispatchStartsSpacing(c, s1, a);
    StepKeepsHealthy(c, s1, TickSend);
    RunKeepsSpaced(c, Step(c, s1, TickSend), stored, a, s1.tick.scan.now);
    RunKeepsHealthy(c, Step(c, s1, TickSend), stored);
    RecordedAlongIff(c, Run(c, Step(c, s1, TickSend), stored), run, a, s1.tick.scan.now);
  }

  /**
   * What a record's attempt date means for the spacing after a dispatch dated `since`: every
   * later tick keeps the distance exactly when the record is not dated back before it.
   */
  lemma SpacingKeptIff(rec: PeerRecord, w: Windows, cutoff: I64, since: I64)
    requires w.Valid() && !IsDead(rec, cutoff) && 0 <= since
    requires 0 <= rec.lastAttemptMs && rec.lastAttemptMs + Threshold(rec, w) <= I64_MAX
    ensures (forall now: I64 :: since <= now && IsEligible(rec, now, w, cutoff) ==> now - since >= Threshold(rec, w))
       <==> rec.lastAttemptMs >= since || Threshold(rec, w) == 0
  {
    if rec.lastAttemptMs < since && Threshold(rec, w) > 0 {
      var early := rec.lastAttemptMs + Threshold(rec, w);
      var now: I64 := if early >= since then early else since;
      assert IsEligible(rec, now, w, cutoff);
    }
  }
}
