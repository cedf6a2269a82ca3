/** What one probe tick achieves, whatever the workers do meanwhile. */
module TickProgress {
  import opened Common
  import opened Net
  import opened Index
  import opened Peers
  import opened Crawler
  import WP = WorkerPool

  function Threads(c: Config): nat {
    if c.threads == 0 then 1 else c.threads
  }

  ghost predicate ScanOk(c: Config, scan: Scan)
    requires c.Valid()
  {
    && scan.candidates == Addresses(Due(scan.table, scan.now, c.windows, SatSub(scan.now, c.deadAfter), 8 * Threads(c)))
    && KeyedByAddress(scan.table)
    && |scan.busy| <= 5 * Threads(c)
  }

  /** Nothing to do about this candidate: it was in flight at the scan, or the policy rules it out. */
  ghost predicate Passed(c: Config, scan: Scan, a: NetAddress) {
    a in scan.busy || !IsAcceptable(a, c.policy)
  }

  /** The first `k` candidates are dealt with; as long as none was dispatched, all of them were passed over. */
  ghost predicate Tried(c: Config, scan: Scan, k: nat, n: Counts) {
    && k <= |scan.candidates|
    && n.skipped == 0 && n.dispatched + n.duplicate + n.unacceptable == k
    && (n.dispatched == 0 ==> forall i :: 0 <= i < k ==> Passed(c, scan, scan.candidates[i]))
  }

  ghost predicate Suffix(scan: Scan, rest: seq<NetAddress>) {
    |rest| <= |scan.candidates| && rest == scan.candidates[|scan.candidates| - |rest|..]
  }

  ghost predicate TickFits(c: Config, tick: Tick, inFlight: set<NetAddress>)
    requires c.Valid()
  {
    match tick
    case Waiting => true
    case Timed(_) => true
    case Scanning(scan, rest, n) =>
      && ScanOk(c, scan) && Suffix(scan, rest) && Tried(c, scan, |scan.candidates| - |rest|, n)
      && (n.dispatched == 0 ==> inFlight <= scan.busy)
    case Sending(scan, addr, rest, n) =>
      ScanOk(c, scan) && Suffix(scan, [addr] + rest) && Tried(c, scan, |scan.candidates| - |rest| - 1, n)
    case Recording(scan, addr, rest, n) =>
      ScanOk(c, scan) && Suffix(scan, [addr] + rest) && Tried(c, scan, |scan.candidates| - |rest| - 1, n)
    case Over(scan, n, end) =>
      && ScanOk(c, scan) && !end.Shut?
      && |scan.candidates| == n.dispatched + n.duplicate + n.unacceptable + n.skipped
      && (end.Exhausted? && n.dispatched == 0 ==> forall a :: a in scan.candidates ==> Passed(c, scan, a))
  }

  ghost predicate TickOk(c: Config, s: System)
    requires c.Valid()
  {
    TickFits(c, s.tick, s.pool.inFlight)
  }

  lemma TickFitsFewer(c: Config, tick: Tick, inFlight: set<NetAddress>, fewer: set<NetAddress>)
    requires c.Valid() && TickFits(c, tick, inFlight) && fewer <= inFlight
    ensures TickFits(c, tick, fewer)
  {
  }

  lemma SuffixStep(scan: Scan, rest: seq<NetAddress>)
    requires Suffix(scan, rest) && rest != []
    ensures Suffix(scan, rest[1..]) && rest[0] == scan.candidates[|scan.candidates| - |rest|]
    ensures rest == [rest[0]] + rest[1..]
  {
  }

  lemma FetchTickOk(c: Config, s: System, m: Move)
    requires c.Valid() && Inv(c, s) && m == TickFetch(false) && s.tick.Timed?
    ensures TickOk(c, Step(c, s, m))
  {
    WP.InFlightBound(s.pool);
  }

  lemma ScanDuplicate(c: Config, scan: Scan, rest: seq<NetAddress>, n: Counts, inFlight: set<NetAddress>)
    requires c.Valid() && TickFits(c, Scanning(scan, rest, n), inFlight) && rest != [] && rest[0] in inFlight
    ensures TickFits(c, Scanning(scan, rest[1..], n.(duplicate := n.duplicate + 1)), inFlight)
  {
    SuffixStep(scan, rest);
    TriedOne(c, scan, |scan.candidates| - |rest|, n, n.(duplicate := n.duplicate + 1));
  }

  lemma TriedOne(c: Config, scan: Scan, k: nat, n: Counts, m: Counts)
    requires Tried(c, scan, k, n) && k < |scan.candidates|
    requires m.skipped == 0 && m.dispatched == n.dispatched
    requires m.duplicate + m.unacceptable == n.duplicate + n.unacceptable + 1
    requires n.dispatched == 0 ==> Passed(c, scan, scan.candidates[k])
    ensures Tried(c, scan, k + 1, m)
  {
  }

  lemma ScanUnacceptable(c: Config, scan: Scan, rest: seq<NetAddress>, n: Counts, inFlight: set<NetAddress>)
    requires c.Valid() && TickFits(c, Scanning(scan, rest, n), inFlight)
    requires rest != [] && !IsAcceptable(rest[0], c.policy)
    ensures TickFits(c, Scanning(scan, rest[1..], n.(unacceptable := n.unacceptable + 1)), inFlight)
  {
    SuffixStep(scan, rest);
    TriedOne(c, scan, |scan.candidates| - |rest|, n, n.(unacceptable := n.unacceptable + 1));
  }

  lemma ScanExhausted(c: Config, scan: Scan, n: Counts, inFlight: set<NetAddress>)
    requires c.Valid() && TickFits(c, Scanning(scan, [], n), inFlight)
    ensures TickFits(c, Over(scan, n, Exhausted), inFlight)
  {
  }

  lemma ScanInsert(c: Config, scan: Scan, rest: seq<NetAddress>, n: Counts,
                   inFlight: set<NetAddress>, later: set<NetAddress>)
    requires c.Valid() && TickFits(c, Scanning(scan, rest, n), inFlight) && rest != []
    ensures TickFits(c, Sending(scan, rest[0], rest[1..], n), later)
  {
    SuffixStep(scan, rest);
  }

  lemma SendRefused(c: Config, scan: Scan, addr: NetAddress, rest: seq<NetAddress>, n: Counts,
                    inFlight: set<NetAddress>, later: set<NetAddress>)
    requires c.Valid() && TickFits(c, Sending(scan, addr, rest, n), inFlight)
    ensures TickFits(c, Over(scan, n.(skipped := 1 + |rest|), BackPressured), later)
  {
    assert |[addr] + rest| == 1 + |rest|;
  }

  lemma DispatchRecorded(c: Config, scan: Scan, addr: NetAddress, rest: seq<NetAddress>, n: Counts,
                         inFlight: set<NetAddress>)
    requires c.Valid() && TickFits(c, Recording(scan, addr, rest, n), inFlight)
    ensures TickFits(c, Scanning(scan, rest, n.(dispatched := n.dispatched + 1)), inFlight)
  {
    SuffixStep(scan, [addr] + rest);
    assert ([addr] + rest)[1..] == rest;
  }

  lemma OfferTickOk(c: Config, s: System)
    requires c.Valid() && Inv(c, s) && TickOk(c, s) && s.tick.Scanning?
    ensures TickOk(c, Step(c, s, TickOffer))
  {
    var scan, rest, n, inFlight := s.tick.scan, s.tick.rest, s.tick.n, s.pool.inFlight;
    if rest == [] {
      ScanExhausted(c, scan, n, inFlight);
    } else {
      OfferEffect(c, s);
      if !IsAcceptable(rest[0], c.policy) {
        ScanUnacceptable(c, scan, rest, n, inFlight);
      } else if rest[0] in inFlight {
        ScanDuplicate(c, scan, rest, n, inFlight);
      } else {
        ScanInsert(c, scan, rest, n, inFlight, NextPool(c, s, TickOffer).inFlight);
      }
    }
  }

  lemma OfferEffect(c: Config, s: System)
    requires c.Valid() && s.tick.Scanning? && s.tick.rest != []
    ensures var scan, rest, n := s.tick.scan, s.tick.rest, s.tick.n;
            if !IsAcceptable(rest[0], c.policy)
            then NextTick(c, s, TickOffer) == Scanning(scan, rest[1..], n.(unacceptable := n.unacceptable + 1))
                 && NextPool(c, s, TickOffer).inFlight == s.pool.inFlight
            else if rest[0] in s.pool.inFlight
            then NextTick(c, s, TickOffer) == Scanning(scan, rest[1..], n.(duplicate := n.duplicate + 1))
                 && NextPool(c, s, TickOffer).inFlight == s.pool.inFlight
            else NextTick(c, s, TickOffer) == Sending(scan, rest[0], rest[1..], n)
  {
  }

  lemma WithdrawTickOk(c: Config, s: System)
    requires c.Valid() && PoolOk(c, s) && TickOk(c, s) && s.tick.Sending? && s.pool.producer.Refused?
    ensures TickOk(c, Step(c, s, TickWithdraw))
  {
    WithdrawEffect(c, s);
    var t, later := s.tick, NextPool(c, s, TickWithdraw).inFlight;
    SendRefused(c, t.scan, t.addr, t.rest, t.n, s.pool.inFlight, later);
  }

  lemma WithdrawEffect(c: Config, s: System)
    requires c.Valid() && s.tick.Sending? && s.pool.producer.Refused? && s.pool.producer.why.Full?
    ensures NextTick(c, s, TickWithdraw) == Over(s.tick.scan, s.tick.n.(skipped := 1 + |s.tick.rest|), BackPressured)
  {
  }

  /** A move that leaves the tick alone can at most shrink the in-flight set under it. */
  lemma OtherTickOk(c: Config, s: System, m: Move)
    requires c.Valid() && PoolOk(c, s) && TickOk(c, s) && !MovesTick(s, m)
    ensures TickOk(c, Step(c, s, m))
  {
    TickUnmoved(c, s, m);
    InFlightGrowsByOffer(c, s, m);
    TickFitsFewer(c, s.tick, s.pool.inFlight, NextPool(c, s, m).inFlight);
  }

  lemma TickUnmoved(c: Config, s: System, m: Move)
    requires c.Valid() && !MovesTick(s, m)
    ensures NextTick(c, s, m) == s.tick
  {
  }

  lemma SendTickOk(c: Config, s: System)
    requires c.Valid() && PoolOk(c, s) && TickOk(c, s) && s.tick.Sending?
    ensures TickOk(c, Step(c, s, TickSend))
  {
    SendEffect(c, s);
    var t, later := s.tick, NextPool(c, s, TickSend).inFlight;
    SendOutcomes(c, t.scan, t.addr, t.rest, t.n, s.pool.inFlight, later);
  }

  lemma SendEffect(c: Config, s: System)
    requires c.Valid() && s.tick.Sending?
    ensures var t := s.tick;
            NextTick(c, s, TickSend) == t || NextTick(c, s, TickSend) == Recording(t.scan, t.addr, t.rest, t.n)
  {
  }

  lemma SendOutcomes(c: Config, scan: Scan, addr: NetAddress, rest: seq<NetAddress>, n: Counts,
                     inFlight: set<NetAddress>, later: set<NetAddress>)
    requires c.Valid() && TickFits(c, Sending(scan, addr, rest, n), inFlight)
    ensures TickFits(c, Recording(scan, addr, rest, n), later) && TickFits(c, Sending(scan, addr, rest, n), later)
  {
  }

  lemma RecordTickOk(c: Config, s: System, fault: bool)
    requires c.Valid() && TickOk(c, s) && s.tick.Recording?
    ensures TickOk(c, Step(c, s, TickRecord(fault)))
  {
    RecordEffect(c, s, fault);
    DispatchRecorded(c, s.tick.scan, s.tick.addr, s.tick.rest, s.tick.n, s.pool.inFlight);
  }

  lemma RecordEffect(c: Config, s: System, fault: bool)
    requires c.Valid() && s.tick.Recording?
    ensures var n := s.tick.n.(dispatched := s.tick.n.dispatched + 1);
            NextTick(c, s, TickRecord(fault)) == Scanning(s.tick.scan, s.tick.rest, n)
    ensures NextPool(c, s, TickRecord(fault)).inFlight == s.pool.inFlight
  {
  }

  lemma EdgeTickOk(c: Config, s: System, m: Move)
    requires c.Valid() && MovesTick(s, m) && (m.TickStart? || m.TickClose? || m.Restart? || m == TickFetch(true))
    ensures TickOk(c, Step(c, s, m))
  {
  }

  /** The moves that change the tick of this state. */
  predicate MovesTick(s: System, m: Move) {
    match m
    case TickStart => s.tick.Waiting?
    case TickFetch(_) => s.tick.Timed?
    case TickOffer => s.tick.Scanning?
    case TickSend => s.tick.Sending?
    case TickWithdraw => s.tick.Sending? && s.pool.producer.Refused?
    case TickRecord(_) => s.tick.Recording?
    case TickClose => s.tick.Over?
    case Restart => true
    case _ => false
  }

  lemma StepKeepsTick(c: Config, s: System, m: Move)
    requires c.Valid() && Inv(c, s) && TickOk(c, s)
    ensures TickOk(c, Step(c, s, m))
  {
    if !MovesTick(s, m) {
      OtherTickOk(c, s, m);
    } else {
      match m {
        case TickFetch(fault) => if fault { EdgeTickOk(c, s, m); } else { FetchTickOk(c, s, m); }
        case TickOffer => OfferTickOk(c, s);
        case TickSend => SendTickOk(c, s);
        case TickWithdraw => WithdrawTickOk(c, s);
        case TickRecord(fault) => RecordTickOk(c, s, fault);
        case _ => EdgeTickOk(c, s, m);
      }
    }
  }

  /** What every reachable state satisfies. */
  ghost predicate Healthy(c: Config, s: System)
    requires c.Valid()
  {
    Inv(c, s) && TickOk(c, s) && TimeOk(s)
  }

  /** No tick works with a time the clock has not reached. */
  predicate TimeOk(s: System) {
    !s.tick.Waiting? ==> TickDate(s.tick) <= s.clock
  }

  lemma StepKeepsTime(c: Config, s: System, m: Move)
    requires c.Valid() && TimeOk(s)
    ensures TimeOk(Step(c, s, m))
  {
  }

  lemma StepKeepsHealthy(c: Config, s: System, m: Move)
    requires c.Valid() && Healthy(c, s)
    ensures Healthy(c, Step(c, s, m))
  {
    StepKeepsInv(c, s, m);
    StepKeepsTick(c, s, m);
    StepKeepsTime(c, s, m);
  }

  lemma {:induction false} RunKeepsHealthy(c: Config, s: System, run: seq<Move>)
    requires c.Valid() && Healthy(c, s)
    ensures Healthy(c, Run(c, s, run))
  {
    if run != [] {
      RunKeepsHealthy(c, s, run[..|run| - 1]);
      StepKeepsHealthy(c, Run(c, s, run[..|run| - 1]), run[|run| - 1]);
    }
  }

  lemma ReachableHealthy(c: Config, clock: I64, p: Table, run: seq<Move>)
    requires c.Valid() && TableOk(p)
    ensures Healthy(c, Run(c, Initial(c, clock, p), run))
  {
    InitialInv(c, clock, p);
    RunKeepsHealthy(c, Initial(c, clock, p), run);
  }

  ghost function DueAt(c: Config, scan: Scan): set<NetAddress>
    requires c.Valid()
  {
    DueSet(scan.table, scan.now, c.windows, SatSub(scan.now, c.deadAfter))
  }

  /** Due peers that the policy of this process no longer lets it probe. */
  ghost function Barred(c: Config, scan: Scan): set<NetAddress>
    requires c.Valid()
  {
    set a | a in DueAt(c, scan) && !IsAcceptable(a, c.policy)
  }

  /** Eight candidates per thread are fetched and five can be in flight: three barred ones leave no gap. */
  lemma PassedIsAll(c: Config, scan: Scan)
    requires c.Valid() && ScanOk(c, scan) && |Barred(c, scan)| < 3 * Threads(c)
    requires forall a :: a in scan.candidates ==> Passed(c, scan, a)
    ensures DueAt(c, scan) - Barred(c, scan) <= scan.busy
  {
    DueAddresses(scan.table, scan.now, c.windows, SatSub(scan.now, c.deadAfter), 8 * Threads(c));
    DistinctSize(scan.candidates);
    assert SetOf(scan.candidates) <= scan.busy + Barred(c, scan);
    SubsetSize(SetOf(scan.candidates), scan.busy + Barred(c, scan));
  }

  /**
   * Tick progress, over every run on any store: a tick that has handled all its candidates
   * accounts for each of them, and if it dispatched nobody and fewer than three due peers per
   * thread are barred, then every other due peer was already in flight at its scan.
   */
  lemma TickProgress(c: Config, clock: I64, p: Table, run: seq<Move>)
    requires c.Valid() && TableOk(p)
    requires Run(c, Initial(c, clock, p), run).tick.Over?
    ensures var tick := Run(c, Initial(c, clock, p), run).tick;
            && |tick.scan.candidates| == tick.n.dispatched + tick.n.duplicate + tick.n.unacceptable + tick.n.skipped
            && (tick.end.Exhausted? && tick.n.dispatched == 0 && |Barred(c, tick.scan)| < 3 * Threads(c) ==>
                  DueAt(c, tick.scan) - Barred(c, tick.scan) <= tick.scan.busy)
  {
    ReachableHealthy(c, clock, p, run);
    var tick := Run(c, Initial(c, clock, p), run).tick;
    if tick.end.Exhausted? && tick.n.dispatched == 0 && |Barred(c, tick.scan)| < 3 * Threads(c) {
      PassedIsAll(c, tick.scan);
    }
  }

  ghost predicate AllStorable(p: Table, policy: Policy) {
    forall k :: k in p ==> Storable(k, policy)
  }

  ghost predicate ScanStorable(c: Config, s: System) {
    !s.tick.Waiting? && !s.tick.Timed? ==> AllStorable(s.tick.scan.table, c.policy)
  }

  lemma {:induction false} RunScansStorable(c: Config, clock: I64, p: Table, run: seq<Move>)
    requires c.Valid() && TableOk(p) && AllStorable(p, c.policy)
    ensures ScanStorable(c, Run(c, Initial(c, clock, p), run))
  {
    if run != [] {
      var init, m := run[..|run| - 1], run[|run| - 1];
      RunScansStorable(c, clock, p, init);
      forall k | k in Run(c, Initial(c, clock, p), init).peers ensures Storable(k, c.policy) {
        StoredAddressesAcceptable(c, clock, p, init, k);
      }
      TickScans(c, Run(c, Initial(c, clock, p), init), m);
    }
  }

  lemma TickScans(c: Config, s: System, m: Move)
    requires c.Valid() && ScanStorable(c, s) && AllStorable(s.peers, c.policy)
    ensures ScanStorable(c, Step(c, s, m))
  {
  }

  /** On a store that the policy agrees with, above all a new one, every due peer was in flight. */
  lemma TickProgressUnbarred(c: Config, clock: I64, p: Table, run: seq<Move>)
    requires c.Valid() && TableOk(p) && AllStorable(p, c.policy)
    requires Run(c, Initial(c, clock, p), run).tick.Over?
    ensures var tick := Run(c, Initial(c, clock, p), run).tick;
            tick.end.Exhausted? && tick.n.dispatched == 0 ==> DueAt(c, tick.scan) <= tick.scan.busy
  {
    TickProgress(c, clock, p, run);
    RunScansStorable(c, clock, p, run);
    var tick := Run(c, Initial(c, clock, p), run).tick;
    assert Barred(c, tick.scan) == {};
  }

  // ------------------------------------------------------------- a starving tick

  /** Whatever a tick would fetch now is barred. */
  ghost predicate Starving(c: Config, s: System)
    requires c.Valid()
  {
    s.tick.Waiting? && forall a :: a in DueNow(c, s, s.clock) ==> !IsAcceptable(a, c.policy)
  }

  function Offers(n: nat): (run: seq<Move>)
    ensures |run| == n && forall i :: 0 <= i < n ==> run[i] == TickOffer
  {
    seq(n, _ => TickOffer)
  }

  lemma {:induction false} OffersRejected(c: Config, s: System, k: nat)
    requires c.Valid() && s.tick.Scanning? && k <= |s.tick.rest|
    requires forall a :: a in s.tick.rest ==> !IsAcceptable(a, c.policy)
    ensures var n := s.tick.n;
            Run(c, s, Offers(k)) ==
            s.(tick := Scanning(s.tick.scan, s.tick.rest[k..], n.(unacceptable := n.unacceptable + k)))
  {
    if k > 0 {
      OffersRejected(c, s, k - 1);
      assert Offers(k)[..k - 1] == Offers(k - 1);
      var t := Run(c, s, Offers(k - 1));
      assert t.tick.rest[0] == s.tick.rest[k - 1] && t.tick.rest[1..] == s.tick.rest[k..];
      OfferRejected(c, t);
    }
  }

  lemma OfferRejected(c: Config, s: System)
    requires c.Valid() && s.tick.Scanning? && s.tick.rest != [] && !IsAcceptable(s.tick.rest[0], c.policy)
    ensures Step(c, s, TickOffer) ==
            s.(tick := Scanning(s.tick.scan, s.tick.rest[1..], s.tick.n.(unacceptable := s.tick.n.unacceptable + 1)))
  {
  }

  /** A starving tick rejects all it fetched and leaves everything as it was, so the next one starves as well. */
  lemma StarvingTick(c: Config, s: System)
    requires c.Valid() && Starving(c, s)
    ensures var due := DueNow(c, s, s.clock);
            var scan := Scan(s.clock, s.peers, s.pool.inFlight, due);
            var run := [TickStart, TickFetch(false)] + Offers(|due|) + [TickOffer];
            && Run(c, s, run) == s.(tick := Over(scan, Counts(0, 0, |due|, 0), Exhausted))
            && Run(c, s, run + [TickClose]) == s
  {
    var due := DueNow(c, s, s.clock);
    var scan := Scan(s.clock, s.peers, s.pool.inFlight, due);
    var t := s.(tick := Scanning(scan, due, Counts(0, 0, 0, 0)));
    RunTwo(c, s, TickStart, TickFetch(false));
    assert Run(c, s, [TickStart, TickFetch(false)]) == t;
    OffersRejected(c, t, |due|);
    RunConcat(c, s, [TickStart, TickFetch(false)], Offers(|due|));
    assert due[|due|..] == [];
    var run := [TickStart, TickFetch(false)] + Offers(|due|);
    RunSnoc(c, s, run, TickOffer);
    RunSnoc(c, s, run + [TickOffer], TickClose);
  }

  /** Enough barred peers starve every tick if they come before all the others in the index. */
  lemma OldBarredPeersStarve(c: Config, s: System, barred: set<Entry>, others: set<Entry>)
    requires c.Valid() && PoolOk(c, s) && TableOk(s.peers) && s.tick.Waiting?
    requires DueEntries(s.peers, s.clock, c.windows, SatSub(s.clock, c.deadAfter)) == barred + others
    requires AllBefore(barred, others) && 8 * Threads(c) <= |barred|
    requires forall e :: e in barred ==> !IsAcceptable(e.key, c.policy)
    ensures Starving(c, s)
  {
    var max := 8 * Threads(c);
    DueByEntry(s.peers, s.clock, c.windows, SatSub(s.clock, c.deadAfter), max);
    FirstAreLower(barred, others, max);
  }

  lemma FirstAreLower(lower: set<Entry>, upper: set<Entry>, max: nat)
    requires AllBefore(lower, upper) && max <= |lower|
    ensures var f := FirstN(Ordered(lower + upper), max);
            forall i :: 0 <= i < |f| ==> f[i] in lower
  {
    OrderedConcat(lower, upper);
    FirstOfLower(Ordered(lower), Ordered(upper), max);
    forall x | x in Ordered(lower) ensures x in lower {
      assert x in SetOf(Ordered(lower));
    }
  }

  lemma FirstOfLower<T>(x: seq<T>, y: seq<T>, max: nat)
    requires max <= |x|
    ensures forall i :: 0 <= i < |FirstN(x + y, max)| ==> FirstN(x + y, max)[i] in x
  {
  }
}
