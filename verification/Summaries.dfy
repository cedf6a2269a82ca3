/**
 * The store summary by its meaning, each bucket counting the rows of one kind, and the
 * one-pass tally that computes it.
 */
module Summaries {
  import opened Common
  import opened Net
  import opened Peers
  import opened PeerFilter

  ghost function Count(p: Table, d: set<NetAddress>, f: PeerRecord -> bool): nat {
    |set k | k in d && HasRecord(p, k) && f(p[k].rec)|
  }

  lemma CountStep(p: Table, d: set<NetAddress>, k: NetAddress, f: PeerRecord -> bool)
    requires k !in d
    ensures Count(p, d + {k}, f) == Count(p, d, f) + if HasRecord(p, k) && f(p[k].rec) then 1 else 0
  {
    var a := set x | x in d && HasRecord(p, x) && f(p[x].rec);
    var b := set x | x in d + {k} && HasRecord(p, x) && f(p[x].rec);
    assert b == if HasRecord(p, k) && f(p[k].rec) then a + {k} else a;
  }

  ghost function AnyRec(): PeerRecord -> bool { (rec: PeerRecord) => true }

  ghost function StubRec(): PeerRecord -> bool {
    (rec: PeerRecord) => rec.lastSuccessMs <= 0 && rec.lastAttemptMs <= 0
  }

  ghost function FailedRec(): PeerRecord -> bool {
    (rec: PeerRecord) => rec.lastSuccessMs <= 0 && rec.lastAttemptMs > 0
  }

  predicate Fresh(rec: PeerRecord, now: I64, staleGood: I64) {
    rec.lastSuccessMs > 0 && SatSub(now, rec.lastSuccessMs) <= staleGood
  }

  ghost function StaleRec(now: I64, staleGood: I64): PeerRecord -> bool {
    (rec: PeerRecord) => rec.lastSuccessMs > 0 && !Fresh(rec, now, staleGood)
  }

  ghost function FreshRec(now: I64, staleGood: I64): PeerRecord -> bool {
    (rec: PeerRecord) => Fresh(rec, now, staleGood)
  }

  predicate Passes(v: Option<Filter>, rec: PeerRecord) {
    v.Some? ==> PassesValidity(v.value, rec)
  }

  ghost function GoodRec(now: I64, staleGood: I64, v: Option<Filter>): PeerRecord -> bool {
    (rec: PeerRecord) => Fresh(rec, now, staleGood) && Passes(v, rec)
  }

  ghost function FilteredRec(now: I64, staleGood: I64, v: Option<Filter>): PeerRecord -> bool {
    (rec: PeerRecord) => Fresh(rec, now, staleGood) && !Passes(v, rec)
  }

  ghost function FreshIn(now: I64, staleGood: I64, family: Family): PeerRecord -> bool {
    (rec: PeerRecord) => Fresh(rec, now, staleGood) && InFamily(rec.address.ip, family)
  }

  /** Age of a fresh record's last answer, 0 for one dated in the future; other rows weigh nothing. */
  function Age(p: Table, k: NetAddress, now: I64, staleGood: I64): (age: nat)
    ensures age > 0 ==> HasRecord(p, k) && Fresh(p[k].rec, now, staleGood) && age <= staleGood
  {
    if HasRecord(p, k) && Fresh(p[k].rec, now, staleGood) && SatSub(now, p[k].rec.lastSuccessMs) > 0
    then SatSub(now, p[k].rec.lastSuccessMs) else 0
  }

  ghost function AgeSum(p: Table, d: set<NetAddress>, now: I64, staleGood: I64): nat {
    if d == {} then 0 else
      var k :| k in d;
      Age(p, k, now, staleGood) + AgeSum(p, d - {k}, now, staleGood)
  }

  lemma {:induction false} AgeSumStep(p: Table, d: set<NetAddress>, k: NetAddress, now: I64, staleGood: I64)
    requires k in d
    ensures AgeSum(p, d, now, staleGood) == Age(p, k, now, staleGood) + AgeSum(p, d - {k}, now, staleGood)
  {
    var x :| x in d && AgeSum(p, d, now, staleGood) == Age(p, x, now, staleGood) + AgeSum(p, d - {x}, now, staleGood);
    if x != k {
      AgeSumStep(p, d - {x}, k, now, staleGood);
      AgeSumStep(p, d - {k}, x, now, staleGood);
      assert d - {x} - {k} == d - {k} - {x};
    }
  }

  /** No fresh record is older than the window, so neither is the average. */
  lemma {:induction false} AgeSumBound(p: Table, d: set<NetAddress>, now: I64, staleGood: I64)
    requires 0 <= staleGood
    ensures AgeSum(p, d, now, staleGood) <= Count(p, d, FreshRec(now, staleGood)) * staleGood
  {
    if d != {} {
      var k :| k in d;
      var e := d - {k};
      assert e + {k} == d;
      AgeSumStep(p, d, k, now, staleGood);
      AgeSumBound(p, e, now, staleGood);
      CountStep(p, e, k, FreshRec(now, staleGood));
      OneMore(Count(p, e, FreshRec(now, staleGood)), staleGood);
    }
  }

  datatype Summary = Summary(
    total: nat, good: nat, filtered: nat, stale: nat, failed: nat, stub: nat,
    v4: nat, v6: nat, avgSuccessAgeMs: nat)

  /** The summary by its meaning: each bucket counts the rows of one kind. */
  ghost predicate Summarizes(s: Summary, p: Table, d: set<NetAddress>, now: I64, staleGood: I64, v: Option<Filter>) {
    && s.total == Count(p, d, AnyRec())
    && s.good == Count(p, d, GoodRec(now, staleGood, v))
    && s.filtered == Count(p, d, FilteredRec(now, staleGood, v))
    && s.stale == Count(p, d, StaleRec(now, staleGood))
    && s.failed == Count(p, d, FailedRec())
    && s.stub == Count(p, d, StubRec())
    && s.v4 == Count(p, d, FreshIn(now, staleGood, FamilyV4))
    && s.v6 == Count(p, d, FreshIn(now, staleGood, FamilyV6))
  }

  /** The rows, and those that never answered, by whether they were ever tried. */
  lemma UnansweredBuckets(s: Summary, p: Table, now: I64, staleGood: I64, v: Option<Filter>)
    requires Summarizes(s, p, p.Keys, now, staleGood, v) && 0 <= staleGood
    requires forall k :: HasRecord(p, k) ==> SubFits(now, p[k].rec.lastSuccessMs)
    ensures s.total == |set k | k in p && HasRecord(p, k)|
    ensures s.stub == |set k | k in p && HasRecord(p, k) && p[k].rec.lastSuccessMs <= 0 && p[k].rec.lastAttemptMs <= 0|
    ensures s.failed == |set k | k in p && HasRecord(p, k) && p[k].rec.lastSuccessMs <= 0 && 0 < p[k].rec.lastAttemptMs|
  {
    CountIs(p, AnyRec(), set k | k in p && HasRecord(p, k));
    CountIs(
      p, StubRec(),
      set k | k in p && HasRecord(p, k) && p[k].rec.lastSuccessMs <= 0 && p[k].rec.lastAttemptMs <= 0);
    CountIs(
      p, FailedRec(),
      set k | k in p && HasRecord(p, k) && p[k].rec.lastSuccessMs <= 0 && 0 < p[k].rec.lastAttemptMs);
  }

  /** Those that answered before the window, and within it by family. */
  lemma FamilyBuckets(s: Summary, p: Table, now: I64, staleGood: I64, v: Option<Filter>)
    requires Summarizes(s, p, p.Keys, now, staleGood, v) && 0 <= staleGood
    requires forall k :: HasRecord(p, k) ==> SubFits(now, p[k].rec.lastSuccessMs)
    ensures s.stale == |set k | k in p && HasRecord(p, k) && 0 < p[k].rec.lastSuccessMs < now - staleGood|
    ensures s.v4 == |set k | k in p && HasRecord(p, k) && p[k].rec.address.ip.V4? && Recent(p[k].rec, now, staleGood)|
    ensures s.v6 == |set k | k in p && HasRecord(p, k) && p[k].rec.address.ip.V6? && Recent(p[k].rec, now, staleGood)|
  {
    CountIs(
      p, StaleRec(now, staleGood),
      set k | k in p && HasRecord(p, k) && 0 < p[k].rec.lastSuccessMs < now - staleGood);
    CountIs(
      p, FreshIn(now, staleGood, FamilyV4),
      set k | k in p && HasRecord(p, k) && p[k].rec.address.ip.V4? && Recent(p[k].rec, now, staleGood));
    CountIs(
      p, FreshIn(now, staleGood, FamilyV6),
      set k | k in p && HasRecord(p, k) && p[k].rec.address.ip.V6? && Recent(p[k].rec, now, staleGood));
  }

  /** Those that answered within the window, by whether the filter lets them through. */
  lemma ValidityBuckets(s: Summary, p: Table, now: I64, staleGood: I64, v: Option<Filter>)
    requires Summarizes(s, p, p.Keys, now, staleGood, v) && 0 <= staleGood
    requires forall k :: HasRecord(p, k) ==> SubFits(now, p[k].rec.lastSuccessMs)
    ensures s.good == |set k | k in p && HasRecord(p, k) && Passes(v, p[k].rec) && Recent(p[k].rec, now, staleGood)|
    ensures s.filtered ==
            |set k | k in p && HasRecord(p, k) && !Passes(v, p[k].rec) && Recent(p[k].rec, now, staleGood)|
  {
    CountIs(
      p, GoodRec(now, staleGood, v),
      set k | k in p && HasRecord(p, k) && Passes(v, p[k].rec) && Recent(p[k].rec, now, staleGood));
    CountIs(
      p, FilteredRec(now, staleGood, v),
      set k | k in p && HasRecord(p, k) && !Passes(v, p[k].rec) && Recent(p[k].rec, now, staleGood));
  }

  predicate Recent(rec: PeerRecord, now: I64, staleGood: I64) {
    0 < rec.lastSuccessMs && now - staleGood <= rec.lastSuccessMs
  }

  lemma CountIs(p: Table, f: PeerRecord -> bool, s: set<NetAddress>)
    requires forall k :: k in s <==> HasRecord(p, k) && f(p[k].rec)
    ensures Count(p, p.Keys, f) == |s|
  {
    assert s == set k | k in p.Keys && HasRecord(p, k) && f(p[k].rec);
  }

  /** A recent answer weighs its age in the average, one dated ahead of the clock nothing. */
  lemma AgeMeans(p: Table, k: NetAddress, now: I64, staleGood: I64)
    requires HasRecord(p, k) && SubFits(now, p[k].rec.lastSuccessMs) && 0 <= staleGood
    ensures Recent(p[k].rec, now, staleGood) ==>
              Age(p, k, now, staleGood) == if p[k].rec.lastSuccessMs < now then now - p[k].rec.lastSuccessMs else 0
    ensures !Recent(p[k].rec, now, staleGood) ==> Age(p, k, now, staleGood) == 0
  {
  }

  /** The buckets partition the rows, and both the families and the validity split partition the fresh ones. */
  lemma {:induction false} BucketsPartition(
    s: Summary, p: Table, d: set<NetAddress>, now: I64, staleGood: I64, v: Option<Filter>)
    requires Summarizes(s, p, d, now, staleGood, v)
    ensures s.total == s.good + s.filtered + s.stale + s.failed + s.stub
    ensures s.v4 + s.v6 == s.good + s.filtered == Count(p, d, FreshRec(now, staleGood))
    decreases d
  {
    if d != {} {
      var k :| k in d;
      var e := d - {k};
      assert e + {k} == d;
      CountSteps(p, e, k, now, staleGood, v);
      CountStep(p, e, k, FreshRec(now, staleGood));
      var s' := Summary(
        Count(p, e, AnyRec()), Count(p, e, GoodRec(now, staleGood, v)), Count(p, e, FilteredRec(now, staleGood, v)),
        Count(p, e, StaleRec(now, staleGood)), Count(p, e, FailedRec()), Count(p, e, StubRec()),
        Count(p, e, FreshIn(now, staleGood, FamilyV4)), Count(p, e, FreshIn(now, staleGood, FamilyV6)), 0);
      BucketsPartition(s', p, e, now, staleGood, v);
    }
  }

  lemma CountSteps(p: Table, d: set<NetAddress>, k: NetAddress, now: I64, staleGood: I64, v: Option<Filter>)
    requires k !in d
    ensures Count(p, d + {k}, AnyRec()) == Count(p, d, AnyRec()) + if HasRecord(p, k) then 1 else 0
    ensures Count(p, d + {k}, GoodRec(now, staleGood, v)) == Count(p, d, GoodRec(now, staleGood, v)) +
            if HasRecord(p, k) && Fresh(p[k].rec, now, staleGood) && Passes(v, p[k].rec) then 1 else 0
    ensures Count(p, d + {k}, FilteredRec(now, staleGood, v)) == Count(p, d, FilteredRec(now, staleGood, v)) +
            if HasRecord(p, k) && Fresh(p[k].rec, now, staleGood) && !Passes(v, p[k].rec) then 1 else 0
    ensures Count(p, d + {k}, StaleRec(now, staleGood)) == Count(p, d, StaleRec(now, staleGood)) +
            if HasRecord(p, k) && p[k].rec.lastSuccessMs > 0 && !Fresh(p[k].rec, now, staleGood) then 1 else 0
    ensures Count(p, d + {k}, FailedRec()) == Count(p, d, FailedRec()) +
            if HasRecord(p, k) && p[k].rec.lastSuccessMs <= 0 && p[k].rec.lastAttemptMs > 0 then 1 else 0
    ensures Count(p, d + {k}, StubRec()) == Count(p, d, StubRec()) +
            if HasRecord(p, k) && p[k].rec.lastSuccessMs <= 0 && p[k].rec.lastAttemptMs <= 0 then 1 else 0
    ensures Count(p, d + {k}, FreshIn(now, staleGood, FamilyV4)) == Count(p, d, FreshIn(now, staleGood, FamilyV4)) +
            if HasRecord(p, k) && Fresh(p[k].rec, now, staleGood) && p[k].rec.address.ip.V4? then 1 else 0
    ensures Count(p, d + {k}, FreshIn(now, staleGood, FamilyV6)) == Count(p, d, FreshIn(now, staleGood, FamilyV6)) +
            if HasRecord(p, k) && Fresh(p[k].rec, now, staleGood) && p[k].rec.address.ip.V6? then 1 else 0
  {
    CountStep(p, d, k, AnyRec());
    CountStep(p, d, k, GoodRec(now, staleGood, v));
    CountStep(p, d, k, FilteredRec(now, staleGood, v));
    CountStep(p, d, k, StaleRec(now, staleGood));
    CountStep(p, d, k, FailedRec());
    CountStep(p, d, k, StubRec());
    CountStep(p, d, k, FreshIn(now, staleGood, FamilyV4));
    CountStep(p, d, k, FreshIn(now, staleGood, FamilyV6));
  }

  /**
   * With the serving filter, the `good` bucket counts exactly the listed peers that have
   * answered at least once.
   */
  lemma GoodCountsServed(p: Table, f: Filter, staleGood: I64)
    requires AllComparable(f, p)
    requires f.staleGoodMs == Some(staleGood) && f.deadAfterMs == I64_MAX && f.family == None
    ensures Count(p, p.Keys, GoodRec(f.nowMs, staleGood, Some(f)))
         == |set k | k in Selected(p, f) && p[k].rec.lastSuccessMs > 0|
  {
    var g := GoodRec(f.nowMs, staleGood, Some(f));
    assert (set k | k in p.Keys && HasRecord(p, k) && g(p[k].rec))
        == (set k | k in Selected(p, f) && p[k].rec.lastSuccessMs > 0);
  }

  lemma AverageBound(sum: nat, n: nat, bound: nat)
    requires 0 < n && sum <= n * bound
    ensures sum / n <= bound
  {
  }

  // ------------------------------------------------------- steps of the summary loop

  datatype Tally = Tally(s: Summary, sumAge: nat, rawGood: nat)

  /** One row of the summary pass. */
  function Add(t: Tally, row: Row, now: I64, staleGood: I64, v: Option<Filter>): Tally {
    match row
    case Corrupt => t
    case Good(rec) =>
      var s := t.s.(total := t.s.total + 1);
      if rec.lastSuccessMs <= 0 then
        t.(s := if rec.lastAttemptMs <= 0 then s.(stub := s.stub + 1) else s.(failed := s.failed + 1))
      else
        var age := SatSub(now, rec.lastSuccessMs);
        if age <= staleGood then
          var s := match rec.address.ip
            case V4(_) => s.(v4 := s.v4 + 1)
            case V6(_) => s.(v6 := s.v6 + 1);
          Tally(
            if Passes(v, rec) then s.(good := s.good + 1) else s.(filtered := s.filtered + 1),
            if age > 0 then t.sumAge + age else t.sumAge,
            t.rawGood + 1)
        else
          t.(s := s.(stale := s.stale + 1))
  }

  ghost predicate Tallied(t: Tally, p: Table, d: set<NetAddress>, now: I64, staleGood: I64, v: Option<Filter>) {
    && Summarizes(t.s, p, d, now, staleGood, v)
    && t.rawGood == Count(p, d, FreshRec(now, staleGood))
    && t.sumAge == AgeSum(p, d, now, staleGood)
  }

  function Finish(t: Tally): Summary {
    t.s.(avgSuccessAgeMs := if t.rawGood > 0 then t.sumAge / t.rawGood else 0)
  }

  lemma FinishTally(t: Tally, p: Table, d: set<NetAddress>, now: I64, staleGood: I64, v: Option<Filter>)
    requires Tallied(t, p, d, now, staleGood, v) && 0 <= staleGood
    ensures Summarizes(Finish(t), p, d, now, staleGood, v)
    ensures var n := Count(p, d, FreshRec(now, staleGood));
            Finish(t).avgSuccessAgeMs == if n > 0 then AgeSum(p, d, now, staleGood) / n else 0
    ensures Finish(t).avgSuccessAgeMs <= staleGood
  {
    AgeSumBound(p, d, now, staleGood);
    if t.rawGood > 0 {
      AverageBound(t.sumAge, t.rawGood, staleGood);
    }
  }

  lemma EmptyTally(p: Table, now: I64, staleGood: I64, v: Option<Filter>)
    ensures Tallied(Tally(Summary(0, 0, 0, 0, 0, 0, 0, 0, 0), 0, 0), p, {}, now, staleGood, v)
  {
  }

  lemma AddStep(t: Tally, p: Table, d: set<NetAddress>, k: NetAddress, now: I64, staleGood: I64, v: Option<Filter>)
    requires Tallied(t, p, d, now, staleGood, v) && k in p && k !in d
    ensures Tallied(Add(t, p[k], now, staleGood, v), p, d + {k}, now, staleGood, v)
  {
    CountSteps(p, d, k, now, staleGood, v);
    CountStep(p, d, k, FreshRec(now, staleGood));
    AgeSumStep(p, d + {k}, k, now, staleGood);
    assert d + {k} - {k} == d;
  }
}
