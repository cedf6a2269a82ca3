/**
 * Peer records, the probing rules, and the peer table as a plain map: every store
 * transaction is given here by its effect on that map alone. `Store` carries the
 * attempt index beside the map and is proved to have exactly these effects.
 */
module Peers {
  import opened Common
  import opened Net
  import opened Index

  datatype PeerRecord = PeerRecord(
    address: NetAddress,
    id: seq<Byte>,
    protocolVersion: nat,
    userAgent: string,
    subnetworkId: Option<seq<Byte>>,
    timestampMs: I64,
    firstSeenMs: I64,
    lastSeenMs: I64,
    lastAttemptMs: I64,
    lastSuccessMs: I64)

  const UNKNOWN_PEER_ID: seq<Byte> := [0, 0, 0, 0, 0, 0, 0, 0, 0, 0, 0, 0, 0, 0, 0, 0]

  /** A stored row either decodes to a record or does not decode. */
  datatype Row = Good(rec: PeerRecord) | Corrupt

  type Table = map<NetAddress, Row>

  predicate HasRecord(p: Table, k: NetAddress) {
    k in p && p[k].Good?
  }

  ghost predicate KeyedByAddress(p: Table) {
    forall k :: HasRecord(p, k) ==> p[k].rec.address == k
  }

  // ------------------------------------------------------------ probing rules

  /** Re-probe windows. A larger `staleGood` overflows the checked multiplication and aborts. */
  datatype Windows = Windows(staleGood: I64, staleBad: I64) {
    predicate Valid() {
      0 <= staleGood <= I64_MAX / 4 && 0 <= staleBad
    }
  }

  /** The windows a release build runs with: durations for which the multiplication by four does not overflow. */
  lemma ValidMeans(w: Windows)
    ensures w.Valid() <==> 0 <= w.staleBad && 0 <= w.staleGood && w.staleGood * 4 <= 0x7fff_ffff_ffff_ffff
  {
  }

  function GoodThreshold(w: Windows): (t: I64)
    requires w.Valid()
    ensures 0 <= t <= w.staleGood
    ensures 5 * t <= 4 * w.staleGood < 5 * (t + 1)
  {
    w.staleGood * 4 / 5
  }

  predicate IsDead(rec: PeerRecord, cutoff: I64) {
    || (rec.lastSuccessMs > 0 && rec.lastSuccessMs < cutoff)
    || (rec.lastSeenMs < cutoff && rec.firstSeenMs < cutoff)
  }

  function Threshold(rec: PeerRecord, w: Windows): (t: I64)
    requires w.Valid()
    ensures 0 <= t
  {
    if rec.lastSuccessMs > 0 then GoodThreshold(w) else w.staleBad
  }

  predicate IsEligible(rec: PeerRecord, now: I64, w: Windows, cutoff: I64)
    requires w.Valid()
  {
    !IsDead(rec, cutoff) && SatSub(now, rec.lastAttemptMs) >= Threshold(rec, w)
  }

  function AttemptCeiling(now: I64, w: Windows): I64
    requires w.Valid()
  {
    SatSub(now, if GoodThreshold(w) <= w.staleBad then GoodThreshold(w) else w.staleBad)
  }

  /** A peer that never answered is due `staleBad` after its last attempt, if it was seen since the cutoff. */
  lemma UnansweredDueIff(rec: PeerRecord, now: I64, w: Windows, cutoff: I64)
    requires w.Valid() && SubFits(now, rec.lastAttemptMs) && rec.lastSuccessMs <= 0
    ensures IsEligible(rec, now, w, cutoff) <==>
              now >= rec.lastAttemptMs + w.staleBad && (rec.lastSeenMs >= cutoff || rec.firstSeenMs >= cutoff)
  {
  }

  /** The ceiling is as low as it can be: a live record at or below it would be due in one of the two classes. */
  lemma CeilingIsLeast(rec: PeerRecord, now: I64, w: Windows, cutoff: I64)
    requires w.Valid() && SubFits(now, rec.lastAttemptMs) && rec.lastAttemptMs <= AttemptCeiling(now, w)
    requires 0 < rec.lastSuccessMs && !IsDead(rec, cutoff)
    requires I64_MIN + w.staleBad <= now && I64_MIN + w.staleGood <= now
    ensures IsEligible(rec, now, w, cutoff) || IsEligible(rec.(lastSuccessMs := 0), now, w, cutoff)
  {
  }

  /** The scan ceiling loses nobody, at either saturating end of the clock. */
  lemma CeilingCoversEligible(rec: PeerRecord, now: I64, w: Windows, cutoff: I64)
    requires w.Valid() && IsEligible(rec, now, w, cutoff)
    ensures rec.lastAttemptMs <= AttemptCeiling(now, w)
  {
  }

  /** A peer that answered and whose last answer is inside the serving window. */
  predicate InServingWindow(rec: PeerRecord, now: I64, staleGood: I64) {
    rec.lastSuccessMs > 0 && now - rec.lastSuccessMs <= staleGood
  }

  /** A live peer that has answered is due and served exactly from a threshold after its attempt to its expiry. */
  lemma DueWhileServedIff(rec: PeerRecord, now: I64, w: Windows, cutoff: I64)
    requires w.Valid() && SubFits(now, rec.lastAttemptMs) && SubFits(now, rec.lastSuccessMs)
    requires rec.lastSuccessMs > 0 && !IsDead(rec, cutoff)
    ensures IsEligible(rec, now, w, cutoff) && InServingWindow(rec, now, w.staleGood)
       <==> rec.lastAttemptMs + GoodThreshold(w) <= now <= rec.lastSuccessMs + w.staleGood
  {
  }

  /**
   * Re-probe before expiry: a live peer whose last answer is not older than its last dated
   * attempt is due during the whole last fifth of the serving window, and from exactly 80% of
   * it on if the two dates agree. The attempt of the answered probe may be dated earlier.
   */
  lemma ReprobeBeforeExpiry(rec: PeerRecord, now: I64, w: Windows, cutoff: I64)
    requires w.Valid() && SubFits(now, rec.lastAttemptMs) && SubFits(now, rec.lastSuccessMs)
    requires 0 < rec.lastSuccessMs && rec.lastAttemptMs <= rec.lastSuccessMs && !IsDead(rec, cutoff)
    ensures rec.lastSuccessMs + GoodThreshold(w) <= now <= rec.lastSuccessMs + w.staleGood ==>
              IsEligible(rec, now, w, cutoff) && InServingWindow(rec, now, w.staleGood)
    ensures rec.lastAttemptMs == rec.lastSuccessMs ==>
              (IsEligible(rec, now, w, cutoff) && InServingWindow(rec, now, w.staleGood)
          <==> rec.lastSuccessMs + GoodThreshold(w) <= now <= rec.lastSuccessMs + w.staleGood)
    ensures 5 * (w.staleGood - GoodThreshold(w)) >= w.staleGood
  {
    DueWhileServedIff(rec, now, w, cutoff);
  }

  // ------------------------------------------------- due list by a full scan

  /** The index entry of every eligible record, found by looking at every row. */
  ghost function DueEntries(p: Table, now: I64, w: Windows, cutoff: I64): set<Entry>
    requires w.Valid()
  {
    set k | HasRecord(p, k) && k in p && IsEligible(p[k].rec, now, w, cutoff) :: Entry(p[k].rec.lastAttemptMs, k)
  }

  ghost predicate Backed(p: Table, es: seq<Entry>) {
    forall i :: 0 <= i < |es| ==> HasRecord(p, es[i].key)
  }

  ghost function Records(p: Table, es: seq<Entry>): (rs: seq<PeerRecord>)
    requires Backed(p, es)
    ensures |rs| == |es|
    ensures forall i :: 0 <= i < |es| ==> rs[i] == p[es[i].key].rec
  {
    seq(|es|, i requires 0 <= i < |es| => p[es[i].key].rec)
  }

  ghost function FirstN<T>(s: seq<T>, n: nat): (r: seq<T>)
    ensures |r| == if n <= |s| then n else |s|
    ensures r <= s
  {
    if n <= |s| then s[..n] else s
  }

  lemma OrderedBacked(p: Table, es: set<Entry>)
    requires forall e :: e in es ==> HasRecord(p, e.key)
    ensures Backed(p, Ordered(es))
  {
    var o := Ordered(es);
    forall i | 0 <= i < |o| ensures HasRecord(p, o[i].key) {
      assert o[i] in SetOf(o);
    }
  }

  /** The due list by definition: the oldest `max` eligible records of the whole table, in index order. */
  ghost function Due(p: Table, now: I64, w: Windows, cutoff: I64, max: nat): (out: seq<PeerRecord>)
    requires w.Valid()
  {
    OrderedBacked(p, DueEntries(p, now, w, cutoff));
    Records(p, FirstN(Ordered(DueEntries(p, now, w, cutoff)), max))
  }

  ghost function Addresses(rs: seq<PeerRecord>): (a: seq<NetAddress>)
    ensures |a| == |rs|
    ensures forall i :: 0 <= i < |rs| ==> a[i] == rs[i].address
  {
    seq(|rs|, i requires 0 <= i < |rs| => rs[i].address)
  }

  /** The addresses of all eligible records. */
  ghost function DueSet(p: Table, now: I64, w: Windows, cutoff: I64): set<NetAddress>
    requires w.Valid()
  {
    set k | k in p && HasRecord(p, k) && IsEligible(p[k].rec, now, w, cutoff)
  }

  /** The due list names eligible peers only, none twice, and all of them unless it is full. */
  lemma DueAddresses(p: Table, now: I64, w: Windows, cutoff: I64, max: nat)
    requires w.Valid() && KeyedByAddress(p)
    ensures Distinct(Addresses(Due(p, now, w, cutoff, max)))
    ensures SetOf(Addresses(Due(p, now, w, cutoff, max))) <= DueSet(p, now, w, cutoff)
    ensures |Due(p, now, w, cutoff, max)| < max ==>
              SetOf(Addresses(Due(p, now, w, cutoff, max))) == DueSet(p, now, w, cutoff)
  {
    DueNamesOnce(p, now, w, cutoff, max);
    var a := Addresses(Due(p, now, w, cutoff, max));
    forall k | k in a ensures k in DueSet(p, now, w, cutoff) {
      DueByEntry(p, now, w, cutoff, max);
    }
    if |a| < max {
      forall k | k in DueSet(p, now, w, cutoff) ensures k in a {
        DueNamesAll(p, now, w, cutoff, max, k);
      }
    }
  }

  /** The due list goes from the oldest attempt on, and a full one leaves out no peer with an older attempt. */
  lemma DueOldestFirst(p: Table, now: I64, w: Windows, cutoff: I64, max: nat)
    requires w.Valid() && KeyedByAddress(p)
    ensures var due := Due(p, now, w, cutoff, max);
            && (forall i, j :: 0 <= i < j < |due| ==> due[i].lastAttemptMs <= due[j].lastAttemptMs)
            && (forall k, i :: k in DueSet(p, now, w, cutoff) && k !in Addresses(due) && 0 <= i < |due| ==>
                  due[i].lastAttemptMs <= p[k].rec.lastAttemptMs)
  {
    var due := Due(p, now, w, cutoff, max);
    var o := Ordered(DueEntries(p, now, w, cutoff));
    var f := FirstN(o, max);
    DueByEntry(p, now, w, cutoff, max);
    forall i, j | 0 <= i < j < |due| ensures due[i].lastAttemptMs <= due[j].lastAttemptMs {
      EntryOrder(f[i], f[j]);
    }
    forall k, i | k in DueSet(p, now, w, cutoff) && k !in Addresses(due) && 0 <= i < |due|
      ensures due[i].lastAttemptMs <= p[k].rec.lastAttemptMs
    {
      LeftOutIsNewer(p, now, w, cutoff, max, k, i);
    }
  }

  lemma LeftOutIsNewer(p: Table, now: I64, w: Windows, cutoff: I64, max: nat, k: NetAddress, i: nat)
    requires w.Valid() && KeyedByAddress(p) && k in DueSet(p, now, w, cutoff)
    requires k !in Addresses(Due(p, now, w, cutoff, max)) && i < |Due(p, now, w, cutoff, max)|
    ensures Due(p, now, w, cutoff, max)[i].lastAttemptMs <= p[k].rec.lastAttemptMs
  {
    var a := Addresses(Due(p, now, w, cutoff, max));
    var o := Ordered(DueEntries(p, now, w, cutoff));
    var f := FirstN(o, max);
    DueByEntry(p, now, w, cutoff, max);
    var e := Entry(p[k].rec.lastAttemptMs, k);
    assert e in DueEntries(p, now, w, cutoff) && e in SetOf(o);
    var j :| 0 <= j < |o| && o[j] == e;
    assert forall x :: 0 <= x < |f| ==> f[x].key == a[x];
    EntryOrder(f[i], o[j]);
  }

  lemma EntryOrder(a: Entry, b: Entry)
    requires Before(a, b)
    ensures a.attempt <= b.attempt
  {
    BeforeMeans(b, a);
  }

  lemma DueNamesOnce(p: Table, now: I64, w: Windows, cutoff: I64, max: nat)
    requires w.Valid() && KeyedByAddress(p)
    ensures Distinct(Addresses(Due(p, now, w, cutoff, max)))
  {
    DueByEntry(p, now, w, cutoff, max);
    var f := FirstN(Ordered(DueEntries(p, now, w, cutoff)), max);
    var a := Addresses(Due(p, now, w, cutoff, max));
    forall i, j | 0 <= i < j < |a| ensures a[i] != a[j] {
      BeforeAsymmetric(f[i], f[j]);
    }
  }

  lemma DueByEntry(p: Table, now: I64, w: Windows, cutoff: I64, max: nat)
    requires w.Valid() && KeyedByAddress(p)
    ensures var es := DueEntries(p, now, w, cutoff);
            var f, a := FirstN(Ordered(es), max), Addresses(Due(p, now, w, cutoff, max));
            |a| == |f| && forall i :: 0 <= i < |f| ==> f[i] in es && a[i] == f[i].key
  {
    var es := DueEntries(p, now, w, cutoff);
    OrderedBacked(p, es);
    assert forall i :: 0 <= i < |Ordered(es)| ==> Ordered(es)[i] in SetOf(Ordered(es));
  }

  lemma DueNamesAll(p: Table, now: I64, w: Windows, cutoff: I64, max: nat, k: NetAddress)
    requires w.Valid() && KeyedByAddress(p) && k in DueSet(p, now, w, cutoff)
    requires |Due(p, now, w, cutoff, max)| < max
    ensures k in Addresses(Due(p, now, w, cutoff, max))
  {
    DueByEntry(p, now, w, cutoff, max);
    var o := Ordered(DueEntries(p, now, w, cutoff));
    var e := Entry(p[k].rec.lastAttemptMs, k);
    assert e in DueEntries(p, now, w, cutoff) && e in SetOf(o);
    var i :| 0 <= i < |o| && o[i] == e;
    assert Addresses(Due(p, now, w, cutoff, max))[i] == k;
  }

  // ------------------------------------------------ transactions on the table

  function Upserted(p: Table, rec: PeerRecord): Table {
    p[rec.address := Good(rec)]
  }

  function Deleted(p: Table, a: NetAddress): Table {
    p - {a}
  }

  function AttemptStub(a: NetAddress, now: I64): PeerRecord {
    PeerRecord(a, UNKNOWN_PEER_ID, 0, "", None, 0, now, 0, now, 0)
  }

  function SeenStub(a: NetAddress, now: I64): PeerRecord {
    PeerRecord(a, UNKNOWN_PEER_ID, 0, "", None, 0, now, now, 0, 0)
  }

  /** `record_attempt` is refused on a row that does not decode; the table then stays as it was. */
  function Attempted(p: Table, a: NetAddress, now: I64): Table {
    if a !in p then p[a := Good(AttemptStub(a, now))]
    else if p[a].Good? then p[a := Good(p[a].rec.(lastAttemptMs := now))]
    else p
  }

  function SeenRow(p: Table, a: NetAddress, now: I64): Row {
    if HasRecord(p, a) then Good(p[a].rec.(lastSeenMs := now)) else Good(SeenStub(a, now))
  }

  predicate AllDecode(p: Table, addrs: set<NetAddress>) {
    forall a :: a in addrs && a in p ==> p[a].Good?
  }

  /** Seeding by its effect on the table: known addresses get a new `lastSeenMs`, unknown ones a stub. */
  function Seen(p: Table, addrs: set<NetAddress>, now: I64): Table {
    if AllDecode(p, addrs)
    then map a | a in p.Keys + addrs :: if a in addrs then SeenRow(p, a, now) else p[a]
    else p
  }

  function SeenOne(p: Table, a: NetAddress, now: I64): Table {
    p[a := SeenRow(p, a, now)]
  }

  function SeenEach(p: Table, addrs: seq<NetAddress>, now: I64): Table {
    if addrs == [] then p
    else SeenOne(SeenEach(p, addrs[..|addrs| - 1], now), addrs[|addrs| - 1], now)
  }

  /**
   * One transaction for a whole batch leaves what seeding the addresses one by one leaves.
   * `Seen` looks only at the set of addresses, so order and repetition do not matter.
   */
  lemma {:induction false} BatchRefinesSingleSeeding(p: Table, addrs: seq<NetAddress>, now: I64)
    requires AllDecode(p, SetOf(addrs))
    ensures SeenEach(p, addrs, now) == Seen(p, SetOf(addrs), now)
  {
    if addrs == [] {
      assert Seen(p, {}, now) == p;
    } else {
      var init, last := addrs[..|addrs| - 1], addrs[|addrs| - 1];
      assert addrs == init + [last];
      SetOfConcat(init, [last]);
      assert SetOf(addrs) == SetOf(init) + {last};
      BatchRefinesSingleSeeding(p, init, now);
      SeenOneMore(p, SetOf(init), last, now);
    }
  }

  lemma SeenOneMore(p: Table, addrs: set<NetAddress>, a: NetAddress, now: I64)
    requires AllDecode(p, addrs + {a})
    ensures AllDecode(p, addrs)
    ensures Seen(p, addrs + {a}, now) == SeenOne(Seen(p, addrs, now), a, now)
  {
    var l, r := Seen(p, addrs + {a}, now), SeenOne(Seen(p, addrs, now), a, now);
    assert l.Keys == r.Keys;
    forall k | k in l ensures l[k] == r[k] {
    }
  }

  lemma BatchIgnoresOrder(p: Table, a: seq<NetAddress>, b: seq<NetAddress>, now: I64)
    requires SetOf(a) == SetOf(b) && AllDecode(p, SetOf(a))
    ensures SeenEach(p, a, now) == SeenEach(p, b, now)
  {
    BatchRefinesSingleSeeding(p, a, now);
    BatchRefinesSingleSeeding(p, b, now);
  }

  /**
   * Being gossiped again keeps a peer from being pruned exactly unless it once answered and
   * has not answered since the cutoff.
   */
  lemma GossipRescuesIff(rec: PeerRecord, now: I64, cutoff: I64)
    requires cutoff <= now
    ensures IsDead(rec.(lastSeenMs := now), cutoff) <==> 0 < rec.lastSuccessMs < cutoff
  {
  }

  function Pruned(p: Table, cutoff: I64): Table {
    map k | k in p && !(p[k].Good? && IsDead(p[k].rec, cutoff)) :: p[k]
  }

  /** Removing dead peers never changes a due list taken at the same or a later cutoff. */
  lemma PruneKeepsDue(p: Table, c: I64, now: I64, w: Windows, cutoff: I64, max: nat)
    requires w.Valid() && c <= cutoff
    ensures Due(Pruned(p, c), now, w, cutoff, max) == Due(p, now, w, cutoff, max)
  {
    var q := Pruned(p, c);
    assert DueEntries(q, now, w, cutoff) == DueEntries(p, now, w, cutoff) by {
      forall k | HasRecord(p, k) && IsEligible(p[k].rec, now, w, cutoff) ensures HasRecord(q, k) && q[k] == p[k] {
      }
    }
    OrderedBacked(p, DueEntries(p, now, w, cutoff));
    OrderedBacked(q, DueEntries(p, now, w, cutoff));
  }

  /** What opening the store keeps of its rows. */
  function Decodable(p: Table): Table {
    map k | k in p && p[k].Good? :: p[k]
  }

  // ------------------------------------------- what the transactions do to each row

  /** Every row outside `keys` is there exactly as before. */
  ghost predicate SameOutside(p: Table, q: Table, keys: set<NetAddress>) {
    forall k :: k !in keys ==> (k in p <==> k in q) && (k in p ==> q[k] == p[k])
  }

  lemma UpsertedMeans(p: Table, rec: PeerRecord)
    ensures var q := Upserted(p, rec);
            rec.address in q && q[rec.address] == Good(rec) && SameOutside(p, q, {rec.address})
  {
  }

  lemma DeletedMeans(p: Table, a: NetAddress)
    ensures a !in Deleted(p, a) && SameOutside(p, Deleted(p, a), {a})
  {
  }

  /** A record as it is when its address is first heard of: nothing is known of it but when. */
  predicate IsNew(rec: PeerRecord, a: NetAddress, seen: I64, attempt: I64, first: I64) {
    && rec.address == a && rec.firstSeenMs == first && rec.lastSeenMs == seen && rec.lastAttemptMs == attempt
    && rec.lastSuccessMs == 0 && rec.protocolVersion == 0 && rec.timestampMs == 0
    && rec.userAgent == "" && rec.subnetworkId == None
    && |rec.id| == 16 && forall i :: 0 <= i < 16 ==> rec.id[i] == 0
  }

  /** An attempt dates a known record and nothing else; an unknown address is new, attempted but never seen. */
  lemma AttemptedMeans(p: Table, a: NetAddress, now: I64)
    ensures var q := Attempted(p, a, now);
            && SameOutside(p, q, {a}) && a in q
            && (a !in p ==> q[a].Good? && IsNew(q[a].rec, a, 0, now, now))
            && (HasRecord(p, a) ==> q[a] == Good(p[a].rec.(lastAttemptMs := now)))
            && (a in p && p[a].Corrupt? ==> q[a].Corrupt?)
  {
  }

  /** A batch dates the sighting of the known and nothing else; unknown addresses are new, seen but never attempted. */
  lemma SeenMeans(p: Table, addrs: set<NetAddress>, now: I64)
    requires AllDecode(p, addrs)
    ensures var q := Seen(p, addrs, now);
            && SameOutside(p, q, addrs)
            && forall a :: a in addrs ==>
                 && a in q && q[a].Good?
                 && (a !in p ==> IsNew(q[a].rec, a, now, 0, now))
                 && (a in p ==> q[a].rec == p[a].rec.(lastSeenMs := now))
  {
  }

  /** A prune removes whoever last answered before the cutoff, and whoever was first and last seen before it. */
  lemma PrunedMeans(p: Table, cutoff: I64, k: NetAddress)
    ensures k in Pruned(p, cutoff) ==> k in p && Pruned(p, cutoff)[k] == p[k]
    ensures k in p && p[k].Corrupt? ==> k in Pruned(p, cutoff)
    ensures HasRecord(p, k) && p[k].rec.lastSuccessMs <= 0 ==>
              (k !in Pruned(p, cutoff) <==> p[k].rec.lastSeenMs < cutoff && p[k].rec.firstSeenMs < cutoff)
    ensures HasRecord(p, k) && p[k].rec.lastSuccessMs > 0 ==>
              (k !in Pruned(p, cutoff) <==>
                 || p[k].rec.lastSuccessMs < cutoff
                 || (p[k].rec.lastSeenMs < cutoff && p[k].rec.firstSeenMs < cutoff))
  {
  }

  lemma DecodableMeans(p: Table, k: NetAddress)
    ensures k in Decodable(p) <==> k in p && p[k].Good?
    ensures k in Decodable(p) ==> Decodable(p)[k] == p[k]
  {
  }

  // --------------------------------------------------------- logs of commits

  /** A committed store transaction, or a reopening; an aborted one leaves no trace. */
  datatype Commit =
    | Upsert(rec: PeerRecord)
    | Delete(addr: NetAddress)
    | Attempt(addr: NetAddress, now: I64)
    | SeenBatch(addrs: seq<NetAddress>, now: I64)
    | Prune(cutoff: I64)
    | Reopen

  function Apply(p: Table, c: Commit): Table {
    match c
    case Upsert(rec) => Upserted(p, rec)
    case Delete(a) => Deleted(p, a)
    case Attempt(a, now) => Attempted(p, a, now)
    case SeenBatch(addrs, now) => Seen(p, SetOf(addrs), now)
    case Prune(cutoff) => Pruned(p, cutoff)
    case Reopen => Decodable(p)
  }

  function ApplyAll(p: Table, log: seq<Commit>): Table {
    if log == [] then p else Apply(ApplyAll(p, log[..|log| - 1]), log[|log| - 1])
  }

  /** Only a successful probe dates a peer's success; every other commit leaves it, or starts at none. */
  lemma OnlyUpsertDatesSuccess(p: Table, c: Commit, k: NetAddress)
    requires HasRecord(Apply(p, c), k) && !(c.Upsert? && c.rec.address == k)
    ensures var rec := Apply(p, c)[k].rec;
            if HasRecord(p, k)
            then
              && rec.lastSuccessMs == p[k].rec.lastSuccessMs
              && rec.firstSeenMs == p[k].rec.firstSeenMs && rec.id == p[k].rec.id
            else rec.lastSuccessMs == 0
  {
  }

  /** The record a successful probe writes carries one clock reading in all three lifecycle fields. */
  predicate IsSuccess(rec: PeerRecord) {
    rec.lastAttemptMs == rec.lastSuccessMs == rec.lastSeenMs
  }

  predicate Stamped(c: Commit, from: I64, to: I64) {
    match c
    case Upsert(rec) => IsSuccess(rec) && from <= rec.lastSuccessMs <= to
    case Attempt(_, now) => from <= now <= to
    case SeenBatch(_, now) => from <= now <= to
    case _ => true
  }

  /** Commit i carries a clock reading between `clock[i]` and `clock[i+1]`. */
  predicate CommitOrdered(log: seq<Commit>, clock: seq<I64>) {
    && |clock| == |log| + 1
    && (forall i :: 0 <= i < |log| ==> 0 <= clock[i] <= clock[i + 1] && Stamped(log[i], clock[i], clock[i + 1]))
  }

  ghost predicate SeenSinceSuccess(p: Table, now: I64) {
    forall k :: HasRecord(p, k) ==> p[k].rec.lastSuccessMs <= p[k].rec.lastSeenMs <= now
  }

  lemma {:induction false} OrderedLogSeenSinceSuccess(log: seq<Commit>, clock: seq<I64>)
    requires CommitOrdered(log, clock) && clock[0] >= 0
    ensures SeenSinceSuccess(ApplyAll(map[], log), clock[|log|])
  {
    if log != [] {
      var n := |log| - 1;
      OrderedLogSeenSinceSuccess(log[..n], clock[..|log|]);
      CommitKeepsSeenSinceSuccess(ApplyAll(map[], log[..n]), log[n], clock[n], clock[n + 1]);
    }
  }

  lemma CommitKeepsSeenSinceSuccess(p: Table, c: Commit, from: I64, to: I64)
    requires 0 <= from <= to && SeenSinceSuccess(p, from) && Stamped(c, from, to)
    ensures SeenSinceSuccess(Apply(p, c), to)
  {
  }

  /** Of a served peer, pruning looks only at when it was seen: exactly then it is removed. */
  lemma ServedPeerPrunedIff(p: Table, k: NetAddress, now: I64, staleGood: I64, deadAfter: I64)
    requires 0 <= staleGood <= deadAfter && 0 <= now
    requires HasRecord(p, k) && InServingWindow(p[k].rec, now, staleGood)
    ensures k !in Pruned(p, SatSub(now, deadAfter))
       <==> p[k].rec.lastSeenMs < now - deadAfter && p[k].rec.firstSeenMs < now - deadAfter
  {
  }

  /**
   * Pruning is invisible to clients: in every commit-ordered run from an empty store,
   * a prune with a cutoff no shorter than the serving window keeps every served peer.
   */
  lemma PruneKeepsServed(log: seq<Commit>, clock: seq<I64>, k: NetAddress, now: I64, staleGood: I64, deadAfter: I64)
    requires CommitOrdered(log, clock) && clock[0] >= 0
    requires 0 <= staleGood <= deadAfter && 0 <= now
    requires HasRecord(ApplyAll(map[], log), k) && InServingWindow(ApplyAll(map[], log)[k].rec, now, staleGood)
    ensures HasRecord(Pruned(ApplyAll(map[], log), SatSub(now, deadAfter)), k)
  {
    OrderedLogSeenSinceSuccess(log, clock);
    ServedPeerPrunedIff(ApplyAll(map[], log), k, now, staleGood, deadAfter);
  }

  /** Without commit order it fails: a seeding batch stamped before the success it follows. */
  lemma LateBatchPrunesServedPeer(rec: PeerRecord)
    requires IsSuccess(rec) && rec.lastSuccessMs == 100 && rec.firstSeenMs == 1
    ensures var p := ApplyAll(map[], [SeenBatch([rec.address], 1), Upsert(rec), SeenBatch([rec.address], 5)]);
            && HasRecord(p, rec.address) && InServingWindow(p[rec.address].rec, 120, 30)
            && rec.address !in Pruned(p, SatSub(120, 50))
  {
    var log := [SeenBatch([rec.address], 1), Upsert(rec), SeenBatch([rec.address], 5)];
    assert log[..2][..1] == [SeenBatch([rec.address], 1)] && log[..2][1] == Upsert(rec);
    var p1 := ApplyAll(map[], log[..2]);
    assert p1 == Upserted(ApplyAll(map[], log[..2][..1]), rec);
    assert ApplyAll(map[], log) == Seen(p1, SetOf([rec.address]), 5);
    assert rec.address in SetOf([rec.address]);
  }
}
