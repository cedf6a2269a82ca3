/** The serving snapshot and the DNS answers drawn from it. */
module Dns {
  import opened Common
  import opened Net
  import opened Peers
  import opened PeerFilter
  import opened Freshness
  import opened Store

  datatype DnsConfig = DnsConfig(
    staleGood: I64,
    minProtocolVersion: Option<nat>,
    minUserAgent: Option<Version>,
    parse: string -> Option<Version>)

  function ServingFilter(cfg: DnsConfig, p2pPort: Port, family: Family, now: I64): Filter {
    Serving(now, cfg.staleGood, cfg.minProtocolVersion, cfg.minUserAgent, Some(family), Some(p2pPort), cfg.parse)
  }

  /** What it takes to be handed out: answered within the window, of the right family and port, and valid. */
  ghost predicate Servable(rec: PeerRecord, cfg: DnsConfig, p2pPort: Port, family: Family, now: I64) {
    && rec.lastSuccessMs > 0 && now - rec.lastSuccessMs <= cfg.staleGood
    && InFamily(rec.address.ip, family) && rec.address.port == p2pPort
    && (cfg.minProtocolVersion.Some? ==> rec.protocolVersion >= cfg.minProtocolVersion.value)
    && (cfg.minUserAgent.Some? ==>
          var v := cfg.parse(rec.userAgent);
          v.Some? && v.value.AtLeast(cfg.minUserAgent.value))
  }

  /** With a window that does not reach back to the epoch, the filter selects exactly the servable peers. */
  lemma SelectedAreServable(p: Table, cfg: DnsConfig, p2pPort: Port, family: Family, now: I64, k: NetAddress)
    requires cfg.staleGood < now && AllComparable(ServingFilter(cfg, p2pPort, family, now), p)
    ensures k in Selected(p, ServingFilter(cfg, p2pPort, family, now))
       <==> HasRecord(p, k) && Servable(p[k].rec, cfg, p2pPort, family, now)
  {
  }

  ghost function Ips(s: seq<PeerRecord>): (ips: seq<Ip>)
    ensures |ips| == |s|
    ensures forall i :: 0 <= i < |s| ==> ips[i] == s[i].address.ip
  {
    seq(|s|, i requires 0 <= i < |s| => s[i].address.ip)
  }

  /** One half of a snapshot: the addresses of the freshest matching peers, one family, none twice. */
  ghost predicate IsHalf(ips: seq<Ip>, p: Table, f: Filter, cap: nat)
    requires AllComparable(f, p) && f.family.Some?
  {
    && Distinct(ips)
    && (forall i :: 0 <= i < |ips| ==> InFamily(ips[i], f.family.value))
    && exists chosen: seq<PeerRecord> :: FreshestOf(chosen, p, Selected(p, f), cap) && ips == Ips(chosen)
  }

  method PickFreshest(store: PeerStore, cfg: DnsConfig, p2pPort: Port, family: Family, now: I64, cap: nat, fault: bool)
    returns (ips: seq<Ip>)
    requires KeyedByAddress(store.peers)
    requires AllComparable(ServingFilter(cfg, p2pPort, family, now), store.peers)
    ensures fault ==> ips == []
    ensures !fault ==> IsHalf(ips, store.peers, ServingFilter(cfg, p2pPort, family, now), cap)
  {
    var f := ServingFilter(cfg, p2pPort, family, now);
    var scan := store.CollectMatching(f, fault);
    if scan.Err? { return []; }
    var peers := scan.value;
    ghost var rows :| IsListing(peers, store.peers, Selected(store.peers, f), rows);
    RowsList(peers, rows, store.peers);
    var top := TopFreshest(peers, cap, store.peers, Selected(store.peers, f));
    ips := [];
    for i := 0 to |top|
      invariant ips == Ips(top[..i])
    {
      ips := ips + [top[i].address.ip];
    }
    assert top[..|top|] == top;
    OneIpPerPeer(top, store.peers, f, cap);
  }

  /** One family on one port: distinct addresses are distinct IPs. */
  lemma OneIpPerPeer(top: seq<PeerRecord>, p: Table, f: Filter, cap: nat)
    requires AllComparable(f, p) && f.family.Some? && f.defaultPort.Some?
    requires FreshestOf(top, p, Selected(p, f), cap)
    ensures IsHalf(Ips(top), p, f, cap)
  {
    var a := Addresses(top);
    forall i | 0 <= i < |top| ensures Matches(f, top[i]) {
      assert a[i] in SetOf(a);
    }
    forall i, j | 0 <= i < j < |top| ensures top[i].address.ip != top[j].address.ip {
      assert a[i] != a[j];
    }
  }

  datatype Snapshot = Snapshot(v4: seq<Ip>, v6: seq<Ip>)

  /** How one half is scanned: the store as that scan finds it, its clock reading, and whether it fails. */
  datatype ScanPoint = ScanPoint(store: PeerStore, now: I64, fault: bool)

  ghost predicate Scannable(at: ScanPoint, cfg: DnsConfig, p2pPort: Port, family: Family)
    reads at.store
  {
    KeyedByAddress(at.store.peers) && AllComparable(ServingFilter(cfg, p2pPort, family, at.now), at.store.peers)
  }

  ghost predicate HalfAt(ips: seq<Ip>, at: ScanPoint, cfg: DnsConfig, p2pPort: Port, family: Family, cap: nat)
    requires Scannable(at, cfg, p2pPort, family)
    reads at.store
  {
    if at.fault then ips == [] else IsHalf(ips, at.store.peers, ServingFilter(cfg, p2pPort, family, at.now), cap)
  }

  /** Each half reads the clock and scans the store for itself; the store may change in between. */
  method BuildSnapshot(at4: ScanPoint, at6: ScanPoint, cfg: DnsConfig, p2pPort: Port, cap: nat) returns (s: Snapshot)
    requires Scannable(at4, cfg, p2pPort, FamilyV4) && Scannable(at6, cfg, p2pPort, FamilyV6)
    ensures HalfAt(s.v4, at4, cfg, p2pPort, FamilyV4, cap)
    ensures HalfAt(s.v6, at6, cfg, p2pPort, FamilyV6, cap)
  {
    var v4 := PickFreshest(at4.store, cfg, p2pPort, FamilyV4, at4.now, cap, at4.fault);
    var v6 := PickFreshest(at6.store, cfg, p2pPort, FamilyV6, at6.now, cap, at6.fault);
    s := Snapshot(v4, v6);
  }

  /** A seeded peer that never answered is handed out, in 2023 under a window of 64 years. */
  lemma SeededPeerServed(cfg: DnsConfig)
    requires cfg.staleGood == 2_019_686_400_000 && cfg.minProtocolVersion == None && cfg.minUserAgent == None
    ensures var a := NetAddress(V4([1, 1, 1, 1]), 16111);
            var p := map[a := Good(SeenStub(a, NOW - 1000))];
            var f := ServingFilter(cfg, 16111, FamilyV4, NOW);
            && AllComparable(f, p) && a in Selected(p, f)
            && !Servable(p[a].rec, cfg, 16111, FamilyV4, NOW)
  {
    var a := NetAddress(V4([1, 1, 1, 1]), 16111);
    NeverSuccessfulServedIff(ServingFilter(cfg, 16111, FamilyV4, NOW), SeenStub(a, NOW - 1000), cfg.staleGood);
  }

  // ------------------------------------------------------------------ answers

  datatype QueryType = TypeA | TypeAAAA | TypeNS | TypeSOA | TypeOther

  datatype RData = A(v4: Octets4) | AAAA(v6: Octets16) | NS | SOA

  datatype Answer = Answer(answers: seq<RData>, ns: seq<RData>, soa: seq<RData>)

  /** `100::`, the discard prefix: what an AAAA query gets instead of nothing. */
  const SENTINEL: RData := AAAA([1, 0, 0, 0, 0, 0, 0, 0, 0, 0, 0, 0, 0, 0, 0, 0])

  function AddressRecord(ip: Ip): RData {
    match ip
    case V4(o) => A(o)
    case V6(o) => AAAA(o)
  }

  /** What the random source returns for a sample: as many distinct positions as asked for, or all. */
  ghost predicate IsSample(picks: seq<nat>, size: nat, max: nat) {
    && |picks| == (if max <= size then max else size)
    && Distinct(picks)
    && forall i :: 0 <= i < |picks| ==> picks[i] < size
  }

  ghost predicate DrawnFrom(out: seq<RData>, pool: seq<Ip>, max: nat) {
    && |out| == (if max <= |pool| then max else |pool|)
    && Distinct(out)
    && forall i :: 0 <= i < |out| ==> OfPool(out[i], pool)
  }

  ghost predicate OfPool(r: RData, pool: seq<Ip>) {
    exists ip :: ip in pool && r == AddressRecord(ip)
  }

  /** A record carries the octets of its address, as A for IPv4 and AAAA for IPv6. */
  lemma RecordOctets(r: RData, pool: seq<Ip>)
    ensures OfPool(r, pool) <==> (r.A? && V4(r.v4) in pool) || (r.AAAA? && V6(r.v6) in pool)
  {
    if r.A? { assert AddressRecord(V4(r.v4)) == r; }
    if r.AAAA? { assert AddressRecord(V6(r.v6)) == r; }
  }

  /** Drawn from the pool if anything can be, and otherwise the sentinel; never empty. */
  ghost predicate DrawnOrSentinel(out: seq<RData>, pool: seq<Ip>, max: nat) {
    && out != []
    && if pool != [] && max > 0 then DrawnFrom(out, pool, max)
       else |out| == 1 && out[0].AAAA? && out[0].v6[0] == 1 && forall i :: 1 <= i < 16 ==> out[0].v6[i] == 0
  }

  method SampleAddressRecords(pool: seq<Ip>, max: nat, picks: seq<nat>) returns (out: seq<RData>)
    requires Distinct(pool) && IsSample(picks, |pool|, max)
    ensures DrawnFrom(out, pool, max)
    ensures forall i :: 0 <= i < |out| ==>
              (out[i].A? && V4(out[i].v4) in pool) || (out[i].AAAA? && V6(out[i].v6) in pool)
  {
    out := [];
    for i := 0 to |picks|
      invariant |out| == i
      invariant forall k :: 0 <= k < i ==> out[k] == AddressRecord(pool[picks[k]])
      invariant forall k :: 0 <= k < i ==> OfPool(out[k], pool)
    {
      assert pool[picks[i]] in pool;
      out := out + [AddressRecord(pool[picks[i]])];
    }
    forall i, j | 0 <= i < j < |out| ensures out[i] != out[j] {
      assert pool[picks[i]] != pool[picks[j]];
    }
    forall i | 0 <= i < |out| { RecordOctets(out[i], pool); }
  }

  method BuildAnswers(snap: Snapshot, qtype: QueryType, max: nat, picks: seq<nat>) returns (out: seq<RData>)
    requires Distinct(snap.v4) && Distinct(snap.v6)
    requires qtype.TypeA? ==> IsSample(picks, |snap.v4|, max)
    requires qtype.TypeAAAA? ==> IsSample(picks, |snap.v6|, max)
    ensures qtype.TypeA? ==> DrawnFrom(out, snap.v4, max)
    ensures qtype.TypeAAAA? ==> DrawnOrSentinel(out, snap.v6, max)
    ensures qtype.TypeNS? ==> out == [NS]
    ensures qtype.TypeSOA? ==> out == [SOA]
    ensures qtype.TypeOther? ==> out == []
  {
    match qtype
    case TypeA => out := SampleAddressRecords(snap.v4, max, picks);
    case TypeAAAA =>
      out := SampleAddressRecords(snap.v6, max, picks);
      if out == [] { out := [SENTINEL]; }
    case TypeNS => out := [NS];
    case TypeSOA => out := [SOA];
    case TypeOther => out := [];
  }

  method BuildAnswer(snap: Snapshot, qtype: QueryType, max: nat, picks: seq<nat>) returns (r: Answer)
    requires Distinct(snap.v4) && Distinct(snap.v6)
    requires qtype.TypeA? ==> IsSample(picks, |snap.v4|, max)
    requires qtype.TypeAAAA? ==> IsSample(picks, |snap.v6|, max)
    ensures qtype.TypeA? ==> DrawnFrom(r.answers, snap.v4, max)
    ensures qtype.TypeAAAA? ==> DrawnOrSentinel(r.answers, snap.v6, max)
    ensures qtype.TypeNS? ==> r.answers == [NS]
    ensures qtype.TypeSOA? ==> r.answers == [SOA]
    ensures r.ns == if qtype.TypeA? || qtype.TypeAAAA? then [NS] else []
    ensures r.soa == if r.answers == [] then [SOA] else []
    ensures r.answers == [] <==> qtype.TypeOther? || (qtype.TypeA? && (snap.v4 == [] || max == 0))
  {
    var answers := BuildAnswers(snap, qtype, max, picks);
    var soa := if answers == [] && !qtype.TypeSOA? then [SOA] else [];
    var ns := if qtype.TypeA? || qtype.TypeAAAA? then [NS] else [];
    r := Answer(answers, ns, soa);
  }

  /** The peer behind a member of a snapshot half. */
  lemma PeerBehind(ips: seq<Ip>, p: Table, cfg: DnsConfig, p2pPort: Port, family: Family, now: I64, cap: nat, j: nat)
    returns (k: NetAddress)
    requires cfg.staleGood < now && AllComparable(ServingFilter(cfg, p2pPort, family, now), p)
    requires IsHalf(ips, p, ServingFilter(cfg, p2pPort, family, now), cap) && j < |ips|
    ensures HasRecord(p, k) && Servable(p[k].rec, cfg, p2pPort, family, now) && k.ip == ips[j]
  {
    var f := ServingFilter(cfg, p2pPort, family, now);
    var chosen: seq<PeerRecord> :| FreshestOf(chosen, p, Selected(p, f), cap) && ips == Ips(chosen);
    k := chosen[j].address;
    assert Addresses(chosen)[j] in SetOf(Addresses(chosen));
    SelectedAreServable(p, cfg, p2pPort, family, now, k);
  }

  /**
   * From store to answer: with `staleGood < now`, every address record drawn from a half of a
   * snapshot is the address of a stored peer that answered within the window on the p2p port.
   */
  lemma AnswersAreServable(
    out: seq<RData>, ips: seq<Ip>, max: nat, i: nat,
    p: Table, cfg: DnsConfig, p2pPort: Port, family: Family, now: I64, cap: nat)
    returns (k: NetAddress)
    requires cfg.staleGood < now && AllComparable(ServingFilter(cfg, p2pPort, family, now), p)
    requires IsHalf(ips, p, ServingFilter(cfg, p2pPort, family, now), cap) && DrawnFrom(out, ips, max) && i < |out|
    ensures HasRecord(p, k) && Servable(p[k].rec, cfg, p2pPort, family, now)
    ensures (out[i].A? && k.ip == V4(out[i].v4)) || (out[i].AAAA? && k.ip == V6(out[i].v6))
  {
    assert OfPool(out[i], ips);
    RecordOctets(out[i], ips);
    var ip := if out[i].A? then V4(out[i].v4) else V6(out[i].v6);
    var j :| 0 <= j < |ips| && ips[j] == ip;
    k := PeerBehind(ips, p, cfg, p2pPort, family, now, cap, j);
  }
}
