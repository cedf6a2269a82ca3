/** The HTTP peer list, the single-peer lookup and the submission checks. */
module PeerList {
  import opened Common
  import opened Net
  import opened Peers
  import opened PeerFilter
  import opened Freshness
  import opened Store
  import opened RateLimit

  const MAX_LIST_RESPONSE: nat := 1000

  datatype WebConfig = WebConfig(
    staleGood: I64,
    minProtocolVersion: Option<nat>,
    minUserAgent: Option<Version>,
    policy: Policy,
    parse: string -> Option<Version>)

  function ListFilter(cfg: WebConfig, all: bool, now: I64): Filter {
    Serving(
      now,
      if all then I64_MAX else cfg.staleGood,
      if all then None else cfg.minProtocolVersion,
      if all then None else cfg.minUserAgent,
      None, None, cfg.parse)
  }

  /** The untruncated list: what the filter selects, and with `all` only those that ever answered. */
  ghost function Listed(p: Table, cfg: WebConfig, all: bool, now: I64): set<NetAddress>
    requires AllComparable(ListFilter(cfg, all, now), p)
  {
    set k | k in Selected(p, ListFilter(cfg, all, now)) && (all ==> p[k].rec.lastSuccessMs > 0)
  }

  /** The lookup rule: the record matches the list filter and has answered at least once. */
  predicate Found(p: Table, cfg: WebConfig, all: bool, now: I64, a: NetAddress)
    requires HasRecord(p, a) ==> Comparable(ListFilter(cfg, all, now), p[a].rec)
  {
    HasRecord(p, a) && Matches(ListFilter(cfg, all, now), p[a].rec) && p[a].rec.lastSuccessMs > 0
  }

  /** What is on the list: with `all` whoever ever answered, otherwise whoever passes the window and both floors. */
  lemma ListedMeans(p: Table, cfg: WebConfig, all: bool, now: I64, a: NetAddress)
    requires AllComparable(ListFilter(cfg, all, now), p) && HasRecord(p, a)
    ensures all && 0 <= now ==> (a in Listed(p, cfg, all, now) <==> p[a].rec.lastSuccessMs > 0)
    ensures !all ==> (a in Listed(p, cfg, all, now) <==>
              && now - p[a].rec.lastSuccessMs <= cfg.staleGood
              && (cfg.minProtocolVersion.Some? ==> p[a].rec.protocolVersion >= cfg.minProtocolVersion.value)
              && (cfg.minUserAgent.Some? ==>
                    var v := cfg.parse(p[a].rec.userAgent);
                    v.Some? && v.value.AtLeast(cfg.minUserAgent.value)))
  {
  }

  /** Lookup and list agree on every peer if `all` is set or the window does not reach back to the epoch. */
  lemma LookupAgreesWithList(p: Table, cfg: WebConfig, all: bool, now: I64, a: NetAddress)
    requires AllComparable(ListFilter(cfg, all, now), p)
    requires all || cfg.staleGood < now
    ensures Found(p, cfg, all, now, a) <==> a in Listed(p, cfg, all, now)
  {
  }

  /** Otherwise, of all peers, exactly the valid ones that never answered are listed and yet not found. */
  lemma ListedButNotFoundIff(p: Table, cfg: WebConfig, all: bool, now: I64, a: NetAddress)
    requires AllComparable(ListFilter(cfg, all, now), p) && HasRecord(p, a) && p[a].rec.lastSuccessMs >= 0
    ensures a in Listed(p, cfg, all, now) && !Found(p, cfg, all, now, a)
       <==> && !all && now <= cfg.staleGood && p[a].rec.lastSuccessMs == 0
            && PassesValidity(ListFilter(cfg, all, now), p[a].rec)
  {
  }

  /** A seeded peer, in 2023 under a window of 64 years: on the list, but not found. */
  lemma SeededPeerListedNotFound(cfg: WebConfig)
    requires cfg.staleGood == 2_019_686_400_000 && cfg.minProtocolVersion == None && cfg.minUserAgent == None
    ensures var a := NetAddress(V4([1, 1, 1, 1]), 16111);
            var p := map[a := Good(SeenStub(a, NOW - 1000))];
            && AllComparable(ListFilter(cfg, false, NOW), p)
            && a in Listed(p, cfg, false, NOW) && !Found(p, cfg, false, NOW, a)
  {
    var a := NetAddress(V4([1, 1, 1, 1]), 16111);
    var p := map[a := Good(SeenStub(a, NOW - 1000))];
    ListedButNotFoundIff(p, cfg, false, NOW, a);
  }

  method Retain(s: seq<PeerRecord>, ghost p: Table, ghost keys: set<NetAddress>) returns (r: seq<PeerRecord>)
    requires Lists(s, p, keys)
    ensures Lists(r, p, set k | k in keys && HasRecord(p, k) && p[k].rec.lastSuccessMs > 0)
  {
    r := [];
    for i := 0 to |s|
      invariant Lists(r, p, set k | k in SetOf(Addresses(s[..i])) && HasRecord(p, k) && p[k].rec.lastSuccessMs > 0)
    {
      ghost var before := set k | k in SetOf(Addresses(s[..i])) && HasRecord(p, k) && p[k].rec.lastSuccessMs > 0;
      StepKeys(s, i);
      if s[i].lastSuccessMs > 0 {
        InsertedLists(r, |r|, s[i], p, before);
        assert r[..|r|] + [s[i]] + r[|r|..] == r + [s[i]];
        r := r + [s[i]];
      }
      assert (set k | k in SetOf(Addresses(s[..i + 1])) && HasRecord(p, k) && p[k].rec.lastSuccessMs > 0)
          == if s[i].lastSuccessMs > 0 then before + {s[i].address} else before;
    }
    assert s[..|s|] == s;
  }

  /** The served list is the freshest thousand of the untruncated list, newest first; a failing scan is an error. */
  method ComputeList(store: PeerStore, cfg: WebConfig, all: bool, now: I64, fault: bool)
    returns (r: Result<seq<PeerRecord>>)
    requires KeyedByAddress(store.peers) && AllComparable(ListFilter(cfg, all, now), store.peers)
    ensures fault ==> r == Err(Storage)
    ensures !fault ==> r.Ok? && FreshestOf(r.value, store.peers, Listed(store.peers, cfg, all, now), 1000)
  {
    var f := ListFilter(cfg, all, now);
    var scan := store.CollectMatching(f, fault);
    if scan.Err? { return scan; }
    var records := scan.value;
    ghost var rows :| IsListing(records, store.peers, Selected(store.peers, f), rows);
    RowsList(records, rows, store.peers);
    ghost var keys := Selected(store.peers, f);
    if all {
      records := Retain(records, store.peers, keys);
    }
    assert Listed(store.peers, cfg, all, now) ==
           if all then set k | k in keys && HasRecord(store.peers, k) && store.peers[k].rec.lastSuccessMs > 0 else keys;
    var out := TopFreshest(records, MAX_LIST_RESPONSE, store.peers, Listed(store.peers, cfg, all, now));
    return Ok(out);
  }

  datatype Submission = Accepted(addr: NetAddress) | RateLimited | BadFormat | Unroutable

  /**
   * The checks before a submitted peer is probed, in order. Any submission costs a token;
   * `parsed` is what the address parser makes of the text.
   */
  method ValidateSubmission(parsed: Option<NetAddress>, client: Ip, now: int, cfg: WebConfig, limiter: RateLimiter)
    returns (r: Submission)
    requires limiter.Valid()
    modifies limiter
    ensures limiter.Valid()
    ensures limiter.limits.capacity > 0 ==>
              && |old(limiter.history)| < |limiter.history|
              && limiter.history[|old(limiter.history)|] == Query(client, now)
              && (r.RateLimited? <==> !Allowed(limiter.limits, limiter.history, |old(limiter.history)|, true))
    ensures limiter.limits.capacity == 0 ==> !r.RateLimited?
    ensures r.BadFormat? <==> !r.RateLimited? && parsed.None?
    ensures r.Accepted? <==> !r.RateLimited? && parsed.Some? && IsAcceptable(NetFrom(parsed.value), cfg.policy)
    ensures r.Accepted? ==> r.addr == NetFrom(parsed.value) && Storable(r.addr, cfg.policy)
  {
    var allowed := limiter.Check(client, now);
    if !allowed { return RateLimited; }
    if parsed.None? { return BadFormat; }
    var net := NetFrom(parsed.value);
    if !IsAcceptable(net, cfg.policy) { return Unroutable; }
    return Accepted(net);
  }
}
