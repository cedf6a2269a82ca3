/** Turning probe results, gossip and seeds into records and addresses. */
module Probe {
  import opened Common
  import opened Net
  import opened Peers

  /** What a peer reports about itself in its version message. */
  datatype VersionMessage = VersionMessage(
    id: seq<Byte>,
    protocolVersion: nat,
    timestamp: I64,
    userAgent: string,
    subnetworkId: Option<seq<Byte>>)

  /** A 16-byte id from whatever bytes came, zero-padded or cut. */
  function PeerIdFromBytes(bytes: seq<Byte>): (id: seq<Byte>)
    ensures |id| == 16
    ensures |bytes| >= 16 ==> id <= bytes
    ensures |bytes| <= 16 ==> bytes <= id && forall i :: |bytes| <= i < 16 ==> id[i] == 0
  {
    seq(16, i requires 0 <= i < 16 => if i < |bytes| then bytes[i] else 0)
  }

  /** The record of a successful probe at `now`; only `firstSeenMs` survives from an earlier record. */
  function PeerRecordFromVersion(addr: NetAddress, v: VersionMessage, now: I64, existing: Option<PeerRecord>)
    : (rec: PeerRecord)
    ensures IsSuccess(rec) && rec.lastSuccessMs == now
    ensures IsCanonical(rec.address.ip) && (IsCanonical(addr.ip) ==> rec.address == addr)
    ensures existing.Some? ==> rec.firstSeenMs == existing.value.firstSeenMs
    ensures existing.None? ==> rec.firstSeenMs == now
    ensures rec.id == PeerIdFromBytes(v.id) && rec.timestampMs == v.timestamp
    ensures rec.protocolVersion == v.protocolVersion && rec.userAgent == v.userAgent
    ensures rec.subnetworkId.Some? <==> v.subnetworkId.Some? && |v.subnetworkId.value| == 20
    ensures rec.subnetworkId.Some? ==> rec.subnetworkId == v.subnetworkId
  {
    PeerRecord(
      NetFrom(addr),
      PeerIdFromBytes(v.id),
      v.protocolVersion,
      v.userAgent,
      if v.subnetworkId.Some? && |v.subnetworkId.value| == 20 then v.subnetworkId else None,
      v.timestamp,
      if existing.Some? then existing.value.firstSeenMs else now,
      now, now, now)
  }

  /** An advertised address; port 0 stands for the network's default port. */
  function FromGossip(raw: NetAddress, p: Policy): NetAddress {
    NetFrom(NetAddress(raw.ip, if raw.port == 0 then p.defaultPort else raw.port))
  }

  /** `a` is the host `x` named, on the port it named or, for port 0, on the default port. */
  predicate Advertised(a: NetAddress, x: NetAddress, p: Policy) {
    a.ip == CanonicalizeIp(x.ip) && a.port == if x.port == 0 then p.defaultPort else x.port
  }

  function Discovered(raw: seq<NetAddress>, p: Policy): (r: seq<NetAddress>)
    ensures forall a :: a in r ==> Storable(a, p)
    ensures forall x :: x in raw && x.port != 0 && IsAcceptable(NetFrom(x), p) ==> NetFrom(x) in r
    ensures forall x :: x in raw && x.port == 0 ==>
              var net := NetAddress(CanonicalizeIp(x.ip), p.defaultPort);
              IsAcceptable(net, p) ==> net in r
  {
    if raw == [] then [] else
      var net := FromGossip(raw[0], p);
      (if IsAcceptable(net, p) then [net] else []) + Discovered(raw[1..], p)
  }

  function Bootstrapped(raw: seq<NetAddress>, p: Policy): (r: seq<NetAddress>)
    ensures forall a :: a in r ==> Storable(a, p)
    ensures forall x :: x in raw && IsAcceptable(NetFrom(x), p) ==> NetFrom(x) in r
  {
    if raw == [] then [] else
      var net := NetFrom(raw[0]);
      (if IsAcceptable(net, p) then [net] else []) + Bootstrapped(raw[1..], p)
  }

  /** Nothing is discovered that was not advertised. */
  lemma {:induction false} DiscoveredWasAdvertised(raw: seq<NetAddress>, p: Policy, a: NetAddress)
    returns (x: NetAddress)
    requires a in Discovered(raw, p)
    ensures x in raw && Advertised(a, x, p)
  {
    if a in Discovered(raw[1..], p) {
      x := DiscoveredWasAdvertised(raw[1..], p, a);
    } else {
      x := raw[0];
    }
  }

  /** Nothing is seeded that was not among the seeds, on the very port it has there. */
  lemma {:induction false} BootstrappedWasSeed(raw: seq<NetAddress>, p: Policy, a: NetAddress) returns (x: NetAddress)
    requires a in Bootstrapped(raw, p)
    ensures x in raw && a.ip == CanonicalizeIp(x.ip) && a.port == x.port
  {
    if a in Bootstrapped(raw[1..], p) {
      x := BootstrappedWasSeed(raw[1..], p, a);
    } else {
      x := raw[0];
    }
  }
}
