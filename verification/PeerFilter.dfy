/** Which stored peers are shown to clients. */
module PeerFilter {
  import opened Common
  import opened Net
  import opened Peers

  datatype Family = FamilyV4 | FamilyV6

  datatype Version = Version(major: nat, minor: nat, patch: nat) {
    predicate AtLeast(min: Version) {
      || major > min.major
      || (major == min.major && minor > min.minor)
      || (major == min.major && minor == min.minor && patch >= min.patch)
    }
  }

  /** Versions compare like numbers with the components as digits of any base that holds them. */
  lemma AtLeastMeans(v: Version, min: Version, base: nat)
    requires v.minor < base && v.patch < base && min.minor < base && min.patch < base
    ensures v.AtLeast(min) <==>
              (v.major * base + v.minor) * base + v.patch >= (min.major * base + min.minor) * base + min.patch
  {
    DigitsCompare(v.major, v.minor, min.major, min.minor, base);
    DigitsCompare(v.major * base + v.minor, v.patch, min.major * base + min.minor, min.patch, base);
  }

  lemma DigitsCompare(a: nat, b: nat, c: nat, d: nat, base: nat)
    requires b < base && d < base
    ensures a * base + b >= c * base + d <==> a > c || (a == c && b >= d)
    ensures a * base + b == c * base + d <==> a == c && b == d
  {
    if a > c {
      MulMonotone(c + 1, a, base);
      OneMore(c, base);
    } else if a < c {
      MulMonotone(a + 1, c, base);
      OneMore(a, base);
    }
  }

  /** `parse` is the user-agent parser, a library on top of semver. */
  datatype Filter = Filter(
    nowMs: I64,
    deadAfterMs: I64,
    staleGoodMs: Option<I64>,
    family: Option<Family>,
    minProtocolVersion: Option<nat>,
    minUserAgent: Option<Version>,
    defaultPort: Option<Port>,
    parse: string -> Option<Version>)

  function Serving(nowMs: I64, staleGoodMs: I64, minProtocolVersion: Option<nat>, minUserAgent: Option<Version>,
                   family: Option<Family>, defaultPort: Option<Port>, parse: string -> Option<Version>): Filter
  {
    Filter(nowMs, I64_MAX, Some(staleGoodMs), family, minProtocolVersion, minUserAgent, defaultPort, parse)
  }

  predicate InFamily(ip: Ip, family: Family) {
    match family
    case FamilyV4 => ip.V4?
    case FamilyV6 => ip.V6?
  }

  predicate PassesValidity(f: Filter, rec: PeerRecord) {
    && (f.minProtocolVersion.Some? ==> rec.protocolVersion >= f.minProtocolVersion.value)
    && (f.minUserAgent.Some? ==>
          var v := f.parse(rec.userAgent);
          v.Some? && v.value.AtLeast(f.minUserAgent.value))
    && (f.defaultPort.Some? ==> rec.address.port == f.defaultPort.value)
  }

  /** The ages `matches` computes fit `i64`; otherwise the checked subtraction aborts. */
  predicate Comparable(f: Filter, rec: PeerRecord) {
    SubFits(f.nowMs, rec.lastSeenMs) && SubFits(f.nowMs, rec.lastSuccessMs)
  }

  predicate Matches(f: Filter, rec: PeerRecord)
    requires Comparable(f, rec)
  {
    && f.nowMs - rec.lastSeenMs <= f.deadAfterMs
    && (f.staleGoodMs.Some? ==> f.nowMs - rec.lastSuccessMs <= f.staleGoodMs.value)
    && (f.family.Some? ==> InFamily(rec.address.ip, f.family.value))
    && PassesValidity(f, rec)
  }

  /** A filter matches what was seen and answered recently enough, in its family, on its port, above its floors. */
  lemma MatchesMeans(f: Filter, rec: PeerRecord)
    requires Comparable(f, rec)
    ensures Matches(f, rec) <==>
              && rec.lastSeenMs >= f.nowMs - f.deadAfterMs
              && (f.staleGoodMs == None || rec.lastSuccessMs >= f.nowMs - f.staleGoodMs.value)
              && (f.family == None || f.family == Some(if rec.address.ip.V4? then FamilyV4 else FamilyV6))
              && (f.defaultPort == None || f.defaultPort == Some(rec.address.port))
              && (f.minProtocolVersion == None || f.minProtocolVersion.value <= rec.protocolVersion)
              && (f.minUserAgent == None ||
                  (f.parse(rec.userAgent).Some? && f.parse(rec.userAgent).value.AtLeast(f.minUserAgent.value)))
  {
  }

  ghost predicate AllComparable(f: Filter, p: Table) {
    forall k :: HasRecord(p, k) ==> Comparable(f, p[k].rec)
  }

  /** The records a filter selects, by key. */
  ghost function Selected(p: Table, f: Filter): set<NetAddress>
    requires AllComparable(f, p)
  {
    set k | k in p && HasRecord(p, k) && Matches(f, p[k].rec)
  }

  /**
   * A peer that never answered is served exactly when it is valid and the serving window
   * reaches back past the epoch; `staleGood < now` is what keeps stubs out of every answer.
   */
  lemma NeverSuccessfulServedIff(f: Filter, rec: PeerRecord, staleGood: I64)
    requires Comparable(f, rec) && rec.lastSuccessMs == 0
    requires f.staleGoodMs == Some(staleGood) && f.deadAfterMs == I64_MAX
    ensures Matches(f, rec) <==>
              && f.nowMs <= staleGood && PassesValidity(f, rec)
              && (f.family.Some? ==> InFamily(rec.address.ip, f.family.value))
  {
  }
}
