/**
 * The per-IP limiter with lazy eviction. Histories are sequences of events in the order in
 * which the bucket map sees them; the same history can be run with and without evictions.
 */
module RateLimit {
  import opened Common
  import opened Net

  datatype Limits = Limits(capacity: nat, window: nat)

  datatype Bucket = Bucket(tokens: nat, refillAt: int)

  type Buckets = map<Ip, Bucket>

  datatype Event = Query(ip: Ip, at: int) | Sweep(at: int)

  const SWEEP_INTERVAL: nat := 1024
  const U64_SIZE: nat := 0x1_0000_0000_0000_0000

  /** The bucket a check works on: a missing or expired one starts full. */
  function Current(l: Limits, m: Buckets, ip: Ip, at: int): (b: Bucket)
    ensures l.window > 0 ==> at < b.refillAt
  {
    if ip !in m || at >= m[ip].refillAt then Bucket(l.capacity, at + l.window) else m[ip]
  }

  predicate Grants(l: Limits, m: Buckets, ip: Ip, at: int) {
    Current(l, m, ip, at).tokens > 0
  }

  function Touched(l: Limits, m: Buckets, ip: Ip, at: int): Buckets {
    var b := Current(l, m, ip, at);
    m[ip := b.(tokens := if b.tokens == 0 then 0 else b.tokens - 1)]
  }

  function Swept(m: Buckets, at: int): Buckets {
    map ip | ip in m && at < m[ip].refillAt :: m[ip]
  }

  function Step(l: Limits, m: Buckets, e: Event, sweeping: bool): Buckets {
    match e
    case Query(ip, at) => Touched(l, m, ip, at)
    case Sweep(at) => if sweeping then Swept(m, at) else m
  }

  function After(l: Limits, m: Buckets, trace: seq<Event>, sweeping: bool): Buckets {
    if trace == [] then m
    else Step(l, After(l, m, trace[..|trace| - 1], sweeping), trace[|trace| - 1], sweeping)
  }

  /** Whether event i of the history, a query, is granted. */
  predicate Allowed(l: Limits, trace: seq<Event>, i: nat, sweeping: bool)
    requires i < |trace| && trace[i].Query?
  {
    Grants(l, After(l, map[], trace[..i], sweeping), trace[i].ip, trace[i].at)
  }

  ghost predicate Nondecreasing(trace: seq<Event>) {
    forall i, j :: 0 <= i < j < |trace| ==> trace[i].at <= trace[j].at
  }

  // ------------------------------------------------------- sweeps change nothing

  /** Bucket maps that answer alike from time `at` on. */
  ghost predicate Agree(m: Buckets, u: Buckets, at: int) {
    forall ip :: if ip in m then ip in u && m[ip] == u[ip] else ip in u ==> u[ip].refillAt <= at
  }

  /** No check is dated before a sweep that came ahead of it; otherwise dates may go back and forth. */
  ghost predicate NotOvertaken(trace: seq<Event>) {
    forall i, j :: 0 <= i < j < |trace| && trace[i].Sweep? && trace[j].Query? ==> trace[i].at <= trace[j].at
  }

  lemma {:induction false} SweptAgrees(l: Limits, trace: seq<Event>, at: int)
    requires NotOvertaken(trace)
    requires forall i :: 0 <= i < |trace| && trace[i].Sweep? ==> trace[i].at <= at
    ensures Agree(After(l, map[], trace, true), After(l, map[], trace, false), at)
  {
    if trace != [] {
      var n := |trace| - 1;
      SweptAgrees(l, trace[..n], at);
      if trace[n].Query? {
        SweptAgrees(l, trace[..n], trace[n].at);
      }
    }
  }

  /**
   * For every history in which no check is dated before an earlier sweep, evicting buckets
   * never changes an answer, whatever the schedule.
   */
  lemma SweepTransparent(l: Limits, trace: seq<Event>, i: nat)
    requires NotOvertaken(trace) && i < |trace| && trace[i].Query?
    ensures Allowed(l, trace, i, true) == Allowed(l, trace, i, false)
  {
    SweptAgrees(l, trace[..i], trace[i].at);
  }

  /**
   * Out of time order an eviction can be seen, in exactly one situation: an exhausted bucket
   * was evicted by a clock reading later than the check's own.
   */
  lemma SweepVisibleIff(l: Limits, m: Buckets, sweptAt: int, ip: Ip, at: int)
    requires l.capacity > 0
    ensures Grants(l, Swept(m, sweptAt), ip, at) != Grants(l, m, ip, at)
       <==> ip in m && m[ip].tokens == 0 && at < m[ip].refillAt <= sweptAt
  {
  }

  /** A sweep is made by a caller right after its own check, at the same clock reading. */
  ghost predicate SweptByCallers(trace: seq<Event>) {
    forall i :: 0 <= i < |trace| && trace[i].Sweep? ==> i > 0 && trace[i - 1].Query? && trace[i - 1].at == trace[i].at
  }

  /** Three checks, of which the second sweeps at `swept` before a check with an earlier reading gets its turn. */
  function Overtaking(ip: Ip, other: Ip, at: int, swept: int): seq<Event> {
    [Query(ip, at), Query(other, swept), Sweep(swept), Query(ip, at)]
  }

  /**
   * The condition cannot be relaxed: for any check dated before a sweep there are limits and a
   * history, one the callers can produce, in which that check is granted only because of the sweep.
   */
  lemma OvertakenCheckSeesSweep(ip: Ip, other: Ip, at: int, swept: int)
    requires other != ip && at < swept
    ensures var l, trace := Limits(1, swept - at), Overtaking(ip, other, at, swept);
            SweptByCallers(trace) && Allowed(l, trace, 3, true) && !Allowed(l, trace, 3, false)
  {
    var l, trace := Limits(1, swept - at), Overtaking(ip, other, at, swept);
    forall sweeping: bool ensures ip in After(l, map[], trace[..2], sweeping)
                            && After(l, map[], trace[..2], sweeping)[ip] == Bucket(0, swept)
    {
      AfterNext(l, trace, 0, sweeping);
      AfterNext(l, trace, 1, sweeping);
    }
    AfterNext(l, trace, 2, true);
    AfterNext(l, trace, 2, false);
  }

  // ----------------------------------------------------------------- rate bounds

  /** Grants to `ip` among events [lo, n) dated in [a, b). */
  function Granted(l: Limits, trace: seq<Event>, ip: Ip, a: int, b: int, lo: nat, n: nat, sweeping: bool): nat
    requires lo <= n <= |trace|
    decreases n
  {
    if n == lo then 0
    else
      Granted(l, trace, ip, a, b, lo, n - 1, sweeping) +
      if GrantedAt(l, trace, ip, a, b, n - 1, sweeping) then 1 else 0
  }

  predicate GrantedAt(l: Limits, trace: seq<Event>, ip: Ip, a: int, b: int, i: nat, sweeping: bool)
    requires i < |trace|
  {
    trace[i].Query? && trace[i].ip == ip && a <= trace[i].at < b && Allowed(l, trace, i, sweeping)
  }

  lemma {:induction false} GrantedUnswept(l: Limits, trace: seq<Event>, ip: Ip, a: int, b: int, lo: nat, n: nat)
    requires lo <= n <= |trace| && Nondecreasing(trace)
    ensures Granted(l, trace, ip, a, b, lo, n, true) == Granted(l, trace, ip, a, b, lo, n, false)
    decreases n
  {
    if n > lo {
      GrantedUnswept(l, trace, ip, a, b, lo, n - 1);
      if trace[n - 1].Query? { SweepTransparent(l, trace, n - 1); }
    }
  }

  lemma AfterNext(l: Limits, trace: seq<Event>, n: nat, sweeping: bool)
    requires n < |trace|
    ensures After(l, map[], trace[..n + 1], sweeping) ==
            Step(l, After(l, map[], trace[..n], sweeping), trace[n], sweeping)
  {
    assert trace[..n + 1][..n] == trace[..n];
  }

  lemma {:induction false} BucketBounded(l: Limits, trace: seq<Event>, n: nat, ip: Ip, b: int)
    requires n <= |trace| && forall i :: 0 <= i < n ==> trace[i].at < b
    ensures var m := After(l, map[], trace[..n], false);
            ip in m ==> m[ip].tokens <= l.capacity && m[ip].refillAt < b + l.window
    decreases n
  {
    if n > 0 {
      BucketBounded(l, trace, n - 1, ip, b);
      AfterNext(l, trace, n - 1, false);
    }
  }

  /**
   * Inside [a, a + k*window): while `j` windows have opened after the first one to grant,
   * at most (j+1)*capacity grants were made, and the current window ends after a + j*window.
   */
  ghost predicate Paced(l: Limits, m: Buckets, ip: Ip, a: int, b: int, granted: nat, j: nat) {
    && ip in m
    && a + j * l.window < m[ip].refillAt < b + l.window
    && granted + m[ip].tokens <= (j + 1) * l.capacity
  }

  lemma PacedBound(l: Limits, m: Buckets, ip: Ip, a: int, k: nat, granted: nat, j: nat)
    requires l.window > 0 && Paced(l, m, ip, a, a + k * l.window, granted, j)
    ensures granted <= (k + 1) * l.capacity
  {
    assert j * l.window < (k + 1) * l.window;
    if j > k {
      MulMonotone(k + 1, j, l.window);
      assert false;
    }
    MulMonotone(j + 1, k + 1, l.capacity);
  }

  lemma PacedStep(l: Limits, m: Buckets, ip: Ip, a: int, b: int, granted: nat, j: nat, at: int) returns (j': nat)
    requires l.window > 0 && l.capacity > 0 && Paced(l, m, ip, a, b, granted, j) && a <= at < b
    ensures Paced(l, Touched(l, m, ip, at), ip, a, b, granted + if Grants(l, m, ip, at) then 1 else 0, j')
  {
    if at >= m[ip].refillAt {
      j' := j + 1;
      assert (j + 1) * l.window == j * l.window + l.window;
      assert (j + 2) * l.capacity == (j + 1) * l.capacity + l.capacity;
    } else {
      j' := j;
    }
  }

  lemma {:induction false} PacedRun(l: Limits, trace: seq<Event>, ip: Ip, a: int, b: int, n: nat) returns (j: nat)
    requires l.window > 0 && l.capacity > 0 && n <= |trace| && Nondecreasing(trace)
    requires forall i :: 0 <= i < n ==> trace[i].at < b
    ensures var g := Granted(l, trace, ip, a, b, 0, n, false);
            g > 0 ==> Paced(l, After(l, map[], trace[..n], false), ip, a, b, g, j)
    decreases n
  {
    j := 0;
    if n > 0 {
      j := PacedRun(l, trace, ip, a, b, n - 1);
      var m := After(l, map[], trace[..n - 1], false);
      var g := Granted(l, trace, ip, a, b, 0, n - 1, false);
      AfterNext(l, trace, n - 1, false);
      var e := trace[n - 1];
      if e.at < a {
        EarlierNotGranted(l, trace, ip, a, b, n - 1);
      } else if e.Query? && e.ip == ip {
        if g > 0 {
          j := PacedStep(l, m, ip, a, b, g, j, e.at);
        } else {
          j := 0;
          BucketBounded(l, trace, n - 1, ip, b);
          FirstGrantPaced(l, m, ip, a, b, e.at);
        }
      }
    }
  }

  lemma FirstGrantPaced(l: Limits, m: Buckets, ip: Ip, a: int, b: int, at: int)
    requires l.window > 0 && l.capacity > 0 && a <= at < b && (ip in m ==> m[ip].tokens <= l.capacity)
    requires ip in m ==> m[ip].refillAt < b + l.window
    ensures Grants(l, m, ip, at) ==> Paced(l, Touched(l, m, ip, at), ip, a, b, 1, 0)
  {
  }

  /** Before time `a` nothing is counted. */
  lemma {:induction false} EarlierNotGranted(l: Limits, trace: seq<Event>, ip: Ip, a: int, b: int, n: nat)
    requires n < |trace| && Nondecreasing(trace) && trace[n].at < a
    ensures Granted(l, trace, ip, a, b, 0, n, false) == 0
    decreases n
  {
    if n > 0 { EarlierNotGranted(l, trace, ip, a, b, n - 1); }
  }

  /** Granted counts only grow, and stop growing once the interval is over. */
  lemma {:induction false} GrantedAfterInterval(l: Limits, trace: seq<Event>, ip: Ip, a: int, b: int, c: nat, n: nat)
    requires c <= n <= |trace| && Nondecreasing(trace)
    requires c < |trace| ==> trace[c].at >= b
    ensures Granted(l, trace, ip, a, b, 0, n, false) == Granted(l, trace, ip, a, b, 0, c, false)
    decreases n
  {
    if n > c {
      GrantedAfterInterval(l, trace, ip, a, b, c, n - 1);
    }
  }

  /** The number of leading events dated before `b`. */
  lemma {:induction false} SplitAt(trace: seq<Event>, b: int) returns (c: nat)
    requires Nondecreasing(trace)
    ensures c <= |trace|
    ensures forall i :: 0 <= i < c ==> trace[i].at < b
    ensures c < |trace| ==> trace[c].at >= b
  {
    if trace == [] || trace[0].at >= b {
      c := 0;
    } else {
      c := SplitAt(trace[1..], b);
      assert forall i :: 1 <= i < |trace| ==> trace[i] == trace[1..][i - 1];
      c := c + 1;
    }
  }

  /** One address is granted at most (k+1)*capacity times in any half-open interval of k windows. */
  lemma RateBound(l: Limits, trace: seq<Event>, ip: Ip, a: int, k: nat)
    requires l.window > 0 && l.capacity > 0 && Nondecreasing(trace)
    ensures Granted(l, trace, ip, a, a + k * l.window, 0, |trace|, true) <= (k + 1) * l.capacity
  {
    var b := a + k * l.window;
    GrantedUnswept(l, trace, ip, a, b, 0, |trace|);
    var c := SplitAt(trace, b);
    GrantedAfterInterval(l, trace, ip, a, b, c, |trace|);
    var j := PacedRun(l, trace, ip, a, b, c);
    var g := Granted(l, trace, ip, a, b, 0, c, false);
    if g > 0 {
      PacedBound(l, After(l, map[], trace[..c], false), ip, a, k, g, j);
    }
  }

  /** Event `w` opened the window that the bucket of `ip` is in after n events. */
  ghost predicate OpenedBy(l: Limits, trace: seq<Event>, ip: Ip, n: nat, w: nat)
    requires n <= |trace|
  {
    var m := After(l, map[], trace[..n], false);
    && ip in m && w < n
    && trace[w] == Query(ip, m[ip].refillAt - l.window)
    && m[ip].tokens + Granted(l, trace, ip, trace[w].at, m[ip].refillAt, w, n, false) == l.capacity
  }

  lemma WindowOpens(l: Limits, trace: seq<Event>, ip: Ip, n: nat)
    requires l.window > 0 && l.capacity > 0 && n < |trace| && Nondecreasing(trace)
    requires trace[n].Query? && trace[n].ip == ip
    requires var m := After(l, map[], trace[..n], false); ip !in m || trace[n].at >= m[ip].refillAt
    ensures OpenedBy(l, trace, ip, n + 1, n)
  {
    AfterNext(l, trace, n, false);
  }

  lemma WindowStaysOpen(l: Limits, trace: seq<Event>, ip: Ip, n: nat, w: nat)
    requires l.window > 0 && l.capacity > 0 && n < |trace| && Nondecreasing(trace)
    requires OpenedBy(l, trace, ip, n, w)
    requires var m := After(l, map[], trace[..n], false);
             trace[n].Query? && trace[n].ip == ip ==> trace[n].at < m[ip].refillAt
    ensures OpenedBy(l, trace, ip, n + 1, w)
  {
    AfterNext(l, trace, n, false);
  }

  lemma {:induction false} WindowOpened(l: Limits, trace: seq<Event>, ip: Ip, n: nat) returns (w: nat)
    requires l.window > 0 && l.capacity > 0 && n <= |trace| && Nondecreasing(trace)
    ensures ip in After(l, map[], trace[..n], false) ==> OpenedBy(l, trace, ip, n, w)
    decreases n
  {
    w := 0;
    if n > 0 {
      w := WindowOpened(l, trace, ip, n - 1);
      var m := After(l, map[], trace[..n - 1], false);
      var e := trace[n - 1];
      if e.Query? && e.ip == ip && (ip !in m || e.at >= m[ip].refillAt) {
        WindowOpens(l, trace, ip, n - 1);
        w := n - 1;
      } else if ip in m {
        WindowStaysOpen(l, trace, ip, n - 1, w);
      } else {
        AfterNext(l, trace, n - 1, false);
      }
    }
  }

  /** Query i falls into the window opened by event w, and that window has granted all its tokens. */
  ghost predicate Spent(l: Limits, trace: seq<Event>, i: nat, w: nat)
    requires i < |trace| && trace[i].Query?
  {
    && w < i && OpenedBy(l, trace, trace[i].ip, i, w) && trace[i].at < trace[w].at + l.window
    && Granted(l, trace, trace[i].ip, trace[w].at, trace[w].at + l.window, w, i, true) == l.capacity
  }

  lemma SpentIsDenied(l: Limits, trace: seq<Event>, i: nat, w: nat)
    requires l.window > 0 && l.capacity > 0 && Nondecreasing(trace) && i < |trace| && trace[i].Query?
    requires Spent(l, trace, i, w)
    ensures !Allowed(l, trace, i, false)
  {
    GrantedUnswept(l, trace, trace[i].ip, trace[w].at, trace[w].at + l.window, w, i);
  }

  lemma DeniedIsSpent(l: Limits, trace: seq<Event>, i: nat) returns (w: nat)
    requires l.window > 0 && l.capacity > 0 && Nondecreasing(trace) && i < |trace| && trace[i].Query?
    requires !Allowed(l, trace, i, false)
    ensures Spent(l, trace, i, w)
  {
    w := WindowOpened(l, trace, trace[i].ip, i);
    GrantedUnswept(l, trace, trace[i].ip, trace[w].at, trace[w].at + l.window, w, i);
  }

  /** A query is denied exactly when its address has an open window that is spent. */
  lemma DeniedIffWindowSpent(l: Limits, trace: seq<Event>, i: nat)
    requires l.window > 0 && l.capacity > 0 && Nondecreasing(trace) && i < |trace| && trace[i].Query?
    ensures !Allowed(l, trace, i, true) <==> exists w: nat :: Spent(l, trace, i, w)
  {
    SweepTransparent(l, trace, i);
    if !Allowed(l, trace, i, false) {
      var w := DeniedIsSpent(l, trace, i);
    }
    forall w: nat | Spent(l, trace, i, w) ensures !Allowed(l, trace, i, false) {
      SpentIsDenied(l, trace, i, w);
    }
  }

  // ------------------------------------------------------------------ the limiter

  lemma AfterSnoc(l: Limits, trace: seq<Event>, e: Event)
    ensures After(l, map[], trace + [e], true) == Step(l, After(l, map[], trace, true), e, true)
  {
    assert (trace + [e])[..|trace|] == trace;
  }

  class RateLimiter {
    const limits: Limits
    var buckets: Buckets
    var ops: nat
    /** What the bucket map has seen so far. */
    ghost var history: seq<Event>

    ghost predicate Valid()
      reads this
    {
      ops < U64_SIZE && buckets == After(limits, map[], history, true)
    }

    constructor (limits: Limits)
      ensures Valid() && this.limits == limits && history == [] && ops == 0
    {
      this.limits, buckets, ops, history := limits, map[], 0, [];
    }

    /** One check at clock reading `now`: a query, followed by a sweep on every 1024th call. */
    method Check(ip: Ip, now: int) returns (allowed: bool)
      requires Valid()
      modifies this
      ensures Valid()
      ensures limits.capacity == 0 ==> allowed && history == old(history) && ops == old(ops)
      ensures limits.capacity > 0 ==>
                && history == old(history) + [Query(ip, now)] +
                     (if old(ops) % 1024 == 0 then [Sweep(now)] else [])
                && allowed == Allowed(limits, history, |old(history)|, true)
                && ops == (if old(ops) == 0xffff_ffff_ffff_ffff then 0 else old(ops) + 1)
    {
      if limits.capacity == 0 { return true; }
      ghost var h := history;
      allowed := TakeToken(ip, now);
      AfterSnoc(limits, h, Query(ip, now));
      history := h + [Query(ip, now)];
      MaybeSweep(now);
      assert history[..|h|] == h;
    }

    method TakeToken(ip: Ip, now: int) returns (allowed: bool)
      requires limits.capacity > 0
      modifies this`buckets
      ensures buckets == Touched(limits, old(buckets), ip, now)
      ensures allowed == Grants(limits, old(buckets), ip, now)
    {
      if ip !in buckets {
        buckets := buckets[ip := Bucket(limits.capacity, now + limits.window)];
      }
      var entry := buckets[ip];
      if now >= entry.refillAt {
        entry := Bucket(limits.capacity, now + limits.window);
      }
      if entry.tokens == 0 {
        allowed := false;
      } else {
        entry := entry.(tokens := entry.tokens - 1);
        allowed := true;
      }
      buckets := buckets[ip := entry];
    }

    method MaybeSweep(now: int)
      requires Valid()
      modifies this
      ensures Valid()
      ensures ops == (if old(ops) == 0xffff_ffff_ffff_ffff then 0 else old(ops) + 1)
      ensures history == old(history) + if old(ops) % 1024 == 0 then [Sweep(now)] else []
    {
      var prev := ops;
      ops := (ops + 1) % U64_SIZE;
      if prev % SWEEP_INTERVAL != 0 { return; }
      AfterSnoc(limits, history, Sweep(now));
      buckets := Swept(buckets, now);
      history := history + [Sweep(now)];
    }
  }
}
