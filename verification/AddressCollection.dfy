/** Collecting advertised addresses over several rounds, and how long a probe can wait. */
module AddressCollection {
  import opened Common
  import opened Net

  const MAX_ADDRESSES_RECEIVE: nat := 2500
  const PROBE_REPEAT_DELAY: nat := 250
  const LIFETIME_SLACK: nat := 15000

  /** How one round goes: the request is not sent, no answer comes in time, it is malformed, or a batch arrives. */
  datatype Round =
    | SendFailed
    | ReceiveFailed(wait: nat)
    | Malformed(wait: nat)
    | Batch(addrs: seq<NetAddress>, wait: nat)

  datatype Failure = Transport | BadBatch | TooMany | WrongNetwork

  datatype Outcome = Collected(addrs: set<NetAddress>) | Refused(why: Failure)

  function Waited(r: Round): nat {
    if r.SendFailed? then 0 else r.wait
  }

  ghost predicate InTime(script: seq<Round>, timeout: nat) {
    forall i :: 0 <= i < |script| ==> Waited(script[i]) <= timeout
  }

  /** The number of rounds before the first one that brings no batch. */
  function Leading(script: seq<Round>): (k: nat)
    ensures k <= |script|
    ensures forall i :: 0 <= i < k ==> script[i].Batch?
    ensures k < |script| ==> !script[k].Batch?
  {
    if script == [] || !script[0].Batch? then 0 else 1 + Leading(script[1..])
  }

  /** All addresses of the first `k` batches. */
  ghost function Union(script: seq<Round>, k: nat): set<NetAddress>
    requires k <= |script|
  {
    set i, a | 0 <= i < k && script[i].Batch? && a in script[i].addrs :: a
  }

  lemma UnionNext(script: seq<Round>, k: nat)
    requires k < |script| && script[k].Batch?
    ensures Union(script, k + 1) == Union(script, k) + SetOf(script[k].addrs)
  {
  }

  lemma UnionGrows(script: seq<Round>, j: nat, k: nat)
    requires j <= k <= |script|
    ensures Union(script, j) <= Union(script, k) && |Union(script, j)| <= |Union(script, k)|
  {
    SubsetSize(Union(script, j), Union(script, k));
  }

  /** What collection yields, said without the loop. */
  ghost function Expected(script: seq<Round>): Outcome {
    var k := Leading(script);
    var got := Union(script, k);
    if |got| > MAX_ADDRESSES_RECEIVE then Refused(TooMany)
    else if k == |script| then Collected(got)
    else if script[k].Malformed? then Refused(BadBatch)
    else if got == {} then Refused(Transport)
    else Collected(got)
  }

  /** Time taken by the first `k` rounds: their waits, and a quarter of a second between any two. */
  function Spent(script: seq<Round>, k: nat): nat
    requires k <= |script|
  {
    if k == 0 then 0 else
      Spent(script, k - 1) + (if k > 1 then 250 else 0) + if script[k - 1].SendFailed? then 0 else script[k - 1].wait
  }

  /** Collection ends with round `n`: it is the last, or the first without a batch, or the one that overflows. */
  ghost predicate EndsAfter(script: seq<Round>, n: nat) {
    && n <= |script|
    && (forall i :: 0 <= i < n - 1 ==> script[i].Batch?)
    && (forall i :: 0 < i < n ==> |Union(script, i)| <= 2500)
    && (n == |script| || (n > 0 && (script[n - 1].Batch? ==> |Union(script, n)| > 2500)))
  }

  /** When collection succeeds, and why it fails, by the first round that brings no batch. */
  lemma OutcomeMeans(script: seq<Round>, k: nat)
    requires k <= |script| && (forall i :: 0 <= i < k ==> script[i].Batch?) && (k < |script| ==> !script[k].Batch?)
    ensures |Union(script, k)| > 2500 ==> Expected(script) == Refused(TooMany)
    ensures |Union(script, k)| <= 2500 && k == |script| ==> Expected(script) == Collected(Union(script, k))
    ensures |Union(script, k)| <= 2500 && k < |script| && script[k].Malformed? ==> Expected(script) == Refused(BadBatch)
    ensures 1 <= |Union(script, k)| <= 2500 && k < |script| && (script[k].SendFailed? || script[k].ReceiveFailed?) ==>
              Expected(script) == Collected(Union(script, k))
    ensures |Union(script, k)| == 0 && k < |script| && (script[k].SendFailed? || script[k].ReceiveFailed?) ==>
              Expected(script) == Refused(Transport)
  {
    var l := Leading(script);
    assert l == k;
  }

  lemma {:induction false} SpentBound(script: seq<Round>, k: nat, timeout: nat)
    requires k <= |script| && InTime(script, timeout)
    ensures Spent(script, k) <= k * timeout + k * 250
  {
    if k > 0 {
      SpentBound(script, k - 1, timeout);
      OneMore(k - 1, timeout);
    }
  }

  ghost predicate Fits(script: seq<Round>, round: nat)
    requires round <= |script|
  {
    round <= Leading(script) && forall i :: 0 < i <= round ==> |Union(script, i)| <= 2500
  }

  lemma Stops(script: seq<Round>, round: nat)
    requires round < |script| && Fits(script, round)
    requires script[round].Batch? ==> |Union(script, round + 1)| > 2500
    ensures EndsAfter(script, round + 1)
    ensures script[round].Batch? ==> Expected(script) == Refused(TooMany)
  {
    if script[round].Batch? {
      UnionGrows(script, round + 1, Leading(script));
    }
  }

  /** The loop over the rounds; it ends with round `n`. */
  method CollectRounds(script: seq<Round>) returns (r: Outcome, elapsed: nat, ghost n: nat)
    ensures r == Expected(script)
    ensures EndsAfter(script, n) && elapsed == Spent(script, n)
  {
    var got: set<NetAddress> := {};
    elapsed, n := 0, 0;
    for round := 0 to |script|
      invariant Fits(script, round) && got == Union(script, round)
      invariant elapsed == Spent(script, round) && n == round
    {
      if round > 0 { elapsed := elapsed + PROBE_REPEAT_DELAY; }
      elapsed := elapsed + Waited(script[round]);
      n := round + 1;
      match script[round] {
        case SendFailed =>
          Stops(script, round);
          if got != {} { return Collected(got), elapsed, n; }
          return Refused(Transport), elapsed, n;
        case ReceiveFailed(_) =>
          Stops(script, round);
          if got != {} { return Collected(got), elapsed, n; }
          return Refused(Transport), elapsed, n;
        case Malformed(_) =>
          Stops(script, round);
          return Refused(BadBatch), elapsed, n;
        case Batch(addrs, _) =>
          UnionNext(script, round);
          got := got + SetOf(addrs);
          if |got| > MAX_ADDRESSES_RECEIVE {
            Stops(script, round);
            return Refused(TooMany), elapsed, n;
          }
      }
    }
    r := Collected(got);
  }

  /**
   * The rounds of one probe; `script` has one outcome for each. The result is the union of the
   * leading batches: a transport failure ends collection and is an error only if nothing was
   * collected yet, a malformed or overflowing batch is always one.
   */
  method CollectAddresses(script: seq<Round>, timeout: nat) returns (r: Outcome, elapsed: nat)
    requires InTime(script, timeout)
    ensures r == Expected(script)
    ensures elapsed <= |script| * timeout + |script| * 250
    ensures exists n: nat :: EndsAfter(script, n) && elapsed == Spent(script, n)
  {
    ghost var n;
    r, elapsed, n := CollectRounds(script);
    SpentBound(script, n, timeout);
    MulMonotone(n, |script|, timeout);
  }

  /** A successful collection is bounded and leaves out nothing received before it ended. */
  lemma CollectedIsUnion(script: seq<Round>)
    ensures Expected(script).Collected? ==>
              && |Expected(script).addrs| <= 2500
              && forall a :: a in Expected(script).addrs <==>
                   exists i :: 0 <= i < |script| &&
                     (forall j :: 0 <= j <= i ==> script[j].Batch?) && a in script[i].addrs
  {
    var k := Leading(script);
    forall i, a | 0 <= i < |script| && (forall j :: 0 <= j <= i ==> script[j].Batch?) && a in script[i].addrs
      ensures a in Union(script, k)
    {
      assert i < k;
    }
  }

  datatype ProbeConfig = ProbeConfig(probeTimeout: nat, probesPerPeer: nat)

  function Rounds(c: ProbeConfig): nat {
    if c.probesPerPeer == 0 then 1 else c.probesPerPeer
  }

  /** The lifetime after which the watchdog closes a probe connection. */
  function MaxConnectionLifetime(c: ProbeConfig): nat {
    c.probeTimeout * (4 + Rounds(c)) + PROBE_REPEAT_DELAY * Rounds(c) + LIFETIME_SLACK
  }

  /** How a handshake message goes: it comes after `wait`, or not in time, or is refused. */
  datatype Handshake = Handshake(wait: nat, failure: Option<Failure>)

  /** Time taken by the first `k` handshake messages. */
  function Shaken(hands: seq<Handshake>, k: nat): nat
    requires k <= |hands|
  {
    if k == 0 then 0 else Shaken(hands, k - 1) + hands[k - 1].wait
  }

  /** Four handshake waits, per round one wait and a quarter of a second, and fifteen seconds of slack. */
  lemma LifetimeMeans(c: ProbeConfig)
    ensures c.probesPerPeer > 0 ==>
              MaxConnectionLifetime(c) ==
              4 * c.probeTimeout + c.probesPerPeer * c.probeTimeout + 250 * c.probesPerPeer + 15000
    ensures c.probesPerPeer == 0 ==> MaxConnectionLifetime(c) == 5 * c.probeTimeout + 15250
  {
    Budget(c);
  }

  /**
   * The timed waits of a probe: version, verack, ready and the peer's address request, then the
   * rounds. However it ends, it has not waited longer than the lifetime less the slack.
   */
  method DoProbe(c: ProbeConfig, hands: seq<Handshake>, script: seq<Round>) returns (r: Outcome, elapsed: nat)
    requires |hands| == 4 && |script| == Rounds(c) && InTime(script, c.probeTimeout)
    requires forall i :: 0 <= i < 4 ==> hands[i].wait <= c.probeTimeout
    ensures elapsed <= MaxConnectionLifetime(c) - 15000
    ensures (forall i :: 0 <= i < 4 ==> hands[i].failure.None?) ==>
              && r == Expected(script)
              && exists n: nat :: EndsAfter(script, n) && elapsed == Shaken(hands, 4) + Spent(script, n)
    ensures forall i :: 0 <= i < 4 && hands[i].failure.Some? && (forall j :: 0 <= j < i ==> hands[j].failure.None?) ==>
              r == Refused(hands[i].failure.value) && elapsed == Shaken(hands, i + 1)
  {
    Budget(c);
    elapsed := 0;
    for i := 0 to 4
      invariant elapsed <= i * c.probeTimeout && elapsed == Shaken(hands, i)
      invariant forall j :: 0 <= j < i ==> hands[j].failure.None?
    {
      OneMore(i, c.probeTimeout);
      MulMonotone(i + 1, 4, c.probeTimeout);
      elapsed := elapsed + hands[i].wait;
      if hands[i].failure.Some? {
        return Refused(hands[i].failure.value), elapsed;
      }
    }
    var more;
    r, more := CollectAddresses(script, c.probeTimeout);
    elapsed := elapsed + more;
  }

  lemma Budget(c: ProbeConfig)
    ensures MaxConnectionLifetime(c) - LIFETIME_SLACK ==
            4 * c.probeTimeout + Rounds(c) * c.probeTimeout + Rounds(c) * PROBE_REPEAT_DELAY
  {
  }
}
