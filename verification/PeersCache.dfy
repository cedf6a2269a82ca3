/** The TTL cache in front of the peer list, and its use by concurrent requests. */
module PeersCache {
  import opened Common

  datatype Key = Key(all: bool, expose: bool)

  type Body = string

  datatype Entry = Entry(key: Key, body: Body, inserted: int)

  /** `duration_since` is zero for an entry dated after the reading. */
  predicate Alive(e: Entry, now: int, ttl: nat) {
    (if now >= e.inserted then now - e.inserted else 0) < ttl
  }

  function RetainAlive(es: seq<Entry>, now: int, ttl: nat): seq<Entry> {
    if es == [] then [] else (if Alive(es[0], now, ttl) then [es[0]] else []) + RetainAlive(es[1..], now, ttl)
  }

  function Without(es: seq<Entry>, key: Key): seq<Entry> {
    if es == [] then [] else (if es[0].key != key then [es[0]] else []) + Without(es[1..], key)
  }

  function Find(es: seq<Entry>, key: Key): Option<Entry> {
    if es == [] then None else if es[0].key == key then Some(es[0]) else Find(es[1..], key)
  }

  ghost predicate OnePerKey(es: seq<Entry>) {
    forall i, j :: 0 <= i < j < |es| ==> es[i].key != es[j].key
  }

  lemma {:induction false} RetainedAlive(es: seq<Entry>, now: int, ttl: nat)
    requires OnePerKey(es)
    ensures var r := RetainAlive(es, now, ttl);
            OnePerKey(r) && forall e :: e in r <==> e in es && Alive(e, now, ttl)
  {
    if es != [] {
      RetainedAlive(es[1..], now, ttl);
      var r := RetainAlive(es[1..], now, ttl);
      assert forall e :: e in es <==> e == es[0] || e in es[1..];
      forall i | 0 <= i < |r| ensures r[i].key != es[0].key {
        assert r[i] in r;
      }
    }
  }

  lemma {:induction false} WithoutKey(es: seq<Entry>, key: Key)
    requires OnePerKey(es)
    ensures var r := Without(es, key);
            OnePerKey(r) && forall e :: e in r <==> e in es && e.key != key
  {
    if es != [] {
      WithoutKey(es[1..], key);
      var r := Without(es[1..], key);
      assert forall e :: e in es <==> e == es[0] || e in es[1..];
      forall i | 0 <= i < |r| ensures r[i].key != es[0].key {
        assert r[i] in r;
      }
    }
  }

  lemma {:induction false} FindMember(es: seq<Entry>, key: Key)
    ensures Find(es, key).Some? ==> Find(es, key).value in es && Find(es, key).value.key == key
    ensures Find(es, key).None? ==> forall e :: e in es ==> e.key != key
  {
    if es != [] {
      FindMember(es[1..], key);
    }
  }

  /** After expiry a key is found exactly if it has an entry younger than `ttl`, and then it is that entry. */
  lemma HitMeans(es: seq<Entry>, key: Key, now: int, ttl: nat)
    requires OnePerKey(es)
    ensures var hit := Find(RetainAlive(es, now, ttl), key);
            && (hit.Some? ==> hit.value in es && hit.value.key == key)
            && forall e :: e in es && e.key == key && e.inserted <= now ==> (hit == Some(e) <==> now - e.inserted < ttl)
  {
    RetainedAlive(es, now, ttl);
    var kept := RetainAlive(es, now, ttl);
    FindMember(kept, key);
    forall e | e in es && e.key == key && e.inserted <= now
      ensures Find(kept, key) == Some(e) <==> now - e.inserted < ttl
    {
      if e in kept {
        var i :| 0 <= i < |es| && es[i] == e;
        var j :| 0 <= j < |es| && es[j] == Find(kept, key).value;
        assert i == j;
      }
    }
  }

  class PeersCache {
    const ttl: nat
    var entries: seq<Entry>

    constructor (ttl: nat)
      ensures this.ttl == ttl && entries == []
    {
      this.ttl, entries := ttl, [];
    }

    method Expire(now: int)
      modifies this
      ensures entries == RetainAlive(old(entries), now, ttl)
    {
      var kept: seq<Entry> := [];
      var i := 0;
      while i < |entries|
        invariant i <= |entries| && entries == old(entries)
        invariant kept + RetainAlive(entries[i..], now, ttl) == RetainAlive(entries, now, ttl)
      {
        if Alive(entries[i], now, ttl) { kept := kept + [entries[i]]; }
        assert entries[i..][1..] == entries[i + 1..];
        i := i + 1;
      }
      entries := kept;
    }

    /** Drops what has expired at `now` and returns the body stored for `key`, if one is left. */
    method Get(key: Key, now: int) returns (hit: Option<Body>)
      modifies this
      ensures entries == RetainAlive(old(entries), now, ttl)
      ensures hit == match Find(entries, key) case Some(e) => Some(e.body) case None => None
    {
      Expire(now);
      hit := None;
      var i := 0;
      while i < |entries|
        invariant i <= |entries|
        invariant Find(entries, key) == Find(entries[i..], key)
      {
        if entries[i].key == key { return Some(entries[i].body); }
        assert entries[i..][1..] == entries[i + 1..];
        i := i + 1;
      }
    }

    /** Replaces the entry of `key`. */
    method Put(key: Key, body: Body, now: int)
      modifies this
      ensures entries == Without(old(entries), key) + [Entry(key, body, now)]
    {
      var kept: seq<Entry> := [];
      var i := 0;
      while i < |entries|
        invariant i <= |entries| && entries == old(entries)
        invariant kept + Without(entries[i..], key) == Without(entries, key)
      {
        if entries[i].key != key { kept := kept + [entries[i]]; }
        assert entries[i..][1..] == entries[i + 1..];
        i := i + 1;
      }
      entries := kept + [Entry(key, body, now)];
    }
  }

  // --------------------------------------------------- requests in any interleaving

  /** What a request was answered with: a body it computed itself, or one found in the cache at `now`. */
  datatype Reply = Reply(request: nat, key: Key, body: Body, cached: bool, now: int, inserted: int)

  datatype Computation = Computation(request: nat, key: Key, body: Body)

  /**
   * The cache with its requests: those that have begun, with their keys, those computing, those
   * with a body still to be stored, every computation, every entry ever stored, and every reply.
   */
  datatype State = State(
    ttl: nat,
    clock: int,
    entries: seq<Entry>,
    begun: map<nat, Key>,
    computing: set<nat>,
    ready: map<nat, Body>,
    computed: set<Computation>,
    stored: set<Entry>,
    replies: seq<Reply>)

  /**
   * A request looks the key up with a clock reading from before it got the lock; on a miss it
   * computes, fails or succeeds, and in a later step stores the body and replies.
   */
  datatype Event =
    | Tick(to: int)
    | Lookup(request: nat, key: Key, now: int)
    | Failed(request: nat)
    | Computed(request: nat, body: Body)
    | Store(request: nat)

  function Next(s: State, e: Event): State {
    match e
    case Tick(to) => if to >= s.clock then s.(clock := to) else s
    case Lookup(r, key, now) =>
      if r in s.begun || now > s.clock then s
      else
        var kept := RetainAlive(s.entries, now, s.ttl);
        var hit := Find(kept, key);
        var t := s.(entries := kept, begun := s.begun[r := key]);
        if hit.Some?
        then t.(replies := s.replies + [Reply(r, key, hit.value.body, true, now, hit.value.inserted)])
        else t.(computing := s.computing + {r})
    case Failed(r) => s.(computing := s.computing - {r})
    case Computed(r, body) =>
      if r !in s.computing || r !in s.begun then s
      else
        s.(computing := s.computing - {r},
           ready := s.ready[r := body],
           computed := s.computed + {Computation(r, s.begun[r], body)})
    case Store(r) =>
      if r !in s.ready || r !in s.begun then s
      else
        var key, body := s.begun[r], s.ready[r];
        s.(entries := Without(s.entries, key) + [Entry(key, body, s.clock)],
           stored := s.stored + {Entry(key, body, s.clock)},
           ready := s.ready - {r},
           replies := s.replies + [Reply(r, key, body, false, s.clock, s.clock)])
  }

  function Run(s: State, run: seq<Event>): State {
    if run == [] then s else Next(Run(s, run[..|run| - 1]), run[|run| - 1])
  }

  ghost predicate ComputedFor(s: State, key: Key, body: Body) {
    exists r :: Computation(r, key, body) in s.computed
  }

  /** A request computes at most once. */
  ghost predicate OncePerRequest(cs: set<Computation>) {
    forall x, y :: x in cs && y in cs && x.request == y.request ==> x == y
  }

  ghost predicate HasComputed(s: State, r: nat) {
    exists x :: x in s.computed && x.request == r
  }

  /**
   * A reply is for the key its request asked for. It carries the body this very request
   * computed, or, from the cache, one computed for the key and stored less than `ttl` before.
   */
  ghost predicate ReplyOk(r: Reply, s: State) {
    && r.request in s.begun && s.begun[r.request] == r.key
    && (!r.cached ==> Computation(r.request, r.key, r.body) in s.computed)
    && (r.cached ==>
          && !HasComputed(s, r.request)
          && ComputedFor(s, r.key, r.body)
          && Entry(r.key, r.body, r.inserted) in s.stored && r.now - r.inserted < s.ttl)
  }

  ghost predicate EntriesOk(s: State) {
    && OnePerKey(s.entries)
    && forall e :: e in s.entries ==> e in s.stored && ComputedFor(s, e.key, e.body)
  }

  /** Where each request stands: computing, with a body to store, or answered, and only one of these. */
  ghost predicate RequestsOk(s: State) {
    && OncePerRequest(s.computed)
    && (forall x :: x in s.computed ==> x.request in s.begun && x.request !in s.computing)
    && (forall r :: r in s.computing ==> r in s.begun && r !in s.ready)
    && (forall r :: r in s.ready ==> r in s.begun && Computation(r, s.begun[r], s.ready[r]) in s.computed)
    && (forall x :: x in s.replies ==> x.request !in s.computing && x.request !in s.ready)
  }

  ghost predicate OneReplyEach(replies: seq<Reply>) {
    forall i, j :: 0 <= i < j < |replies| ==> replies[i].request != replies[j].request
  }

  ghost predicate Inv(s: State) {
    && EntriesOk(s) && RequestsOk(s) && OneReplyEach(s.replies)
    && (forall r :: r in s.replies ==> ReplyOk(r, s))
  }

  lemma RepliesStayOk(s: State, t: State)
    requires forall r :: r in s.replies ==> ReplyOk(r, s)
    requires t.ttl == s.ttl && s.stored <= t.stored && s.computed <= t.computed
    requires forall r :: r in s.begun ==> r in t.begun && t.begun[r] == s.begun[r]
    requires forall x :: x in t.computed - s.computed ==> x.request in s.computing
    requires RequestsOk(s)
    ensures forall r :: r in s.replies ==> ReplyOk(r, t)
  {
    forall r | r in s.replies ensures ReplyOk(r, t) {
      if r.cached {
        var q :| Computation(q, r.key, r.body) in s.computed;
        assert Computation(q, r.key, r.body) in t.computed;
        forall x | x in t.computed ensures x.request != r.request {
          assert x in s.computed || x.request in s.computing;
        }
      }
    }
  }

  lemma NewReply(replies: seq<Reply>, r: Reply)
    requires OneReplyEach(replies) && forall x :: x in replies ==> x.request != r.request
    ensures OneReplyEach(replies + [r])
  {
  }

  lemma LookupKeepsInv(s: State, e: Event)
    requires Inv(s) && e.Lookup?
    ensures Inv(Next(s, e))
  {
    var t := Next(s, e);
    if t != s {
      RetainedAlive(s.entries, e.now, s.ttl);
      FindMember(RetainAlive(s.entries, e.now, s.ttl), e.key);
      RepliesStayOk(s, t);
      forall x | x in t.entries ensures ComputedFor(t, x.key, x.body) {
        var q :| Computation(q, x.key, x.body) in s.computed;
        assert Computation(q, x.key, x.body) in t.computed;
      }
      if t.replies != s.replies {
        var r := t.replies[|s.replies|];
        NewReply(s.replies, r);
        assert ComputedFor(t, r.key, r.body) && ReplyOk(r, t);
      }
    }
  }

  lemma ComputedKeepsInv(s: State, e: Event)
    requires Inv(s) && e.Computed?
    ensures Inv(Next(s, e))
  {
    var t := Next(s, e);
    if t != s {
      RepliesStayOk(s, t);
      forall x | x in t.entries ensures ComputedFor(t, x.key, x.body) {
        var q :| Computation(q, x.key, x.body) in s.computed;
        assert Computation(q, x.key, x.body) in t.computed;
      }
    }
  }

  lemma StoreKeepsEntries(s: State, e: Event)
    requires Inv(s) && e.Store?
    ensures EntriesOk(Next(s, e))
  {
    var t := Next(s, e);
    if t != s {
      var key, body := s.begun[e.request], s.ready[e.request];
      WithoutKey(s.entries, key);
      var kept := Without(s.entries, key);
      forall i | 0 <= i < |kept| ensures kept[i].key != key {
        assert kept[i] in kept;
      }
      forall x | x in t.entries ensures x in t.stored && ComputedFor(t, x.key, x.body) {
        if x in kept {
          var q :| Computation(q, x.key, x.body) in s.computed;
          assert Computation(q, x.key, x.body) in t.computed;
        } else {
          assert Computation(e.request, key, body) in t.computed;
        }
      }
    }
  }

  lemma StoreKeepsInv(s: State, e: Event)
    requires Inv(s) && e.Store?
    ensures Inv(Next(s, e))
  {
    StoreKeepsEntries(s, e);
    var t := Next(s, e);
    if t != s {
      RepliesStayOk(s, t);
      NewReply(s.replies, t.replies[|s.replies|]);
    }
  }

  lemma StepKeepsInv(s: State, e: Event)
    requires Inv(s)
    ensures Inv(Next(s, e))
  {
    match e {
      case Lookup(_, _, _) => LookupKeepsInv(s, e);
      case Computed(_, _) => ComputedKeepsInv(s, e);
      case Store(_) => StoreKeepsInv(s, e);
      case _ => RepliesStayOk(s, Next(s, e));
    }
  }

  lemma {:induction false} RunKeepsInv(s: State, run: seq<Event>)
    requires Inv(s)
    ensures Inv(Run(s, run))
  {
    if run != [] {
      RunKeepsInv(s, run[..|run| - 1]);
      StepKeepsInv(Run(s, run[..|run| - 1]), run[|run| - 1]);
    }
  }

  /** The request has begun and is over without an answer. */
  ghost predicate GaveUp(s: State, r: nat) {
    r in s.begun && r !in s.computing && r !in s.ready && forall x :: x in s.replies ==> x.request != r
  }

  /** A request whose computation failed is answered with the error and never with a body. */
  lemma {:induction false} FailedNeverReplies(s: State, r: nat, run: seq<Event>)
    requires Inv(s) && r in s.computing
    ensures GaveUp(Run(Next(s, Failed(r)), run), r)
  {
    if run != [] {
      FailedNeverReplies(s, r, run[..|run| - 1]);
    }
  }

  /** A body just stored answers any new request for its key within the TTL. */
  lemma StoredIsServed(s: State, r: nat, q: nat, now: int)
    requires Inv(s) && r in s.ready && q !in s.begun && s.clock == now && s.ttl > 0
    ensures var key, body := s.begun[r], s.ready[r];
            var t := Next(Next(s, Store(r)), Lookup(q, key, now));
            |t.replies| > 0 && t.replies[|t.replies| - 1] == Reply(q, key, body, true, now, now)
  {
    var key, body := s.begun[r], s.ready[r];
    StoreKeepsInv(s, Store(r));
    var t := Next(s, Store(r));
    var e := Entry(key, body, now);
    assert t.entries[|t.entries| - 1] == e;
    HitMeans(t.entries, key, now, s.ttl);
  }

  function Empty(ttl: nat, clock: int): State {
    State(ttl, clock, [], map[], {}, map[], {}, {}, [])
  }

  function Keys(es: seq<Entry>): (ks: seq<Key>)
    ensures |ks| == |es|
    ensures forall i :: 0 <= i < |es| ==> ks[i] == es[i].key
  {
    seq(|es|, i requires 0 <= i < |es| => es[i].key)
  }

  lemma AtMostFour(es: seq<Entry>)
    requires OnePerKey(es)
    ensures |es| <= 4
  {
    var all := {Key(true, true), Key(true, false), Key(false, true), Key(false, false)};
    DistinctSize(Keys(es));
    forall k | k in SetOf(Keys(es)) ensures k in all {
      assert k == Key(true, true) || k == Key(true, false) || k == Key(false, true) || k == Key(false, false);
    }
    SubsetSize(SetOf(Keys(es)), all);
  }

  /**
   * Over every interleaving of requests: at most four entries, at most one computation and one
   * reply per request, and every reply is just computed by its own request or fresh from the cache.
   */
  lemma RepliesAreFresh(ttl: nat, clock: int, run: seq<Event>)
    ensures var s := Run(Empty(ttl, clock), run);
            && OnePerKey(s.entries) && |s.entries| <= 4
            && OncePerRequest(s.computed) && OneReplyEach(s.replies)
            && forall r :: r in s.replies ==> ReplyOk(r, s)
  {
    RunKeepsInv(Empty(ttl, clock), run);
    AtMostFour(Run(Empty(ttl, clock), run).entries);
  }
}
