/**
 * The peer store: the peer table with a hand-maintained index by attempt time.
 * Every writer is proved to leave an index that a rebuild from the table would give,
 * and to change the table exactly as the plain-map transactions of `Peers` do.
 */
module Store {
  import opened Common
  import opened Net
  import opened Index
  import opened Peers
  import opened PeerFilter
  import opened Summaries

  /** The index holds one entry per record, under its attempt time, and nothing else. */
  ghost predicate IndexExact(p: Table, idx: set<Entry>) {
    forall e: Entry :: e in idx <==> HasRecord(p, e.key) && p[e.key].rec.lastAttemptMs == e.attempt
  }

  function Committed(log: seq<Commit>, faults: seq<bool>): seq<Commit>
    requires |log| == |faults|
  {
    if log == [] then [] else
      var n := |log| - 1;
      var init := Committed(log[..n], faults[..n]);
      if faults[n] then init else init + [log[n]]
  }

  // ------------------------------------------------------- steps of the batch loop

  lemma IndexAfterInsert(p: Table, idx: set<Entry>, k: NetAddress, rec: PeerRecord)
    requires IndexExact(p, idx) && !HasRecord(p, k)
    ensures IndexExact(p[k := Good(rec)], idx + {Entry(rec.lastAttemptMs, k)})
  {
  }

  lemma IndexAfterRefresh(p: Table, idx: set<Entry>, k: NetAddress, rec: PeerRecord)
    requires IndexExact(p, idx) && HasRecord(p, k) && p[k].rec.lastAttemptMs == rec.lastAttemptMs
    ensures IndexExact(p[k := Good(rec)], idx)
  {
  }

  lemma IndexAfterRemove(p: Table, idx: set<Entry>, e: Entry)
    requires IndexExact(p, idx) && (e.key in p ==> e in idx)
    ensures IndexExact(p - {e.key}, idx - {e})
  {
  }

  lemma StillIndexed(p: Table, idx: set<Entry>, gone: set<NetAddress>, x: set<Entry>, e: Entry)
    requires IndexExact(p, idx) && IndexExact(p - gone, x) && e in idx
    ensures e.key in p - gone ==> e in x
  {
  }

  lemma PrunedIsRemoval(p: Table, cutoff: I64)
    ensures p - (p.Keys - Pruned(p, cutoff).Keys) == Pruned(p, cutoff)
  {
  }

  /** One address of a batch, as the loop handles it, extends what the batch means by that address. */
  lemma SeenStep(p: Table, done: set<NetAddress>, a: NetAddress, now: I64)
    requires AllDecode(p, done)
    ensures var t := Seen(p, done, now);
            && (HasRecord(t, a) ==>
                  && AllDecode(p, done + {a})
                  && t[a := Good(t[a].rec.(lastSeenMs := now))] == Seen(p, done + {a}, now)
                  && done + {a} - p.Keys == done - p.Keys)
            && (a !in t ==>
                  && AllDecode(p, done + {a})
                  && t[a := Good(SeenStub(a, now))] == Seen(p, done + {a}, now)
                  && done + {a} - p.Keys == done - p.Keys + {a} && a !in done)
            && (a in t && !HasRecord(t, a) ==> !AllDecode(p, {a}))
  {
    var t := Seen(p, done, now);
    if HasRecord(t, a) || a !in t {
      SeenOneMore(p, done, a, now);
    }
  }

  /** The view of an open write transaction, and how many rows it inserted or removed. */
  datatype Txn = Txn(peers: Table, attempts: set<Entry>, changed: nat)

  /** The transaction has seeded exactly `done`. */
  ghost predicate Seeded(v: Txn, p: Table, done: set<NetAddress>, now: I64) {
    && AllDecode(p, done)
    && v.peers == Seen(p, done, now)
    && IndexExact(v.peers, v.attempts)
    && v.changed == |done - p.Keys|
  }

  method SeenOneTxn(v: Txn, addr: NetAddress, now: I64, ghost p: Table, ghost done: set<NetAddress>)
    returns (r: Result<Txn>)
    requires Seeded(v, p, done, now)
    ensures r.Ok? <==> AllDecode(p, done + {addr})
    ensures r.Ok? ==> Seeded(r.value, p, done + {addr}, now)
  {
    SeenStep(p, done, addr, now);
    if addr in v.peers {
      if v.peers[addr].Corrupt? { return Err(Decode); }
      var rec := v.peers[addr].rec.(lastSeenMs := now);
      IndexAfterRefresh(v.peers, v.attempts, addr, rec);
      return Ok(v.(peers := v.peers[addr := Good(rec)]));
    } else {
      var rec := SeenStub(addr, now);
      IndexAfterInsert(v.peers, v.attempts, addr, rec);
      return Ok(Txn(v.peers[addr := Good(rec)], v.attempts + {Entry(0, addr)}, v.changed + 1));
    }
  }

  lemma NothingSeeded(p: Table, idx: set<Entry>, now: I64)
    requires IndexExact(p, idx)
    ensures Seeded(Txn(p, idx, 0), p, {}, now)
  {
    assert Seen(p, {}, now) == p;
  }

  lemma PrefixDecodes(p: Table, addrs: seq<NetAddress>, i: nat)
    requires i <= |addrs| && !AllDecode(p, SetOf(addrs[..i]))
    ensures !AllDecode(p, SetOf(addrs))
  {
    assert SetOf(addrs[..i]) <= SetOf(addrs);
  }

  method SeenTxn(p: Table, idx: set<Entry>, addrs: seq<NetAddress>, now: I64) returns (r: Result<Txn>)
    requires IndexExact(p, idx)
    ensures r.Ok? <==> AllDecode(p, SetOf(addrs))
    ensures r.Ok? ==> Seeded(r.value, p, SetOf(addrs), now)
  {
    r := Ok(Txn(p, idx, 0));
    NothingSeeded(p, idx, now);
    ghost var done: set<NetAddress> := {};
    for i := 0 to |addrs|
      invariant r.Ok? && Seeded(r.value, p, done, now)
      invariant done == SetOf(addrs[..i])
    {
      SetOfSnoc(addrs, i);
      r := SeenOneTxn(r.value, addrs[i], now, p, done);
      done := done + {addrs[i]};
      if r.Err? {
        PrefixDecodes(p, addrs, i + 1);
        return;
      }
    }
    assert addrs[..|addrs|] == addrs;
  }

  function DeadKeys(p: Table, cutoff: I64): set<NetAddress> {
    set k | k in p && p[k].Good? && IsDead(p[k].rec, cutoff)
  }

  lemma DeadArePruned(p: Table, cutoff: I64)
    ensures DeadKeys(p, cutoff) == p.Keys - Pruned(p, cutoff).Keys
  {
  }

  /** The scan of a prune: the index entries of the dead rows, each once. */
  method FindDead(p: Table, idx: set<Entry>, cutoff: I64) returns (dead: seq<Entry>)
    requires IndexExact(p, idx)
    ensures |dead| == |p.Keys - Pruned(p, cutoff).Keys|
    ensures SetOf(Keys(dead)) == p.Keys - Pruned(p, cutoff).Keys
    ensures forall i :: 0 <= i < |dead| ==> dead[i] in idx
  {
    dead := [];
    var rest := p.Keys;
    while rest != {}
      invariant rest <= p.Keys
      invariant DeadFound(dead, p, idx, cutoff, rest)
    {
      var k :| k in rest;
      if p[k].Good? && IsDead(p[k].rec, cutoff) {
        DeadStep(dead, p, idx, cutoff, rest, k);
        dead := dead + [Entry(p[k].rec.lastAttemptMs, k)];
      }
      rest := rest - {k};
    }
    DistinctSize(Keys(dead));
    DeadArePruned(p, cutoff);
  }

  /** The scan has gone through all rows but `rest`. */
  ghost predicate DeadFound(dead: seq<Entry>, p: Table, idx: set<Entry>, cutoff: I64, rest: set<NetAddress>) {
    && Distinct(Keys(dead))
    && SetOf(Keys(dead)) == DeadKeys(p, cutoff) - rest
    && (forall i :: 0 <= i < |dead| ==> dead[i] in idx)
  }

  lemma DeadStep(dead: seq<Entry>, p: Table, idx: set<Entry>, cutoff: I64, rest: set<NetAddress>, k: NetAddress)
    requires IndexExact(p, idx) && DeadFound(dead, p, idx, cutoff, rest) && k in rest && k in DeadKeys(p, cutoff)
    ensures DeadFound(dead + [Entry(p[k].rec.lastAttemptMs, k)], p, idx, cutoff, rest - {k})
  {
    assert k !in SetOf(Keys(dead));
    KeysSnoc(dead, Entry(p[k].rec.lastAttemptMs, k));
  }

  /** The removals of a prune, row and index entry together. */
  method RemoveAll(p: Table, idx: set<Entry>, dead: seq<Entry>) returns (t: Table, x: set<Entry>)
    requires IndexExact(p, idx)
    requires forall i :: 0 <= i < |dead| ==> dead[i] in idx
    ensures IndexExact(t, x)
    ensures t == p - SetOf(Keys(dead))
  {
    t, x := p, idx;
    ghost var ks, gone: set<NetAddress> := Keys(dead), {};
    for i := 0 to |dead|
      invariant gone == SetOf(ks[..i])
      invariant t == p - gone
      invariant IndexExact(t, x)
    {
      SetOfSnoc(ks, i);
      StillIndexed(p, idx, gone, x, dead[i]);
      IndexAfterRemove(t, x, dead[i]);
      t, x := t - {dead[i].key}, x - {dead[i]};
      gone := gone + {ks[i]};
    }
    assert ks[..|dead|] == ks;
  }

  method PruneTxn(p: Table, idx: set<Entry>, cutoff: I64) returns (r: Txn)
    requires IndexExact(p, idx)
    ensures IndexExact(r.peers, r.attempts)
    ensures r.peers == Pruned(p, cutoff)
    ensures r.changed == |p.Keys - Pruned(p, cutoff).Keys|
  {
    var dead := FindDead(p, idx, cutoff);
    var t, x := RemoveAll(p, idx, dead);
    PrunedIsRemoval(p, cutoff);
    return Txn(t, x, |dead|);
  }

  ghost function Keys(es: seq<Entry>): (ks: seq<NetAddress>)
    ensures |ks| == |es|
    ensures forall i :: 0 <= i < |es| ==> ks[i] == es[i].key
  {
    seq(|es|, i requires 0 <= i < |es| => es[i].key)
  }

  lemma KeysSnoc(es: seq<Entry>, e: Entry)
    requires Distinct(Keys(es)) && e.key !in Keys(es)
    ensures Distinct(Keys(es + [e]))
    ensures SetOf(Keys(es + [e])) == SetOf(Keys(es)) + {e.key}
  {
    assert Keys(es + [e]) == Keys(es) + [e.key];
    SetOfConcat(Keys(es), [e.key]);
  }

  // --------------------------------------------------------- steps of the due scan

  /** Midway through the index: of the due entries `es`, the `found` ones are out and the others ahead. */
  ghost predicate Scanned(p: Table, es: set<Entry>, rest: set<Entry>, found: set<Entry>, out: seq<PeerRecord>) {
    && found <= es <= found + rest
    && AllBefore(found, rest)
    && (forall e :: e in es ==> HasRecord(p, e.key))
    && Backed(p, Ordered(found)) && out == Records(p, Ordered(found))
  }

  lemma ScanStart(p: Table, idx: set<Entry>, now: I64, w: Windows, cutoff: I64, rest: set<Entry>)
    requires w.Valid() && IndexExact(p, idx)
    requires rest == set e | e in idx && e.attempt <= AttemptCeiling(now, w)
    ensures Scanned(p, DueEntries(p, now, w, cutoff), rest, {}, [])
  {
    forall e | e in DueEntries(p, now, w, cutoff) ensures e in rest {
      CeilingCoversEligible(p[e.key].rec, now, w, cutoff);
    }
  }

  lemma ScanTake(p: Table, es: set<Entry>, rest: set<Entry>, found: set<Entry>, out: seq<PeerRecord>, e: Entry)
    requires Scanned(p, es, rest, found, out) && IsFirst(e, rest) && e in es
    ensures Scanned(p, es, rest - {e}, found + {e}, out + [p[e.key].rec])
  {
    OrderedConcat(found, {e});
    OrderedSingle(e);
    RecordsSnoc(p, Ordered(found), e);
    assert AllBefore(found + {e}, rest - {e});
  }

  lemma RecordsSnoc(p: Table, es: seq<Entry>, e: Entry)
    requires Backed(p, es) && HasRecord(p, e.key)
    ensures Backed(p, es + [e]) && Records(p, es + [e]) == Records(p, es) + [p[e.key].rec]
  {
  }

  lemma ScanSkip(p: Table, es: set<Entry>, rest: set<Entry>, found: set<Entry>, out: seq<PeerRecord>, e: Entry)
    requires Scanned(p, es, rest, found, out) && e !in es
    ensures Scanned(p, es, rest - {e}, found, out)
  {
  }

  lemma ScanFull(p: Table, es: set<Entry>, rest: set<Entry>, found: set<Entry>, out: seq<PeerRecord>, max: nat)
    requires Scanned(p, es, rest, found, out)
    requires |out| == max || (rest == {} && |out| <= max)
    ensures Backed(p, Ordered(es)) && out == Records(p, FirstN(Ordered(es), max))
  {
    var ahead := es - found;
    assert es == found + ahead && ahead <= rest;
    FoundComeFirst(found, ahead, max);
    OrderedBacked(p, es);
  }

  lemma FoundComeFirst(found: set<Entry>, ahead: set<Entry>, max: nat)
    requires AllBefore(found, ahead)
    requires |Ordered(found)| == max || (ahead == {} && |Ordered(found)| <= max)
    ensures FirstN(Ordered(found + ahead), max) == Ordered(found)
  {
    OrderedConcat(found, ahead);
    FirstOfConcat(Ordered(found), Ordered(ahead), max);
  }

  lemma FirstOfConcat(a: seq<Entry>, b: seq<Entry>, max: nat)
    requires |a| == max || (b == [] && |a| <= max)
    ensures FirstN(a + b, max) == a
  {
  }

  /** `out` holds the records of the rows `ks`, which are the rows `sel`, each once. */
  ghost predicate IsListing(out: seq<PeerRecord>, p: Table, sel: set<NetAddress>, ks: seq<NetAddress>) {
    && |ks| == |out| && Distinct(ks) && SetOf(ks) == sel
    && forall i :: 0 <= i < |out| ==> HasRecord(p, ks[i]) && p[ks[i]].rec == out[i]
  }

  /** It answered, but not since the cutoff; or nobody has seen it, first or last, since the cutoff. */
  predicate GoneBy(rec: PeerRecord, cutoff: I64) {
    0 < rec.lastSuccessMs < cutoff || (rec.lastSeenMs < cutoff && rec.firstSeenMs < cutoff)
  }

  // ------------------------------------------------------------------ the store

  class PeerStore {
    var peers: Table
    var attempts: set<Entry>

    ghost predicate Valid()
      reads this
    {
      IndexExact(peers, attempts)
    }

    constructor Open(disk: Table, staleIndex: set<Entry>)
      ensures Valid()
      ensures peers == Decodable(disk)
      ensures forall k :: k in peers <==> k in disk && disk[k].Good?
      ensures forall k :: k in peers ==> peers[k] == disk[k]
    {
      peers, attempts := disk, staleIndex;
      new;
      Reopen();
    }

    /** Opening drops undecodable rows and rebuilds the index, whatever was there before. */
    method Reopen()
      modifies this
      ensures Valid()
      ensures peers == Decodable(old(peers))
    {
      var purged := PurgeUndecodable();
      var indexed := RebuildAttemptIndex();
    }

    method PurgeUndecodable() returns (purged: nat)
      modifies this`peers
      ensures peers == Decodable(old(peers))
      ensures purged == |old(peers).Keys - peers.Keys|
    {
      var toDelete: set<NetAddress> := {};
      var rest := peers.Keys;
      while rest != {}
        invariant rest <= peers.Keys
        invariant forall k :: k in toDelete <==> k in peers.Keys - rest && peers[k].Corrupt?
        invariant peers == old(peers)
      {
        var k :| k in rest;
        if peers[k].Corrupt? { toDelete := toDelete + {k}; }
        rest := rest - {k};
      }
      if toDelete == {} {
        assert peers == Decodable(peers);
        return 0;
      }
      peers := peers - toDelete;
      assert old(peers).Keys - peers.Keys == toDelete;
      purged := |toDelete|;
    }

    method RebuildAttemptIndex() returns (count: nat)
      modifies this`attempts
      ensures Valid()
      ensures count == |Decodable(peers)|
    {
      var idx: set<Entry> := {};
      count := 0;
      var rest := peers.Keys;
      ghost var done: Table := map[];
      while rest != {}
        invariant rest <= peers.Keys
        invariant forall e: Entry :: e in idx <==>
          e.key !in rest && HasRecord(peers, e.key) && peers[e.key].rec.lastAttemptMs == e.attempt
        invariant done == map k | k in peers && k !in rest && peers[k].Good? :: peers[k]
        invariant count == |done|
      {
        var k :| k in rest;
        rest := rest - {k};
        if peers[k].Good? {
          idx := idx + {Entry(peers[k].rec.lastAttemptMs, k)};
          count := count + 1;
          done := done[k := peers[k]];
        }
      }
      assert done == Decodable(peers);
      attempts := idx;
    }

    method Upsert(rec: PeerRecord, fault: bool) returns (r: Result<()>)
      requires Valid()
      modifies this
      ensures Valid()
      ensures r == if fault then Err(Storage) else Ok(())
      ensures peers == if fault then old(peers) else Upserted(old(peers), rec)
      ensures !fault ==> rec.address in peers && peers[rec.address] == Good(rec)
      ensures !fault ==> SameOutside(old(peers), peers, {rec.address})
    {
      var key, t, idx := rec.address, peers, attempts;
      if key in t && t[key].Good? && t[key].rec.lastAttemptMs != rec.lastAttemptMs {
        idx := idx - {Entry(t[key].rec.lastAttemptMs, key)};
      }
      t := t[key := Good(rec)];
      idx := idx + {Entry(rec.lastAttemptMs, key)};
      if fault { return Err(Storage); }
      peers, attempts := t, idx;
      return Ok(());
    }

    method Get(addr: NetAddress, fault: bool) returns (r: Result<Option<PeerRecord>>)
      ensures r.Ok? <==> !fault && (addr in peers ==> HasRecord(peers, addr))
      ensures r.Ok? ==> r.value == if addr in peers then Some(peers[addr].rec) else None
    {
      if fault { return Err(Storage); }
      if addr !in peers { return Ok(None); }
      match peers[addr]
      case Good(rec) => return Ok(Some(rec));
      case Corrupt => return Err(Decode);
    }

    method Delete(addr: NetAddress, fault: bool) returns (r: Result<bool>)
      requires Valid()
      modifies this
      ensures Valid()
      ensures r == if fault then Err(Storage) else Ok(addr in old(peers))
      ensures peers == if fault then old(peers) else Deleted(old(peers), addr)
      ensures !fault ==> addr !in peers && SameOutside(old(peers), peers, {addr})
      ensures !fault ==> forall e :: e in attempts ==> e.key != addr
    {
      var t, idx := peers, attempts;
      var removed := false;
      if addr in t {
        if t[addr].Good? { idx := idx - {Entry(t[addr].rec.lastAttemptMs, addr)}; }
        removed := true;
      }
      t := t - {addr};
      if fault { return Err(Storage); }
      peers, attempts := t, idx;
      return Ok(removed);
    }

    method RecordAttempt(addr: NetAddress, now: I64, fault: bool) returns (r: Result<PeerRecord>)
      requires Valid()
      modifies this
      ensures Valid()
      ensures r.Ok? <==> !fault && (addr in old(peers) ==> HasRecord(old(peers), addr))
      ensures peers == if r.Ok? then Attempted(old(peers), addr, now) else old(peers)
      ensures r.Ok? ==> HasRecord(peers, addr) && r.value == peers[addr].rec
      ensures r.Ok? && addr in old(peers) ==> r.value == old(peers)[addr].rec.(lastAttemptMs := now)
      ensures r.Ok? && addr !in old(peers) ==> IsNew(r.value, addr, 0, now, now)
      ensures SameOutside(old(peers), peers, {addr})
    {
      var t, idx := peers, attempts;
      var rec: PeerRecord;
      var oldAttempt: Option<I64>;
      if addr in t {
        if t[addr].Corrupt? { return Err(Decode); }
        rec := t[addr].rec;
        oldAttempt := Some(rec.lastAttemptMs);
      } else {
        rec := AttemptStub(addr, now);
        oldAttempt := None;
      }
      rec := rec.(lastAttemptMs := now);
      t := t[addr := Good(rec)];
      if oldAttempt.Some? && oldAttempt.value != now {
        idx := idx - {Entry(oldAttempt.value, addr)};
      }
      idx := idx + {Entry(now, addr)};
      if fault { return Err(Storage); }
      peers, attempts := t, idx;
      return Ok(rec);
    }

    method SeenBatch(addrs: seq<NetAddress>, now: I64, fault: bool) returns (r: Result<nat>)
      requires Valid()
      modifies this
      ensures Valid()
      ensures r.Err? <==> addrs != [] && (fault || !AllDecode(old(peers), SetOf(addrs)))
      ensures peers == if r.Ok? then Seen(old(peers), SetOf(addrs), now) else old(peers)
      ensures r.Ok? ==> r.value == |SetOf(addrs) - old(peers).Keys|
      ensures SameOutside(old(peers), peers, SetOf(addrs))
      ensures r.Ok? ==> forall a :: a in addrs ==> HasRecord(peers, a)
      ensures r.Ok? ==> forall a :: a in addrs && a !in old(peers) ==> IsNew(peers[a].rec, a, now, 0, now)
      ensures r.Ok? ==> forall a :: a in addrs && a in old(peers) ==>
                peers[a].rec == old(peers)[a].rec.(lastSeenMs := now)
    {
      if addrs == [] {
        assert Seen(peers, {}, now) == peers;
        return Ok(0);
      }
      var txn := SeenTxn(peers, attempts, addrs, now);
      if txn.Err? { return Err(txn.error); }
      if fault { return Err(Storage); }
      SeenMeans(peers, SetOf(addrs), now);
      assert forall a :: a in addrs ==> a in SetOf(addrs);
      peers, attempts := txn.value.peers, txn.value.attempts;
      return Ok(txn.value.changed);
    }

    method PruneDead(cutoff: I64, fault: bool) returns (r: Result<nat>)
      requires Valid()
      modifies this
      ensures Valid()
      ensures peers == if fault then old(peers) else Pruned(old(peers), cutoff)
      ensures r == if fault then Err(Storage) else Ok(|old(peers).Keys - peers.Keys|)
      ensures forall k :: k in peers ==> k in old(peers) && peers[k] == old(peers)[k]
      ensures !fault ==> forall k :: k in old(peers) ==>
                (k !in peers <==> old(peers)[k].Good? && GoneBy(old(peers)[k].rec, cutoff))
    {
      forall k { PrunedMeans(peers, cutoff, k); }
      var txn := PruneTxn(peers, attempts, cutoff);
      if fault { return Err(Storage); }
      peers, attempts := txn.peers, txn.attempts;
      return Ok(txn.changed);
    }

    /** Runs one transaction of any kind; a fault leaves the store as it was. */
    method Execute(c: Commit, fault: bool)
      requires Valid()
      modifies this
      ensures Valid()
      ensures peers == if fault then old(peers) else Apply(old(peers), c)
    {
      match c {
        case Upsert(rec) => var r := Upsert(rec, fault);
        case Delete(a) => var r := Delete(a, fault);
        case Attempt(a, now) => var r := RecordAttempt(a, now, fault);
        case SeenBatch(addrs, now) =>
          assert addrs == [] ==> Seen(peers, {}, now) == peers;
          var r := SeenBatch(addrs, now, fault);
        case Prune(cutoff) => var r := PruneDead(cutoff, fault);
        case Reopen => if !fault { Reopen(); }
      }
    }

    /** Whatever commits and aborts, in whatever order, the index stays exact and the table is the plain map's. */
    method Replay(log: seq<Commit>, faults: seq<bool>)
      requires Valid() && |log| == |faults|
      modifies this
      ensures Valid()
      ensures peers == ApplyAll(old(peers), Committed(log, faults))
    {
      for i := 0 to |log|
        invariant Valid()
        invariant peers == ApplyAll(old(peers), Committed(log[..i], faults[..i]))
      {
        ghost var init := Committed(log[..i], faults[..i]);
        Execute(log[i], faults[i]);
        assert log[..i + 1][..i] == log[..i] && faults[..i + 1][..i] == faults[..i];
        assert (init + [log[i]])[..|init|] == init;
      }
      assert log[..|log|] == log && faults[..|log|] == faults;
    }

    /** The bounded index scan finds exactly the due list of a full table scan. */
    method DueForProbe(now: I64, w: Windows, cutoff: I64, max: nat, fault: bool) returns (r: Result<seq<PeerRecord>>)
      requires Valid() && w.Valid()
      ensures r == if fault && max > 0 then Err(Storage) else Ok(Due(peers, now, w, cutoff, max))
      ensures r.Ok? && KeyedByAddress(peers) ==>
                && (forall i, j :: 0 <= i < j < |r.value| ==> r.value[i].lastAttemptMs <= r.value[j].lastAttemptMs)
                && (forall k, i ::
                      k in DueSet(peers, now, w, cutoff) && k !in Addresses(r.value) && 0 <= i < |r.value| ==>
                      r.value[i].lastAttemptMs <= peers[k].rec.lastAttemptMs)
    {
      if KeyedByAddress(peers) { DueOldestFirst(peers, now, w, cutoff, max); }
      if max == 0 { return Ok([]); }
      if fault { return Err(Storage); }
      var out := ScanDue(now, w, cutoff, max);
      return Ok(out);
    }

    method ScanDue(now: I64, w: Windows, cutoff: I64, max: nat) returns (out: seq<PeerRecord>)
      requires Valid() && w.Valid() && max > 0
      ensures out == Due(peers, now, w, cutoff, max)
    {
      out := [];
      var ceiling := AttemptCeiling(now, w);
      var rest := set e | e in attempts && e.attempt <= ceiling;
      ghost var es, found: set<Entry> := DueEntries(peers, now, w, cutoff), {};
      ScanStart(peers, attempts, now, w, cutoff, rest);
      while rest != {}
        invariant rest <= attempts
        invariant Scanned(peers, es, rest, found, out) && |out| < max
      {
        FirstExists(rest);
        var e :| IsFirst(e, rest);
        var rec := peers[e.key].rec;
        if IsEligible(rec, now, w, cutoff) {
          ScanTake(peers, es, rest, found, out, e);
          found := found + {e};
          out := out + [rec];
          if |out| >= max {
            ScanFull(peers, es, rest - {e}, found, out, max);
            return;
          }
        } else {
          ScanSkip(peers, es, rest, found, out, e);
        }
        rest := rest - {e};
      }
      ScanFull(peers, es, rest, found, out, max);
    }

    /** The matching records, each once. */
    method CollectMatching(f: Filter, fault: bool) returns (r: Result<seq<PeerRecord>>)
      requires AllComparable(f, peers)
      ensures fault ==> r == Err(Storage)
      ensures !fault ==> r.Ok? && exists ks :: IsListing(r.value, peers, Selected(peers, f), ks)
    {
      if fault { return Err(Storage); }
      var out: seq<PeerRecord> := [];
      ghost var ks: seq<NetAddress> := [];
      var rest := peers.Keys;
      while rest != {}
        invariant rest <= peers.Keys
        invariant IsListing(out, peers, Selected(peers, f) - rest, ks)
      {
        var k :| k in rest;
        rest := rest - {k};
        if peers[k].Good? && Matches(f, peers[k].rec) {
          assert forall i :: 0 <= i < |ks| ==> ks[i] in SetOf(ks);
          SetOfConcat(ks, [k]);
          out, ks := out + [peers[k].rec], ks + [k];
        }
      }
      assert Selected(peers, f) - rest == Selected(peers, f);
      return Ok(out);
    }

    method Summarize(now: I64, staleGood: I64, v: Option<Filter>, fault: bool) returns (r: Result<Summary>)
      requires 0 <= staleGood
      ensures fault ==> r == Err(Storage)
      ensures !fault ==> r.Ok? && Summarizes(r.value, peers, peers.Keys, now, staleGood, v)
      ensures !fault ==>
                var n := Count(peers, peers.Keys, FreshRec(now, staleGood));
                r.value.avgSuccessAgeMs == if n > 0 then AgeSum(peers, peers.Keys, now, staleGood) / n else 0
      ensures !fault ==> r.value.avgSuccessAgeMs <= staleGood
    {
      if fault { return Err(Storage); }
      var t := Tally(Summary(0, 0, 0, 0, 0, 0, 0, 0, 0), 0, 0);
      var rest := peers.Keys;
      ghost var done: set<NetAddress> := {};
      EmptyTally(peers, now, staleGood, v);
      while rest != {}
        invariant rest <= peers.Keys && done == peers.Keys - rest
        invariant Tallied(t, peers, done, now, staleGood, v)
      {
        var k :| k in rest;
        AddStep(t, peers, done, k, now, staleGood, v);
        t := Add(t, peers[k], now, staleGood, v);
        rest := rest - {k};
        done := done + {k};
      }
      assert done == peers.Keys;
      FinishTally(t, peers, done, now, staleGood, v);
      return Ok(Finish(t));
    }
  }

  /** Every commit keeps each record filed under its own address. */
  lemma {:induction false} KeyedByAddressAlways(p: Table, log: seq<Commit>)
    requires KeyedByAddress(p)
    ensures KeyedByAddress(ApplyAll(p, log))
  {
    if log != [] {
      KeyedByAddressAlways(p, log[..|log| - 1]);
    }
  }
}
