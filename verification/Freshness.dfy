/** The freshest peers of a selection: sort by last success, newest first, and cut. */
module Freshness {
  import opened Common
  import opened Net
  import opened Peers

  ghost predicate NewestFirst(s: seq<PeerRecord>) {
    forall i, j :: 0 <= i < j < |s| ==> s[i].lastSuccessMs >= s[j].lastSuccessMs
  }

  /** Every record of `s` is the table's record for its own address. */
  ghost predicate FromTable(s: seq<PeerRecord>, p: Table) {
    forall i :: 0 <= i < |s| ==> HasRecord(p, s[i].address) && p[s[i].address].rec == s[i]
  }

  /** `s` lists the records of `keys`, each once. */
  ghost predicate Lists(s: seq<PeerRecord>, p: Table, keys: set<NetAddress>) {
    Distinct(Addresses(s)) && SetOf(Addresses(s)) == keys && FromTable(s, p)
  }

  /** The `cap` freshest records of `keys`: nothing left out is strictly fresher than anything kept. */
  ghost predicate FreshestOf(out: seq<PeerRecord>, p: Table, keys: set<NetAddress>, cap: nat) {
    && Distinct(Addresses(out)) && SetOf(Addresses(out)) <= keys && FromTable(out, p)
    && NewestFirst(out)
    && |out| == (if cap <= |keys| then cap else |keys|)
    && forall k, i :: k in keys && k !in SetOf(Addresses(out)) && 0 <= i < |out| ==>
         HasRecord(p, k) && p[k].rec.lastSuccessMs <= out[i].lastSuccessMs
  }

  lemma AddressesSnoc(s: seq<PeerRecord>, r: PeerRecord)
    ensures Addresses(s + [r]) == Addresses(s) + [r.address]
  {
  }

  lemma AddressesTake(s: seq<PeerRecord>, n: nat)
    requires n <= |s|
    ensures Addresses(s[..n]) == Addresses(s)[..n]
  {
  }

  /** Rows filed under their own addresses, each once, list those addresses. */
  lemma RowsList(s: seq<PeerRecord>, ks: seq<NetAddress>, p: Table)
    requires KeyedByAddress(p) && |ks| == |s| && Distinct(ks)
    requires forall i :: 0 <= i < |s| ==> HasRecord(p, ks[i]) && p[ks[i]].rec == s[i]
    ensures Lists(s, p, SetOf(ks))
  {
    assert Addresses(s) == ks;
  }

  /** Where a record of this age goes in a list that is newest first. */
  method Position(s: seq<PeerRecord>, at: I64) returns (k: nat)
    requires NewestFirst(s)
    ensures k <= |s|
    ensures forall i :: 0 <= i < k ==> s[i].lastSuccessMs >= at
    ensures forall i :: k <= i < |s| ==> s[i].lastSuccessMs < at
  {
    k := 0;
    while k < |s| && s[k].lastSuccessMs >= at
      invariant k <= |s|
      invariant forall i :: 0 <= i < k ==> s[i].lastSuccessMs >= at
    {
      k := k + 1;
    }
  }

  lemma InsertedLists(s: seq<PeerRecord>, k: nat, r: PeerRecord, p: Table, keys: set<NetAddress>)
    requires k <= |s| && Lists(s, p, keys) && r.address !in keys && HasRecord(p, r.address) && p[r.address].rec == r
    ensures Lists(s[..k] + [r] + s[k..], p, keys + {r.address})
  {
    var a := Addresses(s);
    assert Addresses(s[..k] + [r] + s[k..]) == a[..k] + [r.address] + a[k..];
    assert r.address !in a by {
      assert r.address !in SetOf(a);
    }
    InsertDistinct(a, k, r.address);
  }

  /** Sorting keeps the selection and orders it; equally fresh peers may come in any order. */
  method SortNewestFirst(s: seq<PeerRecord>, ghost p: Table) returns (r: seq<PeerRecord>)
    requires Distinct(Addresses(s)) && FromTable(s, p)
    ensures NewestFirst(r)
    ensures Lists(r, p, SetOf(Addresses(s)))
  {
    r := [];
    for n := 0 to |s|
      invariant NewestFirst(r)
      invariant Lists(r, p, SetOf(Addresses(s[..n])))
    {
      ghost var keys := SetOf(Addresses(s[..n]));
      StepKeys(s, n);
      var k := Position(r, s[n].lastSuccessMs);
      InsertedLists(r, k, s[n], p, keys);
      r := r[..k] + [s[n]] + r[k..];
    }
    assert s[..|s|] == s;
  }

  lemma StepKeys(s: seq<PeerRecord>, n: nat)
    requires n < |s| && Distinct(Addresses(s))
    ensures SetOf(Addresses(s[..n + 1])) == SetOf(Addresses(s[..n])) + {s[n].address}
    ensures s[n].address !in SetOf(Addresses(s[..n]))
  {
    assert s[..n + 1] == s[..n] + [s[n]];
    AddressesSnoc(s[..n], s[n]);
    SetOfConcat(Addresses(s[..n]), [s[n].address]);
    AddressesTake(s, n);
    assert Addresses(s)[n] == s[n].address;
  }

  /** Sort, then truncate. */
  method TopFreshest(s: seq<PeerRecord>, cap: nat, ghost p: Table, ghost keys: set<NetAddress>)
    returns (out: seq<PeerRecord>)
    requires Lists(s, p, keys)
    ensures FreshestOf(out, p, keys, cap)
  {
    out := SortNewestFirst(s, p);
    DistinctSize(Addresses(out));
    if |out| > cap {
      TruncatedFreshest(out, cap, p, keys);
      out := out[..cap];
    }
  }

  lemma TruncatedFreshest(s: seq<PeerRecord>, cap: nat, p: Table, keys: set<NetAddress>)
    requires Lists(s, p, keys) && NewestFirst(s) && |s| == |keys| && cap < |s|
    ensures FreshestOf(s[..cap], p, keys, cap)
  {
    AddressesTake(s, cap);
    var a := Addresses(s);
    forall k, i | k in keys && k !in SetOf(Addresses(s[..cap])) && 0 <= i < cap
      ensures HasRecord(p, k) && p[k].rec.lastSuccessMs <= s[..cap][i].lastSuccessMs
    {
      assert forall x :: 0 <= x < cap ==> a[..cap][x] in SetOf(a[..cap]) && a[..cap][x] == a[x];
      var j :| 0 <= j < |a| && a[j] == k;
      assert cap <= j;
    }
  }
}
