/** Entries of the attempt index and the order in which a range scan meets them. */
module Index {
  import opened Common
  import opened Net

  datatype Entry = Entry(attempt: I64, key: NetAddress)

  /** Index order: attempt time first, then the encoded key. */
  predicate Before(a: Entry, b: Entry) {
    a.attempt < b.attempt || (a.attempt == b.attempt && LexLess(EncodeKey(a.key), EncodeKey(b.key)))
  }

  /** Older attempts come first; equal ones by the bytes of their keys. */
  lemma BeforeMeans(a: Entry, b: Entry)
    ensures a.attempt < b.attempt ==> Before(a, b) && !Before(b, a)
    ensures a.attempt == b.attempt ==>
              (Before(a, b) <==> exists k: nat :: LessAt(EncodeKey(a.key), EncodeKey(b.key), k))
  {
    LexLessMeans(EncodeKey(a.key), EncodeKey(b.key));
  }

  lemma BeforeTransitive(a: Entry, b: Entry, c: Entry)
    requires Before(a, b) && Before(b, c)
    ensures Before(a, c)
  {
    if a.attempt == b.attempt == c.attempt {
      LexTransitive(EncodeKey(a.key), EncodeKey(b.key), EncodeKey(c.key));
    }
  }

  lemma BeforeTotal(a: Entry, b: Entry)
    ensures a == b || Before(a, b) || Before(b, a)
  {
    LexTotal(EncodeKey(a.key), EncodeKey(b.key));
    if EncodeKey(a.key) == EncodeKey(b.key) { EncodeKeyInjective(a.key, b.key); }
  }

  lemma BeforeAsymmetric(a: Entry, b: Entry)
    requires Before(a, b)
    ensures !Before(b, a) && a != b
  {
    LexIrreflexive(EncodeKey(a.key));
    if Before(b, a) {
      BeforeTransitive(a, b, a);
      assert false;
    }
  }

  predicate IsFirst(e: Entry, s: set<Entry>) {
    e in s && forall x :: x in s && x != e ==> Before(e, x)
  }

  lemma {:induction false} FirstExists(s: set<Entry>)
    requires s != {}
    ensures exists e :: IsFirst(e, s)
  {
    var x :| x in s;
    if s == {x} {
      assert IsFirst(x, s);
    } else {
      FirstExists(s - {x});
      var e :| IsFirst(e, s - {x});
      BeforeTotal(x, e);
      if Before(x, e) {
        forall y | y in s && y != x ensures Before(x, y) {
          if y != e { BeforeTransitive(x, e, y); }
        }
        assert IsFirst(x, s);
      } else {
        assert IsFirst(e, s);
      }
    }
  }

  ghost predicate Ascending(r: seq<Entry>) {
    forall i, j :: 0 <= i < j < |r| ==> Before(r[i], r[j])
  }

  /** The members of `s` in index order. */
  ghost function Ordered(s: set<Entry>): (r: seq<Entry>)
    ensures Ascending(r)
    ensures SetOf(r) == s
    ensures |r| == |s|
  {
    if s == {} then [] else
      FirstExists(s);
      var e :| IsFirst(e, s);
      var rest := Ordered(s - {e});
      ConsAscending(e, rest, s);
      [e] + rest
  }

  lemma ConsAscending(e: Entry, rest: seq<Entry>, s: set<Entry>)
    requires IsFirst(e, s) && Ascending(rest) && SetOf(rest) == s - {e}
    ensures Ascending([e] + rest) && SetOf([e] + rest) == s
  {
    SetOfConcat([e], rest);
    var r := [e] + rest;
    forall i, j | 0 <= i < j < |r| ensures Before(r[i], r[j]) {
      assert r[j] == rest[j - 1] && rest[j - 1] in SetOf(rest);
      if i > 0 { assert r[i] == rest[i - 1]; }
    }
  }

  /** Index order leaves no freedom: an ascending listing of `s` is `Ordered(s)`. */
  lemma {:induction false} AscendingIsOrdered(r: seq<Entry>, s: set<Entry>)
    requires Ascending(r) && SetOf(r) == s
    ensures r == Ordered(s)
  {
    var o := Ordered(s);
    if r == [] {
      assert s == {};
    } else {
      assert r[0] in SetOf(o);
      assert o[0] in SetOf(r);
      if r[0] != o[0] {
        assert Before(r[0], o[0]) && Before(o[0], r[0]);
        BeforeAsymmetric(r[0], o[0]);
        assert false;
      }
      TailSet(r);
      TailSet(o);
      AscendingIsOrdered(r[1..], s - {r[0]});
      AscendingIsOrdered(o[1..], s - {r[0]});
      assert r == [r[0]] + r[1..] && o == [o[0]] + o[1..];
    }
  }

  lemma TailSet(r: seq<Entry>)
    requires Ascending(r) && r != []
    ensures SetOf(r[1..]) == SetOf(r) - {r[0]}
    ensures Ascending(r[1..])
  {
    forall i | 0 < i < |r| ensures r[i] != r[0] && r[i] in r[1..] {
      BeforeAsymmetric(r[0], r[i]);
      assert r[i] == r[1..][i - 1];
    }
  }

  ghost predicate AllBefore(a: set<Entry>, b: set<Entry>) {
    forall x, y :: x in a && y in b ==> Before(x, y)
  }

  /** Listing a lower part and then an upper part lists the whole. */
  lemma OrderedConcat(a: set<Entry>, b: set<Entry>)
    requires AllBefore(a, b)
    ensures Ordered(a + b) == Ordered(a) + Ordered(b)
  {
    var x, y := Ordered(a), Ordered(b);
    SetOfConcat(x, y);
    forall i, j | 0 <= i < j < |x + y| ensures Before((x + y)[i], (x + y)[j]) {
      if i < |x| <= j {
        assert x[i] in SetOf(x) && y[j - |x|] in SetOf(y);
      } else if |x| <= i {
        assert Before(y[i - |x|], y[j - |x|]);
      }
    }
    AscendingIsOrdered(x + y, a + b);
  }

  lemma OrderedSingle(e: Entry)
    ensures Ordered({e}) == [e]
  {
    assert SetOf([e]) == {e};
    AscendingIsOrdered([e], {e});
  }
}
