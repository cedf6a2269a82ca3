/** Outcome types and the bounded integers the seeder computes with. */
module Common {

  datatype Option<+T> = None | Some(value: T)

  datatype Error = Storage | Decode

  datatype Result<+T> = Ok(value: T) | Err(error: Error)

  const I64_MIN: int := -0x8000_0000_0000_0000
  const I64_MAX: int := 0x7fff_ffff_ffff_ffff

  /** A clock reading of November 2023. */
  const NOW: int := 1_700_000_000_000

  type I64 = n: int | I64_MIN <= n <= I64_MAX

  /** `i64::saturating_sub`: the exact difference, clamped to the type. */
  function SatSub(a: I64, b: I64): (d: I64)
    ensures d == a - b || (d == I64_MAX && a - b > I64_MAX) || (d == I64_MIN && a - b < I64_MIN)
  {
    if a - b < I64_MIN then I64_MIN else if a - b > I64_MAX then I64_MAX else a - b
  }

  /** The unsaturated `i64` subtraction does not overflow, so the checked build does not abort. */
  predicate SubFits(a: I64, b: I64)
  {
    I64_MIN <= a - b <= I64_MAX
  }

  /** `duration_to_ms`: milliseconds of a duration, saturating at the top of `i64`. */
  function DurationToMs(millis: nat): (ms: I64)
    ensures 0 <= ms <= millis
    ensures ms < I64_MAX ==> ms == millis
  {
    if millis <= I64_MAX then millis else I64_MAX
  }

  function SetOf<T>(s: seq<T>): set<T> {
    set x | x in s
  }

  lemma SetOfConcat<T>(s: seq<T>, t: seq<T>)
    ensures SetOf(s + t) == SetOf(s) + SetOf(t)
  {
    forall x | x in s ensures x in s + t {
      var i :| 0 <= i < |s| && s[i] == x;
      assert (s + t)[i] == x;
    }
    forall x | x in t ensures x in s + t {
      var i :| 0 <= i < |t| && t[i] == x;
      assert (s + t)[|s| + i] == x;
    }
  }

  lemma SetOfSnoc<T>(s: seq<T>, i: nat)
    requires i < |s|
    ensures SetOf(s[..i + 1]) == SetOf(s[..i]) + {s[i]}
  {
    assert s[..i + 1] == s[..i] + [s[i]];
    SetOfConcat(s[..i], [s[i]]);
  }

  ghost predicate Distinct<T>(s: seq<T>) {
    forall i, j :: 0 <= i < j < |s| ==> s[i] != s[j]
  }

  lemma DistinctTail<T>(s: seq<T>, x: T, rest: seq<T>)
    requires Distinct(s) && |rest| < |s| && [x] + rest == s[|s| - |rest| - 1..]
    ensures x !in rest
  {
    var all := [x] + rest;
    forall j | 0 <= j < |rest| ensures rest[j] != x {
      assert all[0] == s[|s| - |rest| - 1] && all[j + 1] == s[|s| - |rest| + j];
    }
  }

  /** A sequence without repeats has as many members as positions. */
  lemma {:induction false} DistinctSize<T>(s: seq<T>)
    requires Distinct(s)
    ensures |SetOf(s)| == |s|
  {
    if s != [] {
      var init, last := s[..|s| - 1], s[|s| - 1];
      DistinctSize(init);
      assert s == init + [last];
      assert SetOf(s) == SetOf(init) + {last};
    }
  }

  lemma SubsetSize<T>(a: set<T>, b: set<T>)
    requires a <= b
    ensures |a| <= |b|
  {
    assert b == a + (b - a);
  }

  /** Inserting a new element keeps a sequence free of repeats. */
  lemma InsertDistinct<T>(a: seq<T>, k: nat, x: T)
    requires k <= |a| && Distinct(a) && x !in a
    ensures Distinct(a[..k] + [x] + a[k..])
    ensures SetOf(a[..k] + [x] + a[k..]) == SetOf(a) + {x}
  {
    var b := a[..k] + [x] + a[k..];
    assert b[..k] == a[..k] && b[k] == x && b[k + 1..] == a[k..];
    forall i, j | 0 <= i < j < |b| ensures b[i] != b[j] {
      if i < k < j {
        assert b[i] == a[i] && b[j] == a[j - 1];
      } else if k < i {
        assert b[i] == a[i - 1] && b[j] == a[j - 1];
      } else if k == i {
        assert b[j] == a[j - 1];
      }
    }
    assert a == a[..k] + a[k..];
    SetOfConcat(a[..k], a[k..]);
    SetOfConcat(a[..k], [x]);
    SetOfConcat(a[..k] + [x], a[k..]);
  }

  lemma MulMonotone(a: nat, b: nat, c: nat)
    requires a <= b
    ensures a * c <= b * c
  {
    assert (b - a) * c >= 0;
  }

  lemma OneMore(n: nat, x: nat)
    ensures (n + 1) * x == n * x + x
  {
  }
}
