/**
 * `ver2tuple` from scripts/generate_matrix.py and the ordering Python uses
 * when it compares the resulting tuples with `>`.
 */
module Versions {
  import opened Wrappers
  import opened Text
  import opened Collections

  /** `tuple(map(int, parts))`: fails (Python's `ValueError`) when any piece is no integer. */
  function IntsOf(parts: seq<string>): (r: Option<seq<int>>)
    ensures r.Some? ==> |r.value| == |parts| && forall i :: 0 <= i < |parts| ==> PyInt(parts[i]) == Some(r.value[i])
    ensures r.None? <==> exists i :: 0 <= i < |parts| && PyInt(parts[i]).None?
  {
    Traverse(parts, PyInt)
  }

  /** One piece that `int()` cannot read makes the whole conversion fail. */
  lemma IntsOfFails(parts: seq<string>, i: nat)
    requires i < |parts| && PyInt(parts[i]) == None
    ensures IntsOf(parts) == None
  {
    TraverseFails(parts, PyInt, i);
  }

  /** `ver2tuple(v)`: the integers between the dots of `v`. */
  function VerToTuple(v: string): (r: Option<seq<int>>)
    ensures r.Some? ==> && |r.value| == |Split(v, '.')|
                        && forall i :: 0 <= i < |Split(v, '.')| ==> PyInt(Split(v, '.')[i]) == Some(r.value[i])
    ensures r.None? ==> exists i :: 0 <= i < |Split(v, '.')| && PyInt(Split(v, '.')[i]).None?
    ensures forall i :: 0 <= i < |Split(v, '.')| && PyInt(Split(v, '.')[i]).None? ==> r.None?
  {
    var parts := Split(v, '.');
    IntsOf(parts)
  }

  function ParseNats(parts: seq<string>): (ns: seq<int>)
    requires forall i :: 0 <= i < |parts| ==> IsDigits(parts[i])
    ensures |ns| == |parts|
  {
    if parts == [] then []
    else
      assert IsDigits(parts[0]);
      [ParseNat(parts[0]) as int] + ParseNats(parts[1..])
  }

  /** A version written as dot-separated digit runs converts to their decimal values. */
  lemma {:induction false} VerToTupleDigits(parts: seq<string>)
    requires |parts| > 0 && forall i :: 0 <= i < |parts| ==> IsDigits(parts[i])
    ensures VerToTuple(Join(parts, '.')) == Some(ParseNats(parts))
  {
    assert forall i :: 0 <= i < |parts| ==> '.' !in parts[i] by {
      forall i | 0 <= i < |parts| ensures '.' !in parts[i] {
        assert forall k :: 0 <= k < |parts[i]| ==> IsDigit(parts[i][k]);
      }
    }
    SplitJoin(parts, '.');
    IntsOfDigits(parts);
  }

  lemma {:induction false} IntsOfDigits(parts: seq<string>)
    requires forall i :: 0 <= i < |parts| ==> IsDigits(parts[i])
    ensures IntsOf(parts) == Some(ParseNats(parts))
  {
    if parts != [] {
      PyIntDigits(parts[0]);
      IntsOfDigits(parts[1..]);
    }
  }

  /**
   * The tuples differ first at position `k`, with `a` smaller there, or `a`
   * ends at `k` while `b` goes on.
   */
  ghost predicate DiffAt(a: seq<int>, b: seq<int>, k: nat) {
    && k <= |a| && k <= |b| && a[..k] == b[..k]
    && ((k == |a| && k < |b|) || (k < |a| && k < |b| && a[k] < b[k]))
  }

  /** The first-difference test, one element at a time. */
  lemma DiffAtStep(a: seq<int>, b: seq<int>)
    requires a != [] && b != []
    ensures (exists k: nat :: DiffAt(a, b, k)) <==> (a[0] < b[0] || (a[0] == b[0] && exists k: nat :: DiffAt(a[1..], b[1..], k)))
  {
    if k: nat :| DiffAt(a, b, k) {
      if k > 0 && a[0] == b[0] {
        assert a[1..][..k - 1] == a[..k][1..] && b[1..][..k - 1] == b[..k][1..];
        assert DiffAt(a[1..], b[1..], k - 1);
      }
    }
    if a[0] < b[0] {
      assert DiffAt(a, b, 0);
    } else if a[0] == b[0] && exists k: nat :: DiffAt(a[1..], b[1..], k) {
      var k: nat :| DiffAt(a[1..], b[1..], k);
      assert a[..k + 1] == [a[0]] + a[1..][..k] && b[..k + 1] == [b[0]] + b[1..][..k];
      assert DiffAt(a, b, k + 1);
    }
  }

  /** Python's `a < b` on tuples of integers: the first difference decides, a proper prefix is smaller. */
  predicate TupleLess(a: seq<int>, b: seq<int>)
    ensures TupleLess(a, b) <==> exists k: nat :: DiffAt(a, b, k)
  {
    if a == [] then assert b != [] ==> DiffAt(a, b, 0); b != []
    else if b == [] then false
    else DiffAtStep(a, b); a[0] < b[0] || (a[0] == b[0] && TupleLess(a[1..], b[1..]))
  }

  lemma {:induction false} TupleLessIrreflexive(a: seq<int>)
    ensures !TupleLess(a, a)
  {
    if a != [] {
      TupleLessIrreflexive(a[1..]);
    }
  }

  lemma {:induction false} TupleLessTransitive(a: seq<int>, b: seq<int>, c: seq<int>)
    requires TupleLess(a, b) && TupleLess(b, c)
    ensures TupleLess(a, c)
  {
    if a != [] && b != [] && c != [] && a[0] == b[0] == c[0] {
      TupleLessTransitive(a[1..], b[1..], c[1..]);
    }
  }

  /** Any two different tuples are ordered one way or the other. */
  lemma {:induction false} TupleLessTotal(a: seq<int>, b: seq<int>)
    requires a != b
    ensures TupleLess(a, b) || TupleLess(b, a)
  {
    if a != [] && b != [] && a[0] == b[0] {
      TupleLessTotal(a[1..], b[1..]);
    }
  }

  /**
   * `ver2tuple(a) > ver2tuple(b)`; the error names the version whose
   * conversion raised `ValueError` (`a` is converted first).
   */
  function VersionGreater(a: string, b: string): (r: Result<bool, string>)
    ensures r.Err? ==> (r.error == a && VerToTuple(a).None?)
                       || (r.error == b && VerToTuple(a).Some? && VerToTuple(b).None?)
    ensures r.Ok? ==> VerToTuple(a).Some? && VerToTuple(b).Some?
                      && (r.value <==> TupleLess(VerToTuple(b).value, VerToTuple(a).value))
  {
    match VerToTuple(a)
    case None => Err(a)
    case Some(ta) =>
      match VerToTuple(b)
      case None => Err(b)
      case Some(tb) => Ok(TupleLess(tb, ta))
  }

  /**
   * On versions written as dot-separated digit runs, `ver2tuple(a) > ver2tuple(b)`
   * compares the decimal values of the components, first difference first:
   * 12.10 is above 12.9, and 13.0 is above 12.9.
   */
  lemma VersionGreaterDigits(xs: seq<string>, ys: seq<string>)
    requires |xs| > 0 && forall i :: 0 <= i < |xs| ==> IsDigits(xs[i])
    requires |ys| > 0 && forall i :: 0 <= i < |ys| ==> IsDigits(ys[i])
    ensures VersionGreater(Join(xs, '.'), Join(ys, '.')) == Ok(TupleLess(ParseNats(ys), ParseNats(xs)))
  {
    VerToTupleDigits(xs);
    VerToTupleDigits(ys);
  }

  /** The tuple order behind the two comparisons above. */
  lemma TupleOrderExamples()
    ensures TupleLess([12, 9], [12, 10]) && !TupleLess([12, 10], [12, 9])
    ensures TupleLess([12, 9], [13, 0]) && !TupleLess([13, 0], [12, 9])
    ensures !TupleLess([12, 9], [12, 9])
  {
    assert [12, 9][1..] == [9] && [12, 10][1..] == [10];
  }

  /**
   * A component holding a character that `int()` cannot read (a letter, say)
   * makes `ver2tuple` raise, so the comparison fails.
   */
  lemma NonNumericRejected(parts: seq<string>, i: nat, k: nat, other: string)
    requires forall j :: 0 <= j < |parts| ==> '.' !in parts[j]
    requires i < |parts| && k < |parts[i]|
    requires var c := parts[i][k]; !IsDigit(c) && c !in "+-_" && !IsSpace(c)
    ensures VerToTuple(Join(parts, '.')) == None
    ensures VersionGreater(Join(parts, '.'), other) == Err(Join(parts, '.'))
  {
    SplitJoin(parts, '.');
    PyIntRejects(parts[i], k);
    IntsOfFails(parts, i);
  }
}
