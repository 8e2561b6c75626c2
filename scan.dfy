/**
 * Building blocks for the two regular expressions of the scripts, written as
 * matchers over `seq<char>`.  Every repeated class in the front of those
 * patterns is followed by a literal that starts outside the class, so there
 * the only way the regex engine can match is with the longest run, and the
 * matchers below take exactly that run.  The wheel pattern's tail,
 * `.*linux.*\.whl`, is not matched this way: its two wildcards may stop at
 * any occurrence of the literals, and `Wheels.TailMatches` states it as the
 * existence of such occurrences.
 */
module Scan {
  import opened Wrappers
  import opened Text

  /** The character classes used by the patterns: `\d` and `[a-f0-9]`. */
  datatype Class = Digit | LowerHex

  predicate In(c: char, k: Class) {
    match k
    case Digit => IsDigit(c)
    case LowerHex => IsDigit(c) || 'a' <= c <= 'f'
  }

  /** What `<class>+` matches. */
  predicate IsRun(s: string, k: Class) {
    |s| > 0 && forall i :: 0 <= i < |s| ==> In(s[i], k)
  }

  /** The length of the longest prefix of `s` inside class `k`. */
  function Span(s: string, k: Class): (n: nat)
    ensures n <= |s|
    ensures forall i :: 0 <= i < n ==> In(s[i], k)
    ensures n < |s| ==> !In(s[n], k)
  {
    if s != [] && In(s[0], k) then 1 + Span(s[1..], k) else 0
  }

  lemma {:induction false} SpanOf(d: string, k: Class, rest: string)
    requires forall i :: 0 <= i < |d| ==> In(d[i], k)
    requires rest == [] || !In(rest[0], k)
    ensures Span(d + rest, k) == |d|
  {
    if d != [] {
      assert (d + rest)[1..] == d[1..] + rest;
      SpanOf(d[1..], k, rest);
    }
  }

  /** `<class>+` followed by the literal `lit`: the run and the text after `lit`. */
  function RunThen(s: string, k: Class, lit: string): (r: Option<(string, string)>)
    requires lit != [] && !In(lit[0], k)
    ensures r.Some? ==> IsRun(r.value.0, k) && s == r.value.0 + lit + r.value.1
  {
    var n := Span(s, k);
    if n > 0 && StartsWith(s[n..], lit) then
      assert s == s[..n] + lit + s[n + |lit|..] by {
        assert s[n..] == lit + s[n + |lit|..];
      }
      Some((s[..n], s[n + |lit|..]))
    else
      None
  }

  /** `RunThen` finds every run followed by its literal. */
  lemma RunThenOf(d: string, k: Class, lit: string, rest: string)
    requires IsRun(d, k) && lit != [] && !In(lit[0], k)
    ensures RunThen(d + lit + rest, k, lit) == Some((d, rest))
  {
    var s := d + lit + rest;
    SpanOf(d, k, lit + rest);
    assert s == d + (lit + rest);
    assert s[|d|..] == lit + rest;
    assert s[..|d|] == d;
    assert s[|d| + |lit|..] == rest;
  }

  /** `\d{n}` followed by the literal `lit`: the digits and the text after `lit`. */
  function FixedThen(s: string, n: nat, lit: string): (r: Option<(string, string)>)
    ensures r.Some? ==> |r.value.0| == n && (forall i :: 0 <= i < n ==> IsDigit(r.value.0[i]))
                        && s == r.value.0 + lit + r.value.1
  {
    if n <= |s| && (forall i :: 0 <= i < n ==> IsDigit(s[i])) && StartsWith(s[n..], lit) then
      assert s == s[..n] + lit + s[n + |lit|..] by {
        assert s[n..] == lit + s[n + |lit|..];
      }
      Some((s[..n], s[n + |lit|..]))
    else
      None
  }

  lemma FixedThenOf(d: string, lit: string, rest: string)
    requires forall i :: 0 <= i < |d| ==> IsDigit(d[i])
    ensures FixedThen(d + lit + rest, |d|, lit) == Some((d, rest))
  {
    var s := d + lit + rest;
    assert s == d + (lit + rest);
    assert s[..|d|] == d;
    assert s[|d|..] == lit + rest;
    assert s[|d| + |lit|..] == rest;
  }

  /** A digit where the literal should start means no match. */
  lemma FixedThenDigitNext(s: string, n: nat, lit: string)
    requires n < |s| && IsDigit(s[n]) && lit != [] && !IsDigit(lit[0])
    ensures FixedThen(s, n, lit) == None
  {
  }

  /** What `\d+(\.\d+){n-1}` captures, as its `n` dot-separated digit runs. */
  predicate IsVersion(parts: seq<string>, n: nat) {
    |parts| == n && forall i :: 0 <= i < n ==> IsDigits(parts[i])
  }

  /**
   * `\d+(\.\d+){n-1}` followed by the literal `lit`: the digit runs and the text after `lit`.
   */
  function VersionThen(s: string, n: nat, lit: string): (r: Option<(seq<string>, string)>)
    requires n >= 1 && lit != [] && !IsDigit(lit[0])
    ensures r.Some? ==> IsVersion(r.value.0, n) && s == Join(r.value.0, '.') + lit + r.value.1
    decreases n
  {
    if n == 1 then
      match RunThen(s, Digit, lit)
      case None => None
      case Some((d, rest)) => Some(([d], rest))
    else
      match RunThen(s, Digit, ".")
      case None => None
      case Some((d, rest)) =>
        match VersionThen(rest, n - 1, lit)
        case None => None
        case Some((ps, rest')) =>
          JoinCons(d, ps, '.');
          Regroup(d, ".", Join(ps, '.'), lit, rest');
          VersionCons(d, ps, n);
          Some(([d] + ps, rest'))
  }

  lemma VersionCons(d: string, ps: seq<string>, n: nat)
    requires IsRun(d, Digit) && n >= 1 && IsVersion(ps, n - 1)
    ensures IsVersion([d] + ps, n)
  {
    forall i | 0 <= i < n
      ensures IsDigits(([d] + ps)[i])
    {
      if i > 0 {
        assert ([d] + ps)[i] == ps[i - 1];
      }
    }
  }

  /**
   * Regrouping a concatenation, kept apart from the callers so that their
   * proofs need not reason about associativity among their other facts.
   */
  lemma Regroup(d: string, sep: string, j: string, lit: string, rest: string)
    ensures d + sep + j + lit + rest == d + sep + (j + lit + rest)
  {
  }

  lemma JoinCons(d: string, ps: seq<string>, sep: char)
    requires ps != []
    ensures Join([d] + ps, sep) == d + [sep] + Join(ps, sep)
  {
    assert ([d] + ps)[1..] == ps;
  }

  /** A single digit run followed by the literal. */
  lemma VersionThenOne(parts: seq<string>, lit: string, rest: string)
    requires |parts| == 1 && IsDigits(parts[0]) && lit != [] && !IsDigit(lit[0])
    ensures VersionThen(Join(parts, '.') + lit + rest, 1, lit) == Some((parts, rest))
  {
    assert IsRun(parts[0], Digit);
    RunThenOf(parts[0], Digit, lit, rest);
    assert [parts[0]] == parts;
  }

  /** A digit run and a dot in front of a version the matcher finds. */
  lemma VersionThenMore(parts: seq<string>, lit: string, rest: string)
    requires |parts| >= 2 && IsDigits(parts[0]) && lit != [] && !IsDigit(lit[0])
    requires VersionThen(Join(parts[1..], '.') + lit + rest, |parts| - 1, lit) == Some((parts[1..], rest))
    ensures VersionThen(Join(parts, '.') + lit + rest, |parts|, lit) == Some((parts, rest))
  {
    var d := parts[0];
    Regroup(d, ".", Join(parts[1..], '.'), lit, rest);
    assert IsRun(d, Digit);
    RunThenOf(d, Digit, ".", Join(parts[1..], '.') + lit + rest);
    assert [d] + parts[1..] == parts;
  }

  /** `VersionThen` finds every dotted version followed by its literal. */
  lemma {:induction false} VersionThenOf(parts: seq<string>, lit: string, rest: string)
    requires |parts| >= 1 && IsVersion(parts, |parts|)
    requires lit != [] && !IsDigit(lit[0])
    ensures VersionThen(Join(parts, '.') + lit + rest, |parts|, lit) == Some((parts, rest))
  {
    assert IsDigits(parts[0]);
    if |parts| == 1 {
      VersionThenOne(parts, lit, rest);
    } else {
      assert IsVersion(parts[1..], |parts| - 1);
      VersionThenOf(parts[1..], lit, rest);
      VersionThenMore(parts, lit, rest);
    }
  }
}
