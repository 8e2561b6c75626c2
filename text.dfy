/**
 * The Python string operations the two scripts rely on, on `seq<char>`:
 * `str.strip`, `str.split`, `".".join`, `str.rsplit(sep, 1)[0]`,
 * `str.replace(c, "")`, `str.startswith`, `str.endswith`, slicing `s[:n]`,
 * `int(s)` and `str(n)`.  Digits are the ASCII digits.
 */
module Text {
  import opened Wrappers

  predicate IsDigit(c: char) { '0' <= c <= '9' }

  /** A non-empty run of digits: what `\d+` matches. */
  predicate IsDigits(s: string) {
    |s| > 0 && forall i :: 0 <= i < |s| ==> IsDigit(s[i])
  }

  function DigitValue(c: char): (d: nat)
    requires IsDigit(c)
    ensures d < 10
  {
    c as int - '0' as int
  }

  function DigitChar(d: nat): (c: char)
    requires d < 10
    ensures IsDigit(c) && DigitValue(c) == d
  {
    ('0' as int + d) as char
  }

  /** The value of a decimal digit string (leading zeros allowed, as `int()` allows them). */
  function ParseNat(s: string): nat
    requires forall i :: 0 <= i < |s| ==> IsDigit(s[i])
  {
    if s == [] then 0 else 10 * ParseNat(s[..|s| - 1]) + DigitValue(s[|s| - 1])
  }

  /** `str(n)` for a non-negative integer: the shortest decimal numeral of `n`. */
  function NatToString(n: nat): (s: string)
    ensures IsDigits(s)
    ensures s[0] == '0' ==> n == 0
  {
    if n < 10 then [DigitChar(n)] else NatToString(n / 10) + [DigitChar(n % 10)]
  }

  /** `int(str(n)) == n`. */
  lemma {:induction false} ParseNatToString(n: nat)
    ensures ParseNat(NatToString(n)) == n
  {
    if n >= 10 {
      var s := NatToString(n);
      assert s[..|s| - 1] == NatToString(n / 10);
      ParseNatToString(n / 10);
    }
  }

  /** The characters Python's `str.isspace` accepts; `strip()` and `int()` remove them. */
  predicate IsSpace(c: char) {
    || c == ' ' || c == '\t' || c == '\n' || c == '\r' || c == '\U{0B}' || c == '\U{0C}'
    || ('\U{1C}' <= c <= '\U{1F}') || c == '\U{85}' || c == '\U{A0}' || c == '\U{1680}'
    || ('\U{2000}' <= c <= '\U{200A}') || c == '\U{2028}' || c == '\U{2029}'
    || c == '\U{202F}' || c == '\U{205F}' || c == '\U{3000}'
  }

  function TrimStart(s: string): (r: string)
    ensures |r| <= |s| && r == s[|s| - |r|..]
  {
    if s != [] && IsSpace(s[0]) then TrimStart(s[1..]) else s
  }

  /** `lstrip()` removes whitespace only, and all of it. */
  lemma {:induction false} TrimStartSpaces(s: string)
    ensures var r := TrimStart(s);
      && (forall i :: 0 <= i < |s| - |r| ==> IsSpace(s[i]))
      && (r == [] || !IsSpace(r[0]))
  {
    if s != [] && IsSpace(s[0]) {
      TrimStartSpaces(s[1..]);
      var r := TrimStart(s);
      forall i | 0 < i < |s| - |r|
        ensures IsSpace(s[i])
      {
        assert s[i] == s[1..][i - 1];
      }
    }
  }

  function TrimEnd(s: string): (r: string)
    ensures |r| <= |s| && r == s[..|r|]
  {
    if s != [] && IsSpace(s[|s| - 1]) then TrimEnd(s[..|s| - 1]) else s
  }

  /** Everything `rstrip()` removes is whitespace. */
  lemma {:induction false} TrimEndRemoved(s: string)
    ensures forall i :: |TrimEnd(s)| <= i < |s| ==> IsSpace(s[i])
  {
    if s != [] && IsSpace(s[|s| - 1]) {
      TrimEndRemoved(s[..|s| - 1]);
      forall i | |TrimEnd(s)| <= i < |s| - 1
        ensures IsSpace(s[i])
      {
        assert s[i] == s[..|s| - 1][i];
      }
    }
  }

  /** `rstrip()` removes whitespace only, and all of it. */
  lemma {:induction false} TrimEndSpaces(s: string)
    ensures var r := TrimEnd(s);
      && (forall i :: |r| <= i < |s| ==> IsSpace(s[i]))
      && (r == [] || !IsSpace(r[|r| - 1]))
  {
    TrimEndRemoved(s);
    if s != [] && IsSpace(s[|s| - 1]) {
      TrimEndSpaces(s[..|s| - 1]);
    }
  }

  /** How many whitespace characters `strip()` removes from the front of `s`. */
  function StripStart(s: string): (i: nat)
    ensures i <= |s| && TrimStart(s) == s[i..]
  {
    |s| - |TrimStart(s)|
  }

  /** `s.strip()`: whitespace removed at both ends. */
  function Strip(s: string): (r: string)
  {
    TrimEnd(TrimStart(s))
  }

  /**
   * `strip()` keeps a slice of `s`: the removed ends are all whitespace and the
   * result neither starts nor ends with whitespace.
   */
  lemma {:induction false} StripShape(s: string)
    ensures var r := Strip(s);
      && StripStart(s) + |r| <= |s| && r == s[StripStart(s)..StripStart(s) + |r|]
      && (forall k :: 0 <= k < StripStart(s) ==> IsSpace(s[k]))
      && (forall k :: StripStart(s) + |r| <= k < |s| ==> IsSpace(s[k]))
      && (r == [] || (!IsSpace(r[0]) && !IsSpace(r[|r| - 1])))
  {
    TrimStartSpaces(s);
    StripTail(s);
    StripEdges(s);
  }

  /** The result of `strip()` neither starts nor ends with whitespace. */
  lemma {:induction false} StripEdges(s: string)
    ensures var r := Strip(s); r == [] || (!IsSpace(r[0]) && !IsSpace(r[|r| - 1]))
  {
    var t := TrimStart(s);
    TrimStartSpaces(s);
    TrimEndSpaces(t);
    var r := Strip(s);
    if r != [] {
      assert r[0] == t[0];
    }
  }

  /** What `strip()` removes after the result is whitespace. */
  lemma {:induction false} StripTail(s: string)
    ensures forall k :: StripStart(s) + |Strip(s)| <= k < |s| ==> IsSpace(s[k])
  {
    TrimEndRemovedIn(s, StripStart(s));
  }

  /** What `rstrip()` removes from the suffix `s[i..]` is whitespace in `s`. */
  lemma {:induction false} TrimEndRemovedIn(s: string, i: nat)
    requires i <= |s|
    ensures forall k :: i + |TrimEnd(s[i..])| <= k < |s| ==> IsSpace(s[k])
  {
    var t := s[i..];
    TrimEndRemoved(t);
    forall k | i + |TrimEnd(t)| <= k < |s|
      ensures IsSpace(s[k])
    {
      assert s[k] == t[k - i];
    }
  }

  /** A string without whitespace is its own `strip()`. */
  lemma StripNoSpace(s: string)
    requires forall k :: 0 <= k < |s| ==> !IsSpace(s[k])
    ensures Strip(s) == s
  {
    assert TrimStart(s) == s;
    assert TrimEnd(s) == s;
  }

  function StartsWith(s: string, prefix: string): bool {
    |prefix| <= |s| && s[..|prefix|] == prefix
  }

  function EndsWith(s: string, suffix: string): bool {
    |suffix| <= |s| && s[|s| - |suffix|..] == suffix
  }

  /** The slice `s[:n]`, which stops early when `s` is shorter. */
  function Take(s: string, n: nat): (r: string)
    ensures |r| == if |s| < n then |s| else n
    ensures r == s[..|r|]
  {
    if |s| < n then s else s[..n]
  }

  /** `s.split(sep)`: the pieces between occurrences of `sep`; never empty. */
  function Split(s: string, sep: char): (parts: seq<string>)
    ensures |parts| > 0
    ensures forall i :: 0 <= i < |parts| ==> sep !in parts[i]
  {
    if s == [] then [""]
    else if s[0] == sep then [""] + Split(s[1..], sep)
    else
      var rest := Split(s[1..], sep);
      [[s[0]] + rest[0]] + rest[1..]
  }

  /** The summed length of the pieces. */
  function TotalLength(parts: seq<string>): nat {
    if parts == [] then 0 else |parts[0]| + TotalLength(parts[1..])
  }

  /** `sep.join(parts)`. */
  function Join(parts: seq<string>, sep: char): (r: string)
  {
    if parts == [] then ""
    else if |parts| == 1 then parts[0]
    else parts[0] + [sep] + Join(parts[1..], sep)
  }

  /** The joined length: the pieces' lengths plus one separator between neighbours. */
  lemma {:induction false} JoinLength(parts: seq<string>, sep: char)
    requires parts != []
    ensures |Join(parts, sep)| == TotalLength(parts) + |parts| - 1
  {
    if |parts| > 1 {
      JoinLength(parts[1..], sep);
    }
  }

  /**
   * Every piece is kept whole, in order: piece `i` starts after the pieces
   * before it and one separator after each, and a separator follows every
   * piece but the last.
   */
  lemma {:induction false} JoinAt(parts: seq<string>, sep: char, i: nat)
    requires i < |parts|
    ensures var r, off := Join(parts, sep), TotalLength(parts[..i]) + i;
      && off + |parts[i]| <= |r| && r[off..off + |parts[i]|] == parts[i]
      && (i < |parts| - 1 ==> off + |parts[i]| < |r| && r[off + |parts[i]|] == sep)
  {
    if i > 0 {
      JoinAt(parts[1..], sep, i - 1);
      TotalLengthFront(parts, i);
      JoinTail(parts, sep);
      ShiftedSlice(parts[0] + [sep], Join(parts[1..], sep), TotalLength(parts[1..][..i - 1]) + i - 1, |parts[i]|);
    } else {
      assert parts[..0] == [];
      if |parts| > 1 {
        JoinTail(parts, sep);
      }
    }
  }

  /** The pieces before `i` are the first piece and the pieces of the rest before `i - 1`. */
  lemma TotalLengthFront(parts: seq<string>, i: nat)
    requires 0 < i <= |parts|
    ensures TotalLength(parts[..i]) == |parts[0]| + TotalLength(parts[1..][..i - 1])
  {
    assert parts[..i][1..] == parts[1..][..i - 1];
  }

  /** A slice of `b` read at the same offsets shifted past `a`, with the character after it. */
  lemma ShiftedSlice(a: string, b: string, lo: nat, n: nat)
    requires lo + n <= |b|
    ensures (a + b)[|a| + lo..|a| + lo + n] == b[lo..lo + n]
    ensures lo + n < |b| ==> (a + b)[|a| + lo + n] == b[lo + n]
  {
  }

  /** A join of two or more pieces is the first piece, a separator, and the join of the rest. */
  lemma JoinTail(parts: seq<string>, sep: char)
    requires |parts| > 1
    ensures Join(parts, sep) == parts[0] + [sep] + Join(parts[1..], sep)
  {
  }

  /** Splitting and joining again gives the string back. */
  lemma {:induction false} JoinSplit(s: string, sep: char)
    ensures Join(Split(s, sep), sep) == s
  {
    if s != [] {
      JoinSplit(s[1..], sep);
      if s[0] != sep {
        var rest := Split(s[1..], sep);
        if |rest| > 1 {
          assert rest == [rest[0]] + rest[1..];
        }
      }
    }
  }

  lemma {:induction false} SplitPrefix(a: string, sep: char, b: string)
    requires sep !in a
    ensures Split(a + [sep] + b, sep) == [a] + Split(b, sep)
  {
    if a != [] {
      assert (a + [sep] + b)[1..] == a[1..] + [sep] + b;
      SplitPrefix(a[1..], sep, b);
      assert [a[0]] + a[1..] == a;
    }
  }

  lemma {:induction false} SplitNoSep(a: string, sep: char)
    requires sep !in a
    ensures Split(a, sep) == [a]
  {
    if a != [] {
      SplitNoSep(a[1..], sep);
      assert [a[0]] + a[1..] == a;
    }
  }

  /** Joining pieces that do not contain the separator and splitting again gives the pieces back. */
  lemma {:induction false} SplitJoin(parts: seq<string>, sep: char)
    requires |parts| > 0
    requires forall i :: 0 <= i < |parts| ==> sep !in parts[i]
    ensures Split(Join(parts, sep), sep) == parts
  {
    if |parts| == 1 {
      SplitNoSep(parts[0], sep);
    } else {
      SplitJoin(parts[1..], sep);
      SplitPrefix(parts[0], sep, Join(parts[1..], sep));
      assert [parts[0]] + parts[1..] == parts;
    }
  }

  /** The index of the last `sep` in `s`, or -1 when there is none. */
  function LastIndexOf(s: string, sep: char): (i: int)
    ensures -1 <= i < |s|
    ensures i == -1 ==> sep !in s
    ensures i >= 0 ==> s[i] == sep && sep !in s[i + 1..]
  {
    if s == [] then -1
    else if s[|s| - 1] == sep then |s| - 1
    else
      var i := LastIndexOf(s[..|s| - 1], sep);
      assert s == s[..|s| - 1] + [s[|s| - 1]];
      assert i >= 0 ==> s[i + 1..] == s[..|s| - 1][i + 1..] + [s[|s| - 1]];
      i
  }

  /** `s.rsplit(sep, 1)[0]`: everything before the last `sep`, or all of `s` when it has none. */
  function RSplitHead(s: string, sep: char): (r: string)
    ensures |r| <= |s| && r == s[..|r|]
    ensures |r| < |s| ==> s[|r|] == sep && sep !in s[|r| + 1..]
    ensures |r| == |s| ==> sep !in s
  {
    var i := LastIndexOf(s, sep);
    if i < 0 then s else s[..i]
  }

  /** On a joined string, `rsplit(sep, 1)[0]` drops the last piece. */
  lemma {:induction false} RSplitHeadJoin(parts: seq<string>, sep: char)
    requires |parts| >= 2
    requires forall i :: 0 <= i < |parts| ==> sep !in parts[i]
    ensures RSplitHead(Join(parts, sep), sep) == Join(parts[..|parts| - 1], sep)
  {
    var s := Join(parts, sep);
    var h := Join(parts[..|parts| - 1], sep);
    var last := parts[|parts| - 1];
    JoinSnoc(parts, sep);
    assert s == h + [sep] + last;
    LastIndexOfSuffix(h, sep, last);
    assert s[..|h|] == h;
  }

  lemma {:induction false} JoinSnoc(parts: seq<string>, sep: char)
    requires |parts| >= 2
    ensures Join(parts, sep) == Join(parts[..|parts| - 1], sep) + [sep] + parts[|parts| - 1]
  {
    if |parts| > 2 {
      JoinSnoc(parts[1..], sep);
      assert parts[1..][..|parts| - 2] == parts[..|parts| - 1][1..];
    }
  }

  lemma {:induction false} LastIndexOfSuffix(h: string, sep: char, t: string)
    requires sep !in t
    ensures LastIndexOf(h + [sep] + t, sep) == |h|
  {
    if t != [] {
      var s := h + [sep] + t;
      assert s[..|s| - 1] == h + [sep] + t[..|t| - 1];
      LastIndexOfSuffix(h, sep, t[..|t| - 1]);
    }
  }

  /** `s.replace(c, "")`: `s` without any occurrence of `c`, the other characters kept in order. */
  function RemoveChar(s: string, c: char): (r: string)
    ensures c !in r
    ensures forall i :: 0 <= i < |r| ==> r[i] in s
  {
    if s == [] then ""
    else if s[0] == c then RemoveChar(s[1..], c)
    else [s[0]] + RemoveChar(s[1..], c)
  }

  /** `sep.join(parts).replace(sep, "")` concatenates the pieces. */
  lemma {:induction false} RemoveCharJoin(parts: seq<string>, sep: char)
    requires forall i :: 0 <= i < |parts| ==> sep !in parts[i]
    ensures RemoveChar(Join(parts, sep), sep) == Concat(parts)
  {
    if |parts| == 1 {
      RemoveCharAbsent(parts[0], sep);
    } else if |parts| > 1 {
      RemoveCharJoin(parts[1..], sep);
      RemoveCharAppend(parts[0] + [sep], Join(parts[1..], sep), sep);
      RemoveCharAppend(parts[0], [sep], sep);
      RemoveCharAbsent(parts[0], sep);
    }
  }

  function Concat(parts: seq<string>): string {
    if parts == [] then "" else parts[0] + Concat(parts[1..])
  }

  lemma {:induction false} RemoveCharAbsent(s: string, c: char)
    requires c !in s
    ensures RemoveChar(s, c) == s
  {
    if s != [] {
      RemoveCharAbsent(s[1..], c);
      assert [s[0]] + s[1..] == s;
    }
  }

  lemma {:induction false} RemoveCharAppend(a: string, b: string, c: char)
    ensures RemoveChar(a + b, c) == RemoveChar(a, c) + RemoveChar(b, c)
  {
    if a == [] {
      assert a + b == b;
    } else {
      var ab := a + b;
      assert ab[0] == a[0] && ab[1..] == a[1..] + b;
      RemoveCharAppend(a[1..], b, c);
      if a[0] == c {
        assert RemoveChar(ab, c) == RemoveChar(ab[1..], c);
      } else {
        assert RemoveChar(ab, c) == [a[0]] + RemoveChar(ab[1..], c);
        assert RemoveChar(a, c) == [a[0]] + RemoveChar(a[1..], c);
      }
    }
  }

  /**
   * The digits part accepted by `int()` after the sign: digits, with single
   * underscores allowed between two digits.
   */
  predicate IsIntBody(b: string) {
    && |b| > 0 && IsDigit(b[0]) && IsDigit(b[|b| - 1])
    && (forall i :: 0 <= i < |b| ==> IsDigit(b[i]) || b[i] == '_')
    && (forall i :: 0 <= i < |b| - 1 ==> b[i] == '_' ==> b[i + 1] != '_')
  }

  /**
   * `int(s)` in base 10: surrounding whitespace is ignored, an optional sign is
   * allowed; anything else makes Python raise `ValueError`, here `None`.
   */
  function PyInt(s: string): (r: Option<int>)
    ensures r.Some? ==> exists k :: 0 <= k < |s| && IsDigit(s[k])
  {
    var v := SignedInt(Strip(s));
    if v.Some? then PyIntHasDigit(s); v else v
  }

  /** The text `int()` accepts holds a digit. */
  lemma PyIntHasDigit(s: string)
    requires SignedInt(Strip(s)).Some?
    ensures exists k :: 0 <= k < |s| && IsDigit(s[k])
  {
    var t := Strip(s);
    var i := StripStart(s);
    assert t == s[i..][..|t|];
    var b: nat := if t[0] == '+' || t[0] == '-' then 1 else 0;
    assert IsDigit(t[b]);
    assert s[i + b] == t[b];
  }

  /** `int()` of text that no longer has whitespace around it. */
  function SignedInt(t: string): Option<int> {
    var signed := |t| > 0 && (t[0] == '+' || t[0] == '-');
    var body := if signed then t[1..] else t;
    if IsIntBody(body) then
      var v: int := ParseNat(RemoveChar(body, '_'));
      Some(if signed && t[0] == '-' then -v else v)
    else
      None
  }

  /** `int()` of a plain digit string is its decimal value. */
  lemma {:induction false} PyIntDigits(d: string)
    requires IsDigits(d)
    ensures PyInt(d) == Some(ParseNat(d) as int)
  {
    forall k | 0 <= k < |d|
      ensures !IsSpace(d[k])
    {
      assert IsDigit(d[k]);
    }
    StripNoSpace(d);
    SignedIntDigits(d);
  }

  lemma {:induction false} SignedIntDigits(d: string)
    requires IsDigits(d)
    ensures SignedInt(d) == Some(ParseNat(d) as int)
  {
    DigitsIntBody(d);
  }

  /** A digit run is an `int()` body without underscores and without a sign. */
  lemma {:induction false} DigitsIntBody(d: string)
    requires IsDigits(d)
    ensures IsIntBody(d) && RemoveChar(d, '_') == d && d[0] != '+' && d[0] != '-'
  {
    assert IsDigit(d[0]);
    assert '_' !in d by {
      forall i | 0 <= i < |d|
        ensures d[i] != '_'
      {
        assert IsDigit(d[i]);
      }
    }
    RemoveCharAbsent(d, '_');
  }

  /** `int()` of a string holding a character that is no digit, sign, underscore or space fails. */
  lemma PyIntRejects(s: string, k: nat)
    requires k < |s| && !IsDigit(s[k]) && s[k] !in "+-_" && !IsSpace(s[k])
    ensures PyInt(s) == None
  {
    var t := Strip(s);
    var i := StripStart(s);
    StripShape(s);
    assert i <= k < i + |t|;
    assert t[k - i] == s[k];
  }
}
