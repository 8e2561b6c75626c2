/**
 * Wheel file names, scripts/generate_pages.py: the pattern `WHEEL_RE`, matched
 * at the start of a name with `.match`, and `parse_wheel_info`, which turns a
 * match into a record of strings.
 *
 * The pattern, piece by piece:
 *   flash_attn-  base `\d+\.\d+\.\d+`  +  date `\d{8}`  +cu  cuda `\d+\.\d+`
 *   torch  torch `\d+\.\d+\.\d+`  cxx11abi  abi `TRUE|FALSE`  +g  `[a-f0-9]+`
 *   -cp  py `\d{2}`  -  then `.*linux.*\.whl`, with no end anchor.
 */
module Wheels {
  import opened Wrappers
  import opened Text
  import opened Scan

  const Prefix: string := "flash_attn-"

  // ---------------------------------------------------------------------------
  // The captures up to the interpreter tag
  // ---------------------------------------------------------------------------

  /** What the pattern captures before `-cp`, plus the uncaptured commit hash. */
  datatype Front = Front(base: seq<string>, date: string, cuda: seq<string>, torch: seq<string>,
                         abi: string, hash: string)

  predicate FrontValid(f: Front) {
    && IsVersion(f.base, 3)
    && |f.date| == 8 && IsDigits(f.date)
    && IsVersion(f.cuda, 2)
    && IsVersion(f.torch, 3)
    && (f.abi == "TRUE" || f.abi == "FALSE")
    && IsRun(f.hash, LowerHex)
  }

  /** The text the front pieces of the pattern consume, followed by `rest`. */
  function RenderFront(f: Front, rest: string): string {
    Prefix + BaseDateText(f.base, f.date, CudaTorchText(f.cuda, f.torch, BuildText(f.abi, f.hash, rest)))
  }

  function BaseDateText(base: seq<string>, date: string, rest: string): string {
    Join(base, '.') + "+" + (date + "+cu" + rest)
  }

  function CudaTorchText(cuda: seq<string>, torch: seq<string>, rest: string): string {
    Join(cuda, '.') + "torch" + (Join(torch, '.') + "cxx11abi" + rest)
  }

  function BuildText(abi: string, hash: string, rest: string): string {
    abi + "+g" + (hash + "-cp" + rest)
  }

  /** `(TRUE|FALSE)\+g`: the alternative taken and the text after `+g`. */
  function AbiThen(s: string): (r: Option<(string, string)>)
    ensures r.Some? ==> (r.value.0 == "TRUE" || r.value.0 == "FALSE") && s == r.value.0 + "+g" + r.value.1
  {
    if StartsWith(s, "TRUE+g") then
      assert s == "TRUE" + "+g" + s[6..] by { assert s == s[..6] + s[6..]; }
      Some(("TRUE", s[6..]))
    else if StartsWith(s, "FALSE+g") then
      assert s == "FALSE" + "+g" + s[7..] by { assert s == s[..7] + s[7..]; }
      Some(("FALSE", s[7..]))
    else None
  }

  lemma AbiThenOf(abi: string, rest: string)
    requires abi == "TRUE" || abi == "FALSE"
    ensures AbiThen(abi + "+g" + rest) == Some((abi, rest))
  {
    var s := abi + "+g" + rest;
    if abi == "TRUE" {
      assert s[..6] == "TRUE+g" && s[6..] == rest;
    } else {
      assert s[..6] != "TRUE+g" by { assert s[0] == 'F'; }
      assert s[..7] == "FALSE+g" && s[7..] == rest;
    }
  }

  /** `(?P<base>\d+\.\d+\.\d+)\+(?P<date>\d{8})\+cu`. */
  function MatchBaseDate(s: string): (r: Option<(seq<string>, string, string)>)
    ensures r.Some? ==> && IsVersion(r.value.0, 3) && |r.value.1| == 8 && IsDigits(r.value.1)
                        && BaseDateText(r.value.0, r.value.1, r.value.2) == s
  {
    match VersionThen(s, 3, "+")
    case None => None
    case Some((base, s1)) =>
      match FixedThen(s1, 8, "+cu")
      case None => None
      case Some((date, s2)) => Some((base, date, s2))
  }

  lemma MatchBaseDateOf(base: seq<string>, date: string, rest: string)
    requires IsVersion(base, 3) && |date| == 8 && IsDigits(date)
    ensures MatchBaseDate(BaseDateText(base, date, rest)) == Some((base, date, rest))
  {
    VersionThenOf(base, "+", date + "+cu" + rest);
    FixedThenOf(date, "+cu", rest);
  }

  /** `(?P<cuda>\d+\.\d+)torch(?P<torch>\d+\.\d+\.\d+)cxx11abi`. */
  function MatchCudaTorch(s: string): (r: Option<(seq<string>, seq<string>, string)>)
    ensures r.Some? ==> && IsVersion(r.value.0, 2) && IsVersion(r.value.1, 3)
                        && CudaTorchText(r.value.0, r.value.1, r.value.2) == s
  {
    match VersionThen(s, 2, "torch")
    case None => None
    case Some((cuda, s1)) =>
      match VersionThen(s1, 3, "cxx11abi")
      case None => None
      case Some((torch, s2)) => Some((cuda, torch, s2))
  }

  lemma MatchCudaTorchOf(cuda: seq<string>, torch: seq<string>, rest: string)
    requires IsVersion(cuda, 2) && IsVersion(torch, 3)
    ensures MatchCudaTorch(CudaTorchText(cuda, torch, rest)) == Some((cuda, torch, rest))
  {
    VersionThenOf(cuda, "torch", Join(torch, '.') + "cxx11abi" + rest);
    VersionThenOf(torch, "cxx11abi", rest);
  }

  /** `(?P<abi>TRUE|FALSE)\+g[a-f0-9]+-cp`: the ABI flag, the commit hash and the text after `-cp`. */
  function MatchBuild(s: string): (r: Option<(string, string, string)>)
    ensures r.Some? ==> && (r.value.0 == "TRUE" || r.value.0 == "FALSE") && IsRun(r.value.1, LowerHex)
                        && BuildText(r.value.0, r.value.1, r.value.2) == s
  {
    match AbiThen(s)
    case None => None
    case Some((abi, s1)) =>
      match RunThen(s1, LowerHex, "-cp")
      case None => None
      case Some((hash, s2)) => Some((abi, hash, s2))
  }

  lemma MatchBuildOf(abi: string, hash: string, rest: string)
    requires (abi == "TRUE" || abi == "FALSE") && IsRun(hash, LowerHex)
    ensures MatchBuild(BuildText(abi, hash, rest)) == Some((abi, hash, rest))
  {
    AbiThenOf(abi, hash + "-cp" + rest);
    RunThenOf(hash, LowerHex, "-cp", rest);
  }

  /** The pattern from its start through `-cp`: the front captures and the text after `-cp`. */
  function MatchFront(s: string): (r: Option<(Front, string)>)
    ensures r.Some? ==> FrontValid(r.value.0) && RenderFront(r.value.0, r.value.1) == s
  {
    if !StartsWith(s, Prefix) then None
    else
      assert s == Prefix + s[|Prefix|..];
      match MatchBaseDate(s[|Prefix|..])
      case None => None
      case Some((base, date, s1)) =>
        match MatchCudaTorch(s1)
        case None => None
        case Some((cuda, torch, s2)) =>
          match MatchBuild(s2)
          case None => None
          case Some((abi, hash, s3)) => Some((Front(base, date, cuda, torch, abi, hash), s3))
  }

  /** Every front of the pattern's form is matched, with its own captures and remainder. */
  lemma MatchFrontOf(f: Front, rest: string)
    requires FrontValid(f)
    ensures MatchFront(RenderFront(f, rest)) == Some((f, rest))
  {
    var s2 := BuildText(f.abi, f.hash, rest);
    var s1 := CudaTorchText(f.cuda, f.torch, s2);
    var s0 := BaseDateText(f.base, f.date, s1);
    var s := RenderFront(f, rest);
    assert s[..|Prefix|] == Prefix && s[|Prefix|..] == s0;
    MatchBaseDateOf(f.base, f.date, s1);
    MatchCudaTorchOf(f.cuda, f.torch, s2);
    MatchBuildOf(f.abi, f.hash, rest);
  }

  // ---------------------------------------------------------------------------
  // The whole pattern
  // ---------------------------------------------------------------------------

  /**
   * `.*linux.*\.whl` at the start of `tail`: some `linux` ends before some
   * `.whl` starts, and no newline comes before that `.whl` (`.` stops at newlines).
   */
  predicate TailMatches(tail: string) {
    exists i, j | 0 <= i && i + 5 <= j <= |tail| ::
      && OccursAt(tail, i, "linux")
      && OccursAt(tail, j, ".whl")
      && '\n' !in tail[..j]
  }

  /** `tail` reads `a`, `linux`, `b`, `.whl`, `c`, with no newline before the `.whl`. */
  predicate TailSplit(tail: string, a: string, b: string, c: string) {
    tail == a + "linux" + b + ".whl" + c && '\n' !in a + "linux" + b
  }

  /**
   * The tail matches exactly when it reads some text, `linux`, some more text
   * and `.whl`, with no newline before that `.whl`; whatever follows is ignored.
   */
  lemma TailMatchesIff(tail: string)
    ensures TailMatches(tail) <==> exists a, b, c :: TailSplit(tail, a, b, c)
  {
    if TailMatches(tail) {
      var i, j :| 0 <= i && i + 5 <= j <= |tail| && OccursAt(tail, i, "linux") && OccursAt(tail, j, ".whl")
                  && '\n' !in tail[..j];
      TailSplitAt(tail, i, j);
    }
    if exists a, b, c :: TailSplit(tail, a, b, c) {
      var a, b, c :| TailSplit(tail, a, b, c);
      TailMatchesOf(tail, a, b, c);
    }
  }

  lemma TailSplitAt(tail: string, i: int, j: int)
    requires 0 <= i && i + 5 <= j <= |tail| && OccursAt(tail, i, "linux") && OccursAt(tail, j, ".whl")
    requires '\n' !in tail[..j]
    ensures TailSplit(tail, tail[..i], tail[i + 5..j], tail[j + 4..])
  {
    assert tail[..j] == tail[..i] + "linux" + tail[i + 5..j];
    assert tail == tail[..j] + ".whl" + tail[j + 4..];
  }

  lemma TailMatchesOf(tail: string, a: string, b: string, c: string)
    requires TailSplit(tail, a, b, c)
    ensures TailMatches(tail)
  {
    var i, j := |a|, |a| + 5 + |b|;
    assert tail[i..i + 5] == "linux";
    assert tail[j..j + 4] == ".whl";
    assert tail[..j] == a + "linux" + b;
    assert OccursAt(tail, i, "linux") && OccursAt(tail, j, ".whl");
  }

  /** `lit` occurs in `s` starting at index `i`. */
  predicate OccursAt(s: string, i: int, lit: string) {
    0 <= i && i + |lit| <= |s| && s[i..i + |lit|] == lit
  }

  /** A successful match: the front, the two interpreter digits, and everything after `-cpXY-`. */
  datatype WheelMatch = WheelMatch(front: Front, py: string, tail: string)

  predicate ValidMatch(w: WheelMatch) {
    FrontValid(w.front) && |w.py| == 2 && IsDigits(w.py) && TailMatches(w.tail)
  }

  /** The one file name that yields this match. */
  function Render(w: WheelMatch): string {
    RenderFront(w.front, w.py + "-" + w.tail)
  }

  /** `WHEEL_RE.match(filename)`. */
  function MatchWheel(s: string): (r: Option<WheelMatch>)
    ensures r.Some? ==> ValidMatch(r.value) && Render(r.value) == s
  {
    match MatchFront(s)
    case None => None
    case Some((f, rest)) =>
      match FixedThen(rest, 2, "-")
      case None => None
      case Some((py, tail)) =>
        if TailMatches(tail) then Some(WheelMatch(f, py, tail)) else None
  }

  /** Every name of the pattern's form is matched, with its own captures. */
  lemma MatchWheelOf(w: WheelMatch)
    requires ValidMatch(w)
    ensures MatchWheel(Render(w)) == Some(w)
  {
    MatchFrontOf(w.front, w.py + "-" + w.tail);
    FixedThenOf(w.py, "-", w.tail);
  }

  /** The match fails exactly on the names that do not have the pattern's form. */
  lemma MatchWheelNone(s: string)
    ensures MatchWheel(s).None? <==> !exists w :: ValidMatch(w) && Render(w) == s
  {
    if exists w :: ValidMatch(w) && Render(w) == s {
      var w :| ValidMatch(w) && Render(w) == s;
      MatchWheelOf(w);
    }
  }

  /** The pattern has no end anchor: text after a matching name leaves the captures as they were. */
  lemma TrailingTextIgnored(w: WheelMatch, extra: string)
    requires ValidMatch(w)
    ensures MatchWheel(Render(w) + extra) == Some(WheelMatch(w.front, w.py, w.tail + extra))
  {
    var w' := WheelMatch(w.front, w.py, w.tail + extra);
    var i, j :| 0 <= i && i + 5 <= j
      && OccursAt(w.tail, i, "linux") && OccursAt(w.tail, j, ".whl") && '\n' !in w.tail[..j];
    var t := w.tail + extra;
    OccursAtAppend(w.tail, i, "linux", extra);
    OccursAtAppend(w.tail, j, ".whl", extra);
    assert t[..j] == w.tail[..j];
    RenderFrontAppend(w.front, w.py + "-" + w.tail, extra);
    assert w.py + "-" + w.tail + extra == w.py + "-" + t;
    MatchWheelOf(w');
  }

  lemma OccursAtAppend(s: string, i: int, lit: string, extra: string)
    requires OccursAt(s, i, lit)
    ensures OccursAt(s + extra, i, lit)
  {
    assert (s + extra)[i..i + |lit|] == s[i..i + |lit|];
  }

  lemma RenderFrontAppend(f: Front, rest: string, extra: string)
    ensures RenderFront(f, rest) + extra == RenderFront(f, rest + extra)
  {
  }

  /**
   * `py` is `\d{2}` followed by `-`: a three-digit interpreter tag such as
   * `-cp310-` is never matched.
   */
  lemma LongPythonTagRejected(f: Front, py: string, tail: string)
    requires FrontValid(f) && |py| >= 3 && IsDigits(py)
    ensures MatchWheel(RenderFront(f, py + "-" + tail)) == None
  {
    var rest := py + "-" + tail;
    MatchFrontOf(f, rest);
    assert rest[2] == py[2];
    FixedThenDigitNext(rest, 2, "-");
  }

  /** A name with no `linux` after its `-cpXY-` is never matched. */
  lemma LinuxRequired(f: Front, py: string, tail: string)
    requires FrontValid(f) && |py| == 2 && IsDigits(py)
    requires forall i :: !OccursAt(tail, i, "linux")
    ensures MatchWheel(RenderFront(f, py + "-" + tail)) == None
  {
    MatchFrontOf(f, py + "-" + tail);
    FixedThenOf(py, "-", tail);
  }

  // ---------------------------------------------------------------------------
  // `parse_wheel_info`
  // ---------------------------------------------------------------------------

  /** The keys of the record `parse_wheel_info` returns. */
  const InfoKeys: set<string> :=
    {"filename", "base_version", "build_date", "cuda_version", "torch_version", "cxx11_abi", "python_version"}

  /** The record built from a match: the captures as strings, `py` written `X.Y`. */
  function InfoOf(filename: string, w: WheelMatch): (info: map<string, string>)
    requires |w.py| == 2
    ensures info.Keys == InfoKeys
  {
    map["filename" := filename,
        "base_version" := Join(w.front.base, '.'),
        "build_date" := w.front.date,
        "cuda_version" := Join(w.front.cuda, '.'),
        "torch_version" := Join(w.front.torch, '.'),
        "cxx11_abi" := w.front.abi,
        "python_version" := [w.py[0]] + "." + w.py[1..]]
  }

  /** `parse_wheel_info(filename)`: the record, or `None` when the pattern does not match. */
  function ParseWheelInfo(filename: string): (r: Option<map<string, string>>)
    ensures r.Some? ==> r.value.Keys == InfoKeys
  {
    match MatchWheel(filename)
    case None => None
    case Some(w) => Some(InfoOf(filename, w))
  }

  /** The record has no `version` key: it is not one of the seven keys the record sets. */
  lemma NoVersionKey()
    ensures "version" !in InfoKeys
  {
  }

  /** `parse_wheel_info` returns nothing exactly when the name does not have the pattern's form. */
  lemma ParseWheelInfoNone(filename: string)
    ensures ParseWheelInfo(filename).None? <==> !exists w :: ValidMatch(w) && Render(w) == filename
  {
    MatchWheelNone(filename);
  }

  /** A name of the pattern's form yields the record of its own captures. */
  lemma ParseWheelInfoOf(w: WheelMatch)
    requires ValidMatch(w)
    ensures ParseWheelInfo(Render(w)) == Some(InfoOf(Render(w), w))
  {
    MatchWheelOf(w);
  }

  lemma DigitsHaveNoDot(parts: seq<string>, n: nat)
    requires IsVersion(parts, n)
    ensures forall i :: 0 <= i < |parts| ==> '.' !in parts[i]
  {
    forall i | 0 <= i < |parts| ensures '.' !in parts[i] {
      assert IsDigits(parts[i]);
    }
  }

  /**
   * The shapes of the fields of a parsed record: the file name unchanged, an
   * eight-digit date, versions of three, two and three digit runs, a `TRUE` or
   * `FALSE` flag, and a Python version of one digit, a dot and one digit.
   */
  lemma InfoFields(filename: string)
    requires ParseWheelInfo(filename).Some?
    ensures FieldShapes(ParseWheelInfo(filename).value, filename)
  {
    var w := MatchWheel(filename).value;
    InfoOfFields(filename, w);
  }

  ghost predicate FieldShapes(info: map<string, string>, filename: string) {
    && InfoKeys <= info.Keys
    && info["filename"] == filename
    && IsVersion(Split(info["base_version"], '.'), 3)
    && |info["build_date"]| == 8 && IsDigits(info["build_date"])
    && IsVersion(Split(info["cuda_version"], '.'), 2)
    && IsVersion(Split(info["torch_version"], '.'), 3)
    && (info["cxx11_abi"] == "TRUE" || info["cxx11_abi"] == "FALSE")
    && |info["python_version"]| == 3 && info["python_version"][1] == '.'
    && IsDigit(info["python_version"][0]) && IsDigit(info["python_version"][2])
  }

  lemma InfoOfFields(filename: string, w: WheelMatch)
    requires ValidMatch(w)
    ensures FieldShapes(InfoOf(filename, w), filename)
  {
    VersionReadsBack(w.front.base, 3);
    VersionReadsBack(w.front.cuda, 2);
    VersionReadsBack(w.front.torch, 3);
  }

  /** A captured dotted version splits back into its digit runs. */
  lemma VersionReadsBack(parts: seq<string>, n: nat)
    requires n > 0 && IsVersion(parts, n)
    ensures IsVersion(Split(Join(parts, '.'), '.'), n)
  {
    DigitsHaveNoDot(parts, n);
    SplitJoin(parts, '.');
  }
}
