/**
 * The build-matrix script, scripts/generate_matrix.py: container tag names are
 * filtered by a strict version pattern, reduced to the highest patch per
 * `major.minor`, turned into full CUDA versions, and crossed with the requested
 * torch versions minus an exclusion table.  The fetched tag names, the two
 * requested version lists and the exclusion table are inputs.
 */
module Matrix {
  import opened Wrappers
  import opened Text
  import opened Scan
  import opened Versions
  import opened Collections

  // ---------------------------------------------------------------------------
  // The tag pattern `^(\d+)\.(\d+)\.(\d+)-devel-ubuntu22\.04$`
  // ---------------------------------------------------------------------------

  const TagSuffix: string := "-devel-ubuntu22.04"

  /**
   * The three groups of the tag pattern, and whether `$` matched just before a
   * final newline (Python's `$` also matches there).
   */
  datatype TagParts = TagParts(major: string, minor: string, patch: string, newline: bool)

  predicate ValidTag(t: TagParts) {
    IsDigits(t.major) && IsDigits(t.minor) && IsDigits(t.patch)
  }

  /** The one tag name whose match has these groups. */
  function TagName(t: TagParts): string {
    Join([t.major, t.minor, t.patch], '.') + TagSuffix + (if t.newline then "\n" else "")
  }

  /** `pattern.match(name)`: the groups when the whole name matches. */
  function ParseTag(name: string): (r: Option<TagParts>)
    ensures r.Some? ==> ValidTag(r.value) && TagName(r.value) == name
  {
    match VersionThen(name, 3, TagSuffix)
    case None => None
    case Some((ps, rest)) =>
      assert ps == [ps[0], ps[1], ps[2]];
      if rest == "" then Some(TagParts(ps[0], ps[1], ps[2], false))
      else if rest == "\n" then Some(TagParts(ps[0], ps[1], ps[2], true))
      else None
  }

  /** Every name of the pattern's form is matched, with its own groups. */
  lemma ParseTagName(t: TagParts)
    requires ValidTag(t)
    ensures ParseTag(TagName(t)) == Some(t)
  {
    var ps := [t.major, t.minor, t.patch];
    var rest: string := if t.newline then "\n" else "";
    VersionThenOf(ps, TagSuffix, rest);
  }

  /** What one tag adds to `matches`: `(f"{major}.{minor}", int(patch))`, or nothing. */
  function TagMatch(name: string): (r: Option<(string, nat)>)
    ensures r.Some? ==> exists t :: && ValidTag(t) && TagName(t) == name
                                    && r.value == (t.major + "." + t.minor, ParseNat(t.patch))
  {
    match ParseTag(name)
    case None => None
    case Some(t) => Some((t.major + "." + t.minor, ParseNat(t.patch)))
  }

  /**
   * A tag contributes iff its whole name has the pattern's form, and then it
   * contributes exactly its `major.minor` and the value of its patch.
   */
  lemma TagMatchIff(name: string)
    ensures TagMatch(name).Some? <==> exists t :: ValidTag(t) && TagName(t) == name
    ensures forall t :: ValidTag(t) && TagName(t) == name ==>
              TagMatch(name) == Some((t.major + "." + t.minor, ParseNat(t.patch)))
  {
    forall t | ValidTag(t) && TagName(t) == name
      ensures TagMatch(name) == Some((t.major + "." + t.minor, ParseNat(t.patch)))
    {
      ParseTagName(t);
    }
  }

  /** A matched `major.minor` key is a two-component version that `ver2tuple` reads. */
  lemma TagKeyIsVersion(name: string)
    requires TagMatch(name).Some?
    ensures VerToTuple(TagMatch(name).value.0).Some?
  {
    var t := ParseTag(name).value;
    PairTuple(t.major, t.minor);
  }

  /** The `matches` list: one pair per matching tag name, in tag order. */
  function MatchesOf(tags: seq<string>): seq<(string, nat)> {
    FilterMap(tags, TagMatch)
  }

  /** A pair is in `matches` exactly when some tag contributes it. */
  lemma MatchesHas(tags: seq<string>, x: (string, nat))
    ensures x in MatchesOf(tags) <==> exists i :: 0 <= i < |tags| && TagMatch(tags[i]) == Some(x)
  {
    FilterMapHas(tags, TagMatch, x);
  }

  /** The loop over the fetched tags that appends to `matches`. */
  method CollectMatches(tags: seq<string>) returns (matches: seq<(string, nat)>)
    ensures matches == MatchesOf(tags)
  {
    matches := [];
    for i := 0 to |tags|
      invariant matches == MatchesOf(tags[..i])
    {
      assert tags[..i + 1][..i] == tags[..i];
      match TagMatch(tags[i]) {
        case Some(x) => matches := matches + [x];
        case None =>
      }
    }
    assert tags[..|tags|] == tags;
  }

  // ---------------------------------------------------------------------------
  // The latest patch per `major.minor`
  // ---------------------------------------------------------------------------

  /** One iteration of the reduction: a strictly higher patch replaces the stored pair. */
  function Step(latest: map<string, (string, nat)>, m: (string, nat)): (r: map<string, (string, nat)>)
    ensures r.Keys == latest.Keys + {m.0}
    ensures r[m.0].1 >= m.1 && (m.0 in latest ==> r[m.0].1 >= latest[m.0].1)
    ensures forall k :: k in latest && k != m.0 ==> r[k] == latest[k]
  {
    if m.0 !in latest || m.1 > latest[m.0].1 then latest[m.0 := (m.0, m.1)] else latest
  }

  /** The `latest` dictionary after the loop has seen `matches` in order. */
  function LatestOf(matches: seq<(string, nat)>): (r: map<string, (string, nat)>)
    ensures forall k :: k in r ==> r[k].0 == k
  {
    if matches == [] then map[]
    else Step(LatestOf(matches[..|matches| - 1]), matches[|matches| - 1])
  }

  /** `latest` has exactly the keys of `matches`. */
  ghost predicate SameKeys(latest: map<string, (string, nat)>, matches: seq<(string, nat)>) {
    forall k :: k in latest <==> exists i :: 0 <= i < |matches| && matches[i].0 == k
  }

  /** Each stored pair is the key with a patch recorded for it. */
  ghost predicate Recorded(latest: map<string, (string, nat)>, matches: seq<(string, nat)>) {
    forall k :: k in latest ==> latest[k].0 == k && (k, latest[k].1) in matches
  }

  /** No recorded patch exceeds the stored one. */
  ghost predicate Bounded(latest: map<string, (string, nat)>, matches: seq<(string, nat)>) {
    forall i :: 0 <= i < |matches| ==> matches[i].0 in latest && matches[i].1 <= latest[matches[i].0].1
  }

  /**
   * `latest` holds one pair per key of `matches`; the pair is the key with a
   * patch recorded for it that no other recorded patch exceeds.
   */
  ghost predicate IsLatest(latest: map<string, (string, nat)>, matches: seq<(string, nat)>) {
    SameKeys(latest, matches) && Recorded(latest, matches) && Bounded(latest, matches)
  }

  /** A step adds the key of the pair it sees. */
  lemma SameKeysStep(l: map<string, (string, nat)>, before: seq<(string, nat)>, m: (string, nat))
    requires SameKeys(l, before)
    ensures SameKeys(Step(l, m), before + [m])
  {
    var matches := before + [m];
    var l' := Step(l, m);
    forall k
      ensures k in l' <==> exists i :: 0 <= i < |matches| && matches[i].0 == k
    {
      if k in l' && k != m.0 {
        var i :| 0 <= i < |before| && before[i].0 == k;
        assert matches[i].0 == k;
      }
      if k !in l' {
        forall i | 0 <= i < |matches| ensures matches[i].0 != k {
          if i < |before| { assert matches[i] == before[i]; }
        }
      }
      if k == m.0 {
        assert matches[|before|].0 == k;
      }
    }
  }

  /** A step stores either what it stored before or the pair it sees. */
  lemma RecordedStep(l: map<string, (string, nat)>, before: seq<(string, nat)>, m: (string, nat))
    requires Recorded(l, before)
    ensures Recorded(Step(l, m), before + [m])
  {
    var l' := Step(l, m);
    forall k | k in l'
      ensures l'[k].0 == k && (k, l'[k].1) in before + [m]
    {
      if k == m.0 && (m.0 !in l || m.1 > l[m.0].1) {
        assert l'[k] == m;
      } else {
        assert (k, l[k].1) in before;
      }
    }
  }

  /** A step never lowers a stored patch and stores at least the patch it sees. */
  lemma BoundedStep(l: map<string, (string, nat)>, before: seq<(string, nat)>, m: (string, nat))
    requires Bounded(l, before)
    ensures Bounded(Step(l, m), before + [m])
  {
    var matches := before + [m];
    var l' := Step(l, m);
    forall i | 0 <= i < |matches|
      ensures matches[i].0 in l' && matches[i].1 <= l'[matches[i].0].1
    {
      if i < |before| {
        assert matches[i] == before[i];
      }
    }
  }

  lemma {:induction false} LatestOfIsLatest(matches: seq<(string, nat)>)
    ensures IsLatest(LatestOf(matches), matches)
  {
    if matches != [] {
      var before := matches[..|matches| - 1];
      var m := matches[|matches| - 1];
      LatestOfIsLatest(before);
      assert matches == before + [m];
      SameKeysStep(LatestOf(before), before, m);
      RecordedStep(LatestOf(before), before, m);
      BoundedStep(LatestOf(before), before, m);
    }
  }

  /** Two dictionaries that are both "latest" for the same set of pairs have the same keys. */
  lemma SameKeysUnique(l1: map<string, (string, nat)>, m1: seq<(string, nat)>,
                       l2: map<string, (string, nat)>, m2: seq<(string, nat)>)
    requires SameKeys(l1, m1) && SameKeys(l2, m2)
    requires forall x :: x in m1 <==> x in m2
    ensures l1.Keys == l2.Keys
  {
    forall k
      ensures k in l1 <==> k in l2
    {
      if k in l1 {
        var i :| 0 <= i < |m1| && m1[i].0 == k;
        assert m1[i] in m2;
      }
      if k in l2 {
        var i :| 0 <= i < |m2| && m2[i].0 == k;
        assert m2[i] in m1;
      }
    }
  }

  /** Two dictionaries that are both "latest" for the same set of pairs are equal. */
  lemma IsLatestUnique(l1: map<string, (string, nat)>, m1: seq<(string, nat)>,
                       l2: map<string, (string, nat)>, m2: seq<(string, nat)>)
    requires IsLatest(l1, m1) && IsLatest(l2, m2)
    requires forall x :: x in m1 <==> x in m2
    ensures l1 == l2
  {
    SameKeysUnique(l1, m1, l2, m2);
    forall k | k in l1
      ensures l1[k] == l2[k]
    {
      var i1 :| 0 <= i1 < |m2| && m2[i1] == (k, l1[k].1);
      var i2 :| 0 <= i2 < |m1| && m1[i2] == (k, l2[k].1);
    }
  }

  /**
   * The reduction depends only on which pairs occur: not on their order and not
   * on repetitions (equal patches store the same pair, so "last seen wins" is
   * invisible).  In particular it is idempotent: `LatestOf(m + m) == LatestOf(m)`.
   */
  lemma LatestOrderIndependent(m1: seq<(string, nat)>, m2: seq<(string, nat)>)
    requires forall x :: x in m1 <==> x in m2
    ensures LatestOf(m1) == LatestOf(m2)
  {
    LatestOfIsLatest(m1);
    LatestOfIsLatest(m2);
    IsLatestUnique(LatestOf(m1), m1, LatestOf(m2), m2);
  }

  /** The loop that updates `latest` in place. */
  method ReduceLatest(matches: seq<(string, nat)>) returns (latest: map<string, (string, nat)>)
    ensures latest == LatestOf(matches)
  {
    latest := map[];
    for i := 0 to |matches|
      invariant latest == LatestOf(matches[..i])
    {
      assert matches[..i + 1][..i] == matches[..i];
      var (key, patch) := matches[i];
      if key !in latest || patch > latest[key].1 {
        latest := latest[key := (key, patch)];
      }
    }
    assert matches[..|matches|] == matches;
  }

  /** Two patches of one `major.minor`: the higher is kept, whichever comes first. */
  lemma HigherPatchWins(key: string, lo: nat, hi: nat)
    requires lo < hi
    ensures LatestOf([(key, lo), (key, hi)]) == map[key := (key, hi)]
    ensures LatestOf([(key, hi), (key, lo)]) == map[key := (key, hi)]
  {
    var up := [(key, lo), (key, hi)];
    var down := [(key, hi), (key, lo)];
    assert up[..1] == [up[0]];
    assert up[..1][..0] == up[..0];
    assert LatestOf(up[..1]) == map[key := (key, lo)];
    assert map[key := (key, lo)][key := (key, hi)] == map[key := (key, hi)];
    assert down[..1] == [down[0]];
    assert down[..1][..0] == down[..0];
  }

  // ---------------------------------------------------------------------------
  // `cuda_full_map`
  // ---------------------------------------------------------------------------

  /** `{k: f"{k}.{v[1]}" for k, v in latest.items()}`. */
  function CudaFullMap(latest: map<string, (string, nat)>): (full: map<string, string>)
    ensures full.Keys == latest.Keys
  {
    map k | k in latest :: k + "." + NatToString(latest[k].1)
  }

  /** A key is stored iff some recorded pair has it. */
  lemma LatestKeys(matches: seq<(string, nat)>, k: string)
    ensures k in LatestOf(matches) <==> exists x :: x in matches && x.0 == k
  {
    LatestOfIsLatest(matches);
    if exists x :: x in matches && x.0 == k {
      var x :| x in matches && x.0 == k;
      var i :| 0 <= i < |matches| && matches[i] == x;
    }
  }

  /** The stored patch for a key was recorded for it, and no recorded patch exceeds it. */
  lemma LatestValue(matches: seq<(string, nat)>, k: string)
    requires k in LatestOf(matches)
    ensures (k, LatestOf(matches)[k].1) in matches
    ensures forall q :: (k, q) in matches ==> q <= LatestOf(matches)[k].1
  {
    LatestOfIsLatest(matches);
    forall q | (k, q) in matches
      ensures q <= LatestOf(matches)[k].1
    {
      var i :| 0 <= i < |matches| && matches[i] == (k, q);
    }
  }

  /** Some matching tag has `major.minor` equal to `k`. */
  ghost predicate IsTagKey(tags: seq<string>, k: string) {
    exists i :: 0 <= i < |tags| && TagMatch(tags[i]).Some? && TagMatch(tags[i]).value.0 == k
  }

  /**
   * After the whole front half of the script the keys of `cuda_full_map` are
   * exactly the `major.minor` of the matching tags.
   */
  lemma FullMapKeys(tags: seq<string>, k: string)
    ensures k in CudaFullMap(LatestOf(MatchesOf(tags))) <==> IsTagKey(tags, k)
  {
    var matches := MatchesOf(tags);
    LatestKeys(matches, k);
    if exists i :: 0 <= i < |tags| && TagMatch(tags[i]).Some? && TagMatch(tags[i]).value.0 == k {
      var i :| 0 <= i < |tags| && TagMatch(tags[i]).Some? && TagMatch(tags[i]).value.0 == k;
      MatchesHas(tags, TagMatch(tags[i]).value);
    }
    if exists x :: x in matches && x.0 == k {
      var x :| x in matches && x.0 == k;
      MatchesHas(tags, x);
    }
  }

  /** No matching tag gives key `k` a patch above `p`. */
  ghost predicate PatchBound(tags: seq<string>, k: string, p: nat) {
    forall j, q :: 0 <= j < |tags| && TagMatch(tags[j]) == Some((k, q)) ==> q <= p
  }

  /**
   * The value of each key of `cuda_full_map` is the key, a dot, and the highest
   * patch that a matching tag gives it.
   */
  lemma FullMapValue(tags: seq<string>, k: string)
    requires k in CudaFullMap(LatestOf(MatchesOf(tags)))
    ensures exists i, p :: && 0 <= i < |tags| && TagMatch(tags[i]) == Some((k, p))
                           && CudaFullMap(LatestOf(MatchesOf(tags)))[k] == k + "." + NatToString(p)
                           && PatchBound(tags, k, p)
  {
    var matches := MatchesOf(tags);
    var latest := LatestOf(matches);
    LatestValue(matches, k);
    var p := latest[k].1;
    CudaFullMapAt(latest, k);
    LatestBound(tags, k);
    MatchesHas(tags, (k, p));
  }

  /** The stored patch bounds every patch the matching tags give the key. */
  lemma LatestBound(tags: seq<string>, k: string)
    requires k in LatestOf(MatchesOf(tags))
    ensures PatchBound(tags, k, LatestOf(MatchesOf(tags))[k].1)
  {
    var matches := MatchesOf(tags);
    LatestValue(matches, k);
    forall j, q | 0 <= j < |tags| && TagMatch(tags[j]) == Some((k, q))
      ensures q <= LatestOf(matches)[k].1
    {
      MatchesHas(tags, (k, q));
    }
  }

  lemma CudaFullMapAt(latest: map<string, (string, nat)>, k: string)
    requires k in latest
    ensures k in CudaFullMap(latest) && CudaFullMap(latest)[k] == k + "." + NatToString(latest[k].1)
  {
  }

  /** The stored full version ends in the patch: reading it back gives the patch number. */
  lemma FullVersionPatch(k: string, p: nat)
    ensures var s := k + "." + NatToString(p);
      LastIndexOf(s, '.') == |k| && ParseNat(s[|k| + 1..]) == p
  {
    var digits := NatToString(p);
    assert '.' !in digits by {
      assert forall i :: 0 <= i < |digits| ==> IsDigit(digits[i]);
    }
    LastIndexOfSuffix(k, '.', digits);
    assert (k + "." + digits)[|k| + 1..] == digits;
    ParseNatToString(p);
  }

  // ---------------------------------------------------------------------------
  // The matrix
  // ---------------------------------------------------------------------------

  /** One element of `matrix["include"]`. */
  datatype Entry = Entry(cuda: string, cudaFull: string, torch: string)

  /** Why the script aborts: the `assert` of line 53, or `ValueError` from `int()`. */
  datatype MatrixError = MissingCuda(cuda: string) | InvalidVersion(version: string)

  /**
   * Whether the exclusion table drops `torch` for `cuda`: its `major.minor`
   * (`torch.rsplit(".", 1)[0]`) has a ceiling and `cuda` is above it.
   */
  function Excluded(cuda: string, torch: string, blacklist: map<string, string>): (r: Result<bool, MatrixError>)
    ensures RSplitHead(torch, '.') !in blacklist ==> r == Ok(false)
    ensures r.Err? ==> r.error.InvalidVersion? && VerToTuple(r.error.version).None?
  {
    var major := RSplitHead(torch, '.');
    if major !in blacklist then Ok(false)
    else
      match VersionGreater(cuda, blacklist[major])
      case Err(v) => Err(InvalidVersion(v))
      case Ok(greater) => Ok(greater)
  }

  /**
   * A pair is kept iff the torch `major.minor` has no ceiling, or both versions
   * convert and the CUDA tuple is not above the ceiling's; a failed conversion
   * names the version `int()` could not read.
   */
  lemma ExcludedMeaning(cuda: string, torch: string, blacklist: map<string, string>)
    ensures Excluded(cuda, torch, blacklist) == Ok(false) <==>
      var major := RSplitHead(torch, '.');
      || major !in blacklist
      || (&& VerToTuple(cuda).Some? && VerToTuple(blacklist[major]).Some?
          && !TupleLess(VerToTuple(blacklist[major]).value, VerToTuple(cuda).value))
  {
  }

  /** The only failure of the exclusion test is a version `int()` cannot read. */
  lemma ExcludedError(cuda: string, torch: string, blacklist: map<string, string>)
    ensures var r := Excluded(cuda, torch, blacklist);
      r.Err? ==> r.error.InvalidVersion? && VerToTuple(r.error.version).None?
  {
  }

  /** With both versions readable the exclusion test does not fail. */
  lemma ExcludedReadable(cuda: string, torch: string, blacklist: map<string, string>)
    requires VerToTuple(cuda).Some?
    requires forall t :: t in blacklist ==> VerToTuple(blacklist[t]).Some?
    ensures Excluded(cuda, torch, blacklist).Ok?
  {
  }

  /** The script's exclusion table: torch 2.8 is built for CUDA up to 12.9 only. */
  const Blacklist: map<string, string> := map["2.8" := "12.9"]

  /**
   * What the table drops: a torch `2.8.<patch>` with a CUDA version `a.b`
   * exactly when `(a, b)` is above `(12, 9)` as a tuple, so 13.0 and 12.10 are
   * dropped and 12.8 is kept (see `TupleOrderExamples`); any other torch
   * `major.minor` is never dropped.
   */
  lemma BlacklistExclusions(a: string, b: string, patch: string)
    requires IsDigits(a) && IsDigits(b) && '.' !in patch
    ensures Excluded(a + "." + b, "2.8." + patch, Blacklist)
            == Ok(TupleLess([12, 9], [ParseNat(a) as int, ParseNat(b) as int]))
  {
    TorchMajor(patch);
    CeilingTuple();
    PairTuple(a, b);
  }

  /** `ver2tuple` of `a.b`, for two digit runs. */
  lemma PairTuple(a: string, b: string)
    requires IsDigits(a) && IsDigits(b)
    ensures VerToTuple(a + "." + b) == Some([ParseNat(a) as int, ParseNat(b) as int])
  {
    var xs := [a, b];
    assert xs[1..] == [b] && xs[1..][1..] == [];
    assert Join(xs, '.') == a + "." + b;
    assert ParseNats(xs) == [ParseNat(a) as int, ParseNat(b) as int];
    VerToTupleDigits(xs);
  }

  lemma BlacklistOthers(cuda: string, torch: string)
    requires RSplitHead(torch, '.') != "2.8"
    ensures Excluded(cuda, torch, Blacklist) == Ok(false)
  {
  }

  lemma TorchMajor(patch: string)
    requires '.' !in patch
    ensures RSplitHead("2.8." + patch, '.') == "2.8"
  {
    LastIndexOfSuffix("2.8", '.', patch);
    assert "2.8." + patch == "2.8" + ['.'] + patch;
    assert ("2.8" + ['.'] + patch)[..3] == "2.8";
  }

  lemma CeilingTuple()
    ensures VerToTuple(Blacklist["2.8"]) == Some([12, 9])
  {
    var ceiling := ["12", "9"];
    assert ParseNat("12") == 12 && ParseNat("9") == 9;
    assert ceiling[1..] == ["9"] && ceiling[1..][1..] == [];
    assert ParseNats(ceiling) == [12, 9];
    assert Join(ceiling, '.') == "12.9";
    VerToTupleDigits(ceiling);
  }

  /** The entries the inner loop appends for one CUDA version, over a prefix of the torch list. */
  function TorchRows(cuda: string, cudaFull: string, torches: seq<string>, blacklist: map<string, string>)
    : (r: Result<seq<Entry>, MatrixError>)
    ensures r.Ok? ==> && |r.value| <= |torches|
                      && forall e :: e in r.value ==> e.cuda == cuda && e.cudaFull == cudaFull
    ensures r.Err? ==> r.error.InvalidVersion?
  {
    if torches == [] then Ok([])
    else
      match TorchRows(cuda, cudaFull, torches[..|torches| - 1], blacklist)
      case Err(e) => Err(e)
      case Ok(rows) =>
        match Excluded(cuda, torches[|torches| - 1], blacklist)
        case Err(e) => Err(e)
        case Ok(true) => Ok(rows)
        case Ok(false) => Ok(rows + [Entry(cuda, cudaFull, Strip(torches[|torches| - 1]))])
  }

  /** `matrix["include"]` after the outer loop over a prefix of the CUDA list, or the abort. */
  function MatrixRows(cudas: seq<string>, torches: seq<string>, full: map<string, string>,
                      blacklist: map<string, string>): (r: Result<seq<Entry>, MatrixError>)
    ensures r.Ok? ==> forall e :: e in r.value ==> e.cuda in full && e.cudaFull == full[e.cuda]
  {
    if cudas == [] then Ok([])
    else
      match MatrixRows(cudas[..|cudas| - 1], torches, full, blacklist)
      case Err(e) => Err(e)
      case Ok(rows) =>
        var cuda := Strip(cudas[|cudas| - 1]);
        if cuda !in full then Err(MissingCuda(cuda))
        else
          match TorchRows(cuda, full[cuda], torches, blacklist)
          case Err(e) => Err(e)
          case Ok(more) => FullVersionsAppend(rows, more, full, cuda); Ok(rows + more)
  }

  /** Entries that carry their CUDA version's full version stay so when more are appended. */
  lemma FullVersionsAppend(rows: seq<Entry>, more: seq<Entry>, full: map<string, string>, cuda: string)
    requires forall e :: e in rows ==> e.cuda in full && e.cudaFull == full[e.cuda]
    requires cuda in full && forall e :: e in more ==> e.cuda == cuda && e.cudaFull == full[cuda]
    ensures forall e :: e in rows + more ==> e.cuda in full && e.cudaFull == full[e.cuda]
  {
  }

  lemma {:induction false} TorchRowsAbort(cuda: string, cudaFull: string, torches: seq<string>,
                                          blacklist: map<string, string>, k: nat)
    requires k <= |torches| && TorchRows(cuda, cudaFull, torches[..k], blacklist).Err?
    ensures TorchRows(cuda, cudaFull, torches, blacklist) == TorchRows(cuda, cudaFull, torches[..k], blacklist)
  {
    if k < |torches| {
      var front := torches[..|torches| - 1];
      assert front[..k] == torches[..k];
      TorchRowsAbort(cuda, cudaFull, front, blacklist, k);
    } else {
      assert torches[..k] == torches;
    }
  }

  lemma {:induction false} MatrixRowsAbort(cudas: seq<string>, torches: seq<string>, full: map<string, string>,
                                           blacklist: map<string, string>, k: nat)
    requires k <= |cudas| && MatrixRows(cudas[..k], torches, full, blacklist).Err?
    ensures MatrixRows(cudas, torches, full, blacklist) == MatrixRows(cudas[..k], torches, full, blacklist)
  {
    if k < |cudas| {
      var front := cudas[..|cudas| - 1];
      assert front[..k] == cudas[..k];
      MatrixRowsAbort(front, torches, full, blacklist, k);
    } else {
      assert cudas[..k] == cudas;
    }
  }

  /** The inner loop of lines 55-68: the entries appended for one CUDA version. */
  method TorchEntries(cuda: string, cudaFull: string, torches: seq<string>, blacklist: map<string, string>)
    returns (r: Result<seq<Entry>, MatrixError>)
    ensures r == TorchRows(cuda, cudaFull, torches, blacklist)
  {
    var rows: seq<Entry> := [];
    for j := 0 to |torches|
      invariant TorchRows(cuda, cudaFull, torches[..j], blacklist) == Ok(rows)
    {
      assert torches[..j + 1][..j] == torches[..j];
      var torch := torches[j];
      var torchMajor := RSplitHead(torch, '.');
      var skip := false;
      if torchMajor in blacklist {
        var maxCuda := blacklist[torchMajor];
        var greater := VersionGreater(cuda, maxCuda);
        if greater.Err? {
          r := Err(InvalidVersion(greater.error));
          TorchRowsAbort(cuda, cudaFull, torches, blacklist, j + 1);
          return;
        }
        skip := greater.value;
      }
      if !skip {
        rows := rows + [Entry(cuda, cudaFull, Strip(torch))];
      }
    }
    assert torches[..|torches|] == torches;
    r := Ok(rows);
  }

  /** The outer loop meets a CUDA version missing from `cuda_full_map`: the run aborts with it. */
  lemma OuterMissing(cudas: seq<string>, torches: seq<string>, full: map<string, string>,
                     blacklist: map<string, string>, i: nat)
    requires i < |cudas| && MatrixRows(cudas[..i], torches, full, blacklist).Ok?
    requires Strip(cudas[i]) !in full
    ensures MatrixRows(cudas, torches, full, blacklist) == Err(MissingCuda(Strip(cudas[i])))
  {
    assert cudas[..i + 1][..i] == cudas[..i];
    MatrixRowsAbort(cudas, torches, full, blacklist, i + 1);
  }

  /** The inner loop aborts for the CUDA version at `i`: so does the outer loop. */
  lemma OuterInnerFails(cudas: seq<string>, torches: seq<string>, full: map<string, string>,
                        blacklist: map<string, string>, i: nat, e: MatrixError)
    requires i < |cudas| && MatrixRows(cudas[..i], torches, full, blacklist).Ok?
    requires Strip(cudas[i]) in full
    requires TorchRows(Strip(cudas[i]), full[Strip(cudas[i])], torches, blacklist) == Err(e)
    ensures MatrixRows(cudas, torches, full, blacklist) == Err(e)
  {
    assert cudas[..i + 1][..i] == cudas[..i];
    MatrixRowsAbort(cudas, torches, full, blacklist, i + 1);
  }

  /** The inner loop completes for the CUDA version at `i`: its entries extend the matrix. */
  lemma OuterNext(cudas: seq<string>, torches: seq<string>, full: map<string, string>,
                  blacklist: map<string, string>, i: nat, emitted: seq<Entry>, more: seq<Entry>)
    requires i < |cudas| && MatrixRows(cudas[..i], torches, full, blacklist) == Ok(emitted)
    requires Strip(cudas[i]) in full
    requires TorchRows(Strip(cudas[i]), full[Strip(cudas[i])], torches, blacklist) == Ok(more)
    ensures MatrixRows(cudas[..i + 1], torches, full, blacklist) == Ok(emitted + more)
  {
    assert cudas[..i + 1][..i] == cudas[..i];
  }

  /** The outer loop of lines 51-68, which aborts on a CUDA version missing from `cuda_full_map`. */
  method BuildMatrix(cudas: seq<string>, torches: seq<string>, full: map<string, string>,
                     blacklist: map<string, string>) returns (r: Result<seq<Entry>, MatrixError>)
    ensures r == MatrixRows(cudas, torches, full, blacklist)
  {
    var emitted: seq<Entry> := [];
    var i := 0;
    while i < |cudas|
      invariant i <= |cudas|
      invariant MatrixRows(cudas[..i], torches, full, blacklist) == Ok(emitted)
    {
      var cuda := Strip(cudas[i]);
      if cuda !in full {
        r := Err(MissingCuda(cuda));
        OuterMissing(cudas, torches, full, blacklist, i);
        return;
      }
      var cudaFull := full[cuda];
      var rows := TorchEntries(cuda, cudaFull, torches, blacklist);
      if rows.Err? {
        r := Err(rows.error);
        OuterInnerFails(cudas, torches, full, blacklist, i, rows.error);
        return;
      }
      OuterNext(cudas, torches, full, blacklist, i, emitted, rows.value);
      emitted := emitted + rows.value;
      i := i + 1;
    }
    assert cudas[..|cudas|] == cudas;
    r := Ok(emitted);
  }

  // ---------------------------------------------------------------------------
  // A reference definition: the row-major cross product, filtered
  // ---------------------------------------------------------------------------

  /** Every pair of `c` with a torch version, in torch-list order. */
  function Row(c: string, torches: seq<string>): (r: seq<(string, string)>)
    ensures |r| == |torches| && forall j :: 0 <= j < |torches| ==> r[j] == (c, torches[j])
  {
    seq(|torches|, j requires 0 <= j < |torches| => (c, torches[j]))
  }

  /** Every (cuda, torch) pair: CUDA-list order first, torch-list order second. */
  function Cross(cudas: seq<string>, torches: seq<string>): (r: seq<(string, string)>)
    ensures |r| == |cudas| * |torches|
  {
    if cudas == [] then []
    else Cross(cudas[..|cudas| - 1], torches) + Row(cudas[|cudas| - 1], torches)
  }

  lemma MulBound(i: nat, j: nat, n: nat, m: nat)
    requires i < n && j < m
    ensures i * m + j < n * m
  {
    assert i * m + j < (i + 1) * m;
    assert (i + 1) * m <= n * m;
  }

  /** Pair (i, j) sits at position `i * |torches| + j` of the cross product. */
  lemma {:induction false} CrossAt(cudas: seq<string>, torches: seq<string>, i: nat, j: nat)
    requires i < |cudas| && j < |torches|
    ensures i * |torches| + j < |Cross(cudas, torches)|
    ensures Cross(cudas, torches)[i * |torches| + j] == (cudas[i], torches[j])
  {
    var n := |cudas|;
    var front := cudas[..n - 1];
    MulBound(i, j, n, |torches|);
    assert |Cross(front, torches)| == (n - 1) * |torches|;
    if i < n - 1 {
      MulBound(i, j, n - 1, |torches|);
      CrossAt(front, torches, i, j);
    } else {
      assert i * |torches| + j == |Cross(front, torches)| + j;
    }
  }

  lemma CrossHas(cudas: seq<string>, torches: seq<string>, i: nat, j: nat)
    requires i < |cudas| && j < |torches|
    ensures (cudas[i], torches[j]) in Cross(cudas, torches)
  {
    CrossAt(cudas, torches, i, j);
  }

  /** Every pair of the cross product is one CUDA version with one torch version. */
  lemma {:induction false} CrossFrom(cudas: seq<string>, torches: seq<string>, n: nat)
    requires n < |Cross(cudas, torches)|
    ensures exists i, j :: 0 <= i < |cudas| && 0 <= j < |torches| && Cross(cudas, torches)[n] == (cudas[i], torches[j])
  {
    var front := cudas[..|cudas| - 1];
    var m := |Cross(front, torches)|;
    if n < m {
      CrossFrom(front, torches, n);
      var i, j :| 0 <= i < |front| && 0 <= j < |torches| && Cross(front, torches)[n] == (front[i], torches[j]);
      assert Cross(cudas, torches)[n] == (cudas[i], torches[j]);
    } else {
      assert Cross(cudas, torches)[n] == (cudas[|cudas| - 1], torches[n - m]);
    }
  }

  /** The entry the script emits for a pair, if the pair survives the exclusion table. */
  function Keep(p: (string, string), full: map<string, string>, blacklist: map<string, string>): Option<Entry> {
    if p.0 in full && Excluded(p.0, p.1, blacklist) == Ok(false) then Some(Entry(p.0, full[p.0], Strip(p.1))) else None
  }

  /** The entries the script emits for the pairs that survive the exclusion table, in order. */
  function Kept(pairs: seq<(string, string)>, full: map<string, string>, blacklist: map<string, string>)
    : seq<Entry>
  {
    FilterMap(pairs, p => Keep(p, full, blacklist))
  }

  /** `Kept` holds exactly the entries of the surviving pairs. */
  lemma KeptMembers(pairs: seq<(string, string)>, full: map<string, string>,
                    blacklist: map<string, string>, e: Entry)
    ensures e in Kept(pairs, full, blacklist) <==>
      exists n :: 0 <= n < |pairs| && Keep(pairs[n], full, blacklist) == Some(e)
  {
    FilterMapHas(pairs, p => Keep(p, full, blacklist), e);
  }

  lemma KeptHas(pairs: seq<(string, string)>, full: map<string, string>,
                blacklist: map<string, string>, p: (string, string))
    requires p in pairs && p.0 in full && Excluded(p.0, p.1, blacklist) == Ok(false)
    ensures Entry(p.0, full[p.0], Strip(p.1)) in Kept(pairs, full, blacklist)
  {
    var n :| 0 <= n < |pairs| && pairs[n] == p;
    KeptMembers(pairs, full, blacklist, Entry(p.0, full[p.0], Strip(p.1)));
  }

  lemma KeptAppend(a: seq<(string, string)>, b: seq<(string, string)>,
                   full: map<string, string>, blacklist: map<string, string>)
    ensures Kept(a + b, full, blacklist) == Kept(a, full, blacklist) + Kept(b, full, blacklist)
  {
    FilterMapAppend(a, b, p => Keep(p, full, blacklist));
  }

  /** One more torch version: the inner loop's entries grow by what `Kept` keeps of its pair. */
  lemma TorchRowsStep(cuda: string, torches: seq<string>, full: map<string, string>,
                      blacklist: map<string, string>)
    requires cuda in full && torches != [] && TorchRows(cuda, full[cuda], torches, blacklist).Ok?
    ensures var front := torches[..|torches| - 1];
            && TorchRows(cuda, full[cuda], front, blacklist).Ok?
            && TorchRows(cuda, full[cuda], torches, blacklist).value
               == TorchRows(cuda, full[cuda], front, blacklist).value
                  + Kept([(cuda, torches[|torches| - 1])], full, blacklist)
  {
    var p := (cuda, torches[|torches| - 1]);
    FilterMapOne(p, q => Keep(q, full, blacklist));
    ExcludedKeep(cuda, full, blacklist, torches[|torches| - 1]);
  }

  /** The exclusion test and `Keep` agree on a CUDA version that has a full version. */
  lemma ExcludedKeep(cuda: string, full: map<string, string>, blacklist: map<string, string>, torch: string)
    requires cuda in full
    ensures Keep((cuda, torch), full, blacklist)
            == if Excluded(cuda, torch, blacklist) == Ok(false) then Some(Entry(cuda, full[cuda], Strip(torch))) else None
  {
  }

  lemma RowSnoc(cuda: string, torches: seq<string>)
    requires torches != []
    ensures Row(cuda, torches) == Row(cuda, torches[..|torches| - 1]) + [(cuda, torches[|torches| - 1])]
  {
  }

  lemma {:induction false} TorchRowsKept(cuda: string, torches: seq<string>, full: map<string, string>,
                                         blacklist: map<string, string>)
    requires cuda in full && TorchRows(cuda, full[cuda], torches, blacklist).Ok?
    ensures TorchRows(cuda, full[cuda], torches, blacklist).value == Kept(Row(cuda, torches), full, blacklist)
  {
    if torches != [] {
      var front := torches[..|torches| - 1];
      TorchRowsStep(cuda, torches, full, blacklist);
      TorchRowsKept(cuda, front, full, blacklist);
      RowSnoc(cuda, torches);
      KeptAppend(Row(cuda, front), [(cuda, torches[|torches| - 1])], full, blacklist);
    }
  }

  function StripAll(xs: seq<string>): (r: seq<string>)
    ensures |r| == |xs| && forall i :: 0 <= i < |xs| ==> r[i] == Strip(xs[i])
  {
    seq(|xs|, i requires 0 <= i < |xs| => Strip(xs[i]))
  }

  /** One more CUDA version: the loop's entries grow by that version's inner-loop entries. */
  lemma MatrixRowsStep(cudas: seq<string>, torches: seq<string>, full: map<string, string>,
                       blacklist: map<string, string>)
    requires cudas != [] && MatrixRows(cudas, torches, full, blacklist).Ok?
    ensures var cuda := Strip(cudas[|cudas| - 1]);
            var front := MatrixRows(cudas[..|cudas| - 1], torches, full, blacklist);
            && front.Ok? && cuda in full && TorchRows(cuda, full[cuda], torches, blacklist).Ok?
            && MatrixRows(cudas, torches, full, blacklist).value
               == front.value + TorchRows(cuda, full[cuda], torches, blacklist).value
  {
  }

  lemma CrossSnoc(cudas: seq<string>, torches: seq<string>)
    requires cudas != []
    ensures Cross(StripAll(cudas), torches)
            == Cross(StripAll(cudas[..|cudas| - 1]), torches) + Row(Strip(cudas[|cudas| - 1]), torches)
  {
    assert StripAll(cudas)[..|cudas| - 1] == StripAll(cudas[..|cudas| - 1]);
  }

  /**
   * When the script does not abort, `matrix["include"]` is the cross product of
   * the stripped CUDA list with the torch list, in that order, minus the
   * excluded pairs: every surviving pair exactly where the loops reach it.
   */
  lemma {:induction false} MatrixIsFilteredCross(cudas: seq<string>, torches: seq<string>,
                                                 full: map<string, string>, blacklist: map<string, string>)
    requires MatrixRows(cudas, torches, full, blacklist).Ok?
    ensures MatrixRows(cudas, torches, full, blacklist).value == Kept(Cross(StripAll(cudas), torches), full, blacklist)
  {
    if cudas != [] {
      var front := cudas[..|cudas| - 1];
      var cuda := Strip(cudas[|cudas| - 1]);
      MatrixRowsStep(cudas, torches, full, blacklist);
      MatrixIsFilteredCross(front, torches, full, blacklist);
      TorchRowsKept(cuda, torches, full, blacklist);
      CrossSnoc(cudas, torches);
      KeptAppend(Cross(StripAll(front), torches), Row(cuda, torches), full, blacklist);
    }
  }

  /** When the script does not abort, every requested CUDA version has a full version. */
  lemma OkCoversCudas(cudas: seq<string>, torches: seq<string>, full: map<string, string>,
                      blacklist: map<string, string>)
    requires MatrixRows(cudas, torches, full, blacklist).Ok?
    ensures forall i :: 0 <= i < |cudas| ==> Strip(cudas[i]) in full
  {
    forall i | 0 <= i < |cudas|
      ensures Strip(cudas[i]) in full
    {
      if Strip(cudas[i]) !in full {
        MissingCudaAborts(cudas, torches, full, blacklist, i);
      }
    }
  }

  /**
   * Exclusion soundness: every emitted entry is a requested CUDA version (with
   * its full version) and a requested torch version whose `major.minor` has no
   * ceiling or whose ceiling the CUDA version does not exceed.
   */
  lemma ExclusionSound(cudas: seq<string>, torches: seq<string>, full: map<string, string>,
                       blacklist: map<string, string>, e: Entry)
    requires MatrixRows(cudas, torches, full, blacklist).Ok?
    requires e in MatrixRows(cudas, torches, full, blacklist).value
    ensures exists i, j ::
      && 0 <= i < |cudas| && 0 <= j < |torches| && Strip(cudas[i]) in full
      && e == Entry(Strip(cudas[i]), full[Strip(cudas[i])], Strip(torches[j]))
      && var major := RSplitHead(torches[j], '.');
         || major !in blacklist
         || (&& VerToTuple(Strip(cudas[i])).Some? && VerToTuple(blacklist[major]).Some?
             && !TupleLess(VerToTuple(blacklist[major]).value, VerToTuple(Strip(cudas[i])).value))
  {
    var pairs := Cross(StripAll(cudas), torches);
    MatrixIsFilteredCross(cudas, torches, full, blacklist);
    KeptMembers(pairs, full, blacklist, e);
    var n :| 0 <= n < |pairs| && pairs[n].0 in full
      && Excluded(pairs[n].0, pairs[n].1, blacklist) == Ok(false)
      && e == Entry(pairs[n].0, full[pairs[n].0], Strip(pairs[n].1));
    CrossFrom(StripAll(cudas), torches, n);
    var i, j :| 0 <= i < |cudas| && 0 <= j < |torches| && pairs[n] == (StripAll(cudas)[i], torches[j]);
    ExcludedMeaning(pairs[n].0, pairs[n].1, blacklist);
  }

  /**
   * Completeness: every requested pair that the exclusion table keeps is emitted,
   * carrying the full version of its CUDA version.
   */
  lemma ExclusionComplete(cudas: seq<string>, torches: seq<string>, full: map<string, string>,
                          blacklist: map<string, string>, i: nat, j: nat)
    requires MatrixRows(cudas, torches, full, blacklist).Ok?
    requires i < |cudas| && j < |torches|
    requires Excluded(Strip(cudas[i]), torches[j], blacklist) == Ok(false)
    ensures Strip(cudas[i]) in full
    ensures Entry(Strip(cudas[i]), full[Strip(cudas[i])], Strip(torches[j]))
              in MatrixRows(cudas, torches, full, blacklist).value
  {
    MatrixIsFilteredCross(cudas, torches, full, blacklist);
    OkCoversCudas(cudas, torches, full, blacklist);
    var cs := StripAll(cudas);
    CrossHas(cs, torches, i, j);
    KeptHas(Cross(cs, torches), full, blacklist, (cs[i], torches[j]));
  }

  /** A requested CUDA version missing from `cuda_full_map` aborts the run: no matrix at all. */
  lemma {:induction false} MissingCudaAborts(cudas: seq<string>, torches: seq<string>, full: map<string, string>,
                                             blacklist: map<string, string>, i: nat)
    requires i < |cudas| && Strip(cudas[i]) !in full
    ensures MatrixRows(cudas, torches, full, blacklist).Err?
  {
    var front := cudas[..|cudas| - 1];
    if i < |cudas| - 1 {
      assert front[i] == cudas[i];
      MissingCudaAborts(front, torches, full, blacklist, i);
      AbortEarly(cudas, torches, full, blacklist);
    } else {
      MissingLastAborts(cudas, torches, full, blacklist);
    }
  }

  /** The last CUDA version missing from `cuda_full_map` aborts the run. */
  lemma MissingLastAborts(cudas: seq<string>, torches: seq<string>, full: map<string, string>,
                          blacklist: map<string, string>)
    requires cudas != [] && Strip(cudas[|cudas| - 1]) !in full
    ensures MatrixRows(cudas, torches, full, blacklist).Err?
  {
  }

  /** An abort raised before the last CUDA version is the abort of the whole loop. */
  lemma AbortEarly(cudas: seq<string>, torches: seq<string>, full: map<string, string>,
                   blacklist: map<string, string>)
    requires cudas != [] && MatrixRows(cudas[..|cudas| - 1], torches, full, blacklist).Err?
    ensures MatrixRows(cudas, torches, full, blacklist) == MatrixRows(cudas[..|cudas| - 1], torches, full, blacklist)
  {
  }

  /** An abort raised at the last CUDA version: it is missing, or its inner loop aborts. */
  lemma AbortLast(cudas: seq<string>, torches: seq<string>, full: map<string, string>,
                  blacklist: map<string, string>)
    requires cudas != [] && MatrixRows(cudas[..|cudas| - 1], torches, full, blacklist).Ok?
    requires MatrixRows(cudas, torches, full, blacklist).Err?
    ensures var cuda := Strip(cudas[|cudas| - 1]);
            var e := MatrixRows(cudas, torches, full, blacklist).error;
            || (cuda !in full && e == MissingCuda(cuda))
            || (cuda in full && TorchRows(cuda, full[cuda], torches, blacklist) == Err(e))
  {
  }

  /** What an abort says about its cause: the CUDA version that is missing, or the version `int()` cannot read. */
  ghost predicate Explains(cudas: seq<string>, full: map<string, string>, e: MatrixError) {
    && (e.MissingCuda? ==> e.cuda !in full && exists i :: 0 <= i < |cudas| && Strip(cudas[i]) == e.cuda)
    && (e.InvalidVersion? ==> VerToTuple(e.version).None?)
  }

  lemma ExplainsSnoc(cudas: seq<string>, full: map<string, string>, e: MatrixError)
    requires cudas != [] && Explains(cudas[..|cudas| - 1], full, e)
    ensures Explains(cudas, full, e)
  {
    if e.MissingCuda? {
      var i :| 0 <= i < |cudas| - 1 && Strip(cudas[..|cudas| - 1][i]) == e.cuda;
      assert cudas[i] == cudas[..|cudas| - 1][i];
    }
  }

  lemma ExplainsLast(cudas: seq<string>, torches: seq<string>, full: map<string, string>,
                     blacklist: map<string, string>)
    requires cudas != [] && MatrixRows(cudas[..|cudas| - 1], torches, full, blacklist).Ok?
    requires MatrixRows(cudas, torches, full, blacklist).Err?
    ensures Explains(cudas, full, MatrixRows(cudas, torches, full, blacklist).error)
  {
    AbortLast(cudas, torches, full, blacklist);
    var cuda := Strip(cudas[|cudas| - 1]);
    if cuda in full {
      TorchRowsCause(cuda, full[cuda], torches, blacklist);
    }
  }

  /** Where an abort comes from: a missing CUDA version, or a version `int()` cannot read. */
  lemma {:induction false} AbortCause(cudas: seq<string>, torches: seq<string>, full: map<string, string>,
                                      blacklist: map<string, string>)
    requires MatrixRows(cudas, torches, full, blacklist).Err?
    ensures Explains(cudas, full, MatrixRows(cudas, torches, full, blacklist).error)
  {
    var front := cudas[..|cudas| - 1];
    if MatrixRows(front, torches, full, blacklist).Err? {
      AbortCause(front, torches, full, blacklist);
      AbortEarly(cudas, torches, full, blacklist);
      ExplainsSnoc(cudas, full, MatrixRows(front, torches, full, blacklist).error);
    } else {
      ExplainsLast(cudas, torches, full, blacklist);
    }
  }

  lemma {:induction false} TorchRowsCause(cuda: string, cudaFull: string, torches: seq<string>,
                                          blacklist: map<string, string>)
    ensures var r := TorchRows(cuda, cudaFull, torches, blacklist);
      r.Err? ==> r.error.InvalidVersion? && VerToTuple(r.error.version).None?
  {
    if torches != [] {
      var front := torches[..|torches| - 1];
      if TorchRows(cuda, cudaFull, front, blacklist).Err? {
        TorchRowsCause(cuda, cudaFull, front, blacklist);
        TorchRowsFrontErr(cuda, cudaFull, torches, blacklist);
      } else if TorchRows(cuda, cudaFull, torches, blacklist).Err? {
        TorchRowsLastErr(cuda, cudaFull, torches, blacklist);
        ExcludedError(cuda, torches[|torches| - 1], blacklist);
      }
    }
  }

  /** An abort within the earlier versions is the abort of the whole loop. */
  lemma TorchRowsFrontErr(cuda: string, cudaFull: string, torches: seq<string>, blacklist: map<string, string>)
    requires torches != [] && TorchRows(cuda, cudaFull, torches[..|torches| - 1], blacklist).Err?
    ensures TorchRows(cuda, cudaFull, torches, blacklist) == TorchRows(cuda, cudaFull, torches[..|torches| - 1], blacklist)
  {
  }

  /** An abort at the last version is the error of its exclusion test. */
  lemma TorchRowsLastErr(cuda: string, cudaFull: string, torches: seq<string>, blacklist: map<string, string>)
    requires torches != [] && TorchRows(cuda, cudaFull, torches[..|torches| - 1], blacklist).Ok?
    requires TorchRows(cuda, cudaFull, torches, blacklist).Err?
    ensures var ex := Excluded(cuda, torches[|torches| - 1], blacklist);
            ex.Err? && TorchRows(cuda, cudaFull, torches, blacklist) == Err(ex.error)
  {
  }

  /** With readable ceilings and keys, the inner loop never aborts. */
  lemma {:induction false} TorchRowsOk(cuda: string, cudaFull: string, torches: seq<string>,
                                       blacklist: map<string, string>)
    requires VerToTuple(cuda).Some?
    requires forall t :: t in blacklist ==> VerToTuple(blacklist[t]).Some?
    ensures TorchRows(cuda, cudaFull, torches, blacklist).Ok?
  {
    if torches != [] {
      TorchRowsOk(cuda, cudaFull, torches[..|torches| - 1], blacklist);
      ExcludedReadable(cuda, torches[|torches| - 1], blacklist);
    }
  }

  /**
   * With keys and ceilings that `ver2tuple` reads, the script aborts exactly when
   * some requested CUDA version is missing from `cuda_full_map`.
   */
  lemma {:induction false} MatrixOkIff(cudas: seq<string>, torches: seq<string>, full: map<string, string>,
                                       blacklist: map<string, string>)
    requires forall k :: k in full ==> VerToTuple(k).Some?
    requires forall t :: t in blacklist ==> VerToTuple(blacklist[t]).Some?
    ensures MatrixRows(cudas, torches, full, blacklist).Ok? <==> forall i :: 0 <= i < |cudas| ==> Strip(cudas[i]) in full
  {
    if forall i :: 0 <= i < |cudas| ==> Strip(cudas[i]) in full {
      if cudas != [] {
        var front := cudas[..|cudas| - 1];
        assert forall i :: 0 <= i < |front| ==> front[i] == cudas[i];
        MatrixOkIff(front, torches, full, blacklist);
        var cuda := Strip(cudas[|cudas| - 1]);
        TorchRowsOk(cuda, full[cuda], torches, blacklist);
      }
    } else {
      var i :| 0 <= i < |cudas| && Strip(cudas[i]) !in full;
      MissingCudaAborts(cudas, torches, full, blacklist, i);
    }
  }

  // ---------------------------------------------------------------------------
  // The whole script
  // ---------------------------------------------------------------------------

  /** What the script computes from the fetched tag names and its configuration. */
  function Generate(tags: seq<string>, cudas: seq<string>, torches: seq<string>,
                    blacklist: map<string, string>): (r: Result<seq<Entry>, MatrixError>)
    ensures r.Ok? ==> forall e :: e in r.value ==> IsTagKey(tags, e.cuda)
  {
    FullMapTagKeys(tags);
    MatrixRows(cudas, torches, CudaFullMap(LatestOf(MatchesOf(tags))), blacklist)
  }

  /** The keys of `cuda_full_map` are exactly the `major.minor` of the matching tags. */
  lemma FullMapTagKeys(tags: seq<string>)
    ensures forall k :: k in CudaFullMap(LatestOf(MatchesOf(tags))) <==> IsTagKey(tags, k)
  {
    forall k
      ensures k in CudaFullMap(LatestOf(MatchesOf(tags))) <==> IsTagKey(tags, k)
    {
      FullMapKeys(tags, k);
    }
  }

  /** The script body, lines 14-68, in its own order. */
  method GenerateMatrix(tags: seq<string>, cudas: seq<string>, torches: seq<string>,
                        blacklist: map<string, string>) returns (r: Result<seq<Entry>, MatrixError>)
    ensures r == Generate(tags, cudas, torches, blacklist)
  {
    var matches := CollectMatches(tags);
    var latest := ReduceLatest(matches);
    var full := CudaFullMap(latest);
    r := BuildMatrix(cudas, torches, full, blacklist);
  }

  /** Every key of `cuda_full_map` is a version `ver2tuple` reads. */
  lemma FullMapReadable(tags: seq<string>)
    ensures forall k :: k in CudaFullMap(LatestOf(MatchesOf(tags))) ==> VerToTuple(k).Some?
  {
    forall k | k in CudaFullMap(LatestOf(MatchesOf(tags))) ensures VerToTuple(k).Some? {
      FullMapKeys(tags, k);
      var i :| 0 <= i < |tags| && TagMatch(tags[i]).Some? && TagMatch(tags[i]).value.0 == k;
      TagKeyIsVersion(tags[i]);
    }
  }

  /**
   * End to end: with ceilings that `ver2tuple` reads, the run produces a matrix
   * exactly when every requested CUDA version (stripped) is the `major.minor` of
   * some matching tag.
   */
  lemma GenerateOkIff(tags: seq<string>, cudas: seq<string>, torches: seq<string>, blacklist: map<string, string>)
    requires forall t :: t in blacklist ==> VerToTuple(blacklist[t]).Some?
    ensures Generate(tags, cudas, torches, blacklist).Ok? <==>
      forall i :: 0 <= i < |cudas| ==> IsTagKey(tags, Strip(cudas[i]))
  {
    var full := CudaFullMap(LatestOf(MatchesOf(tags)));
    FullMapReadable(tags);
    MatrixOkIff(cudas, torches, full, blacklist);
    assert Generate(tags, cudas, torches, blacklist) == MatrixRows(cudas, torches, full, blacklist);
    forall i | 0 <= i < |cudas|
      ensures Strip(cudas[i]) in full <==> IsTagKey(tags, Strip(cudas[i]))
    {
      FullMapKeys(tags, Strip(cudas[i]));
    }
  }

  /** Every emitted entry carries the full version `cuda_full_map` holds for its CUDA version. */
  lemma GenerateFullVersions(tags: seq<string>, cudas: seq<string>, torches: seq<string>,
                             blacklist: map<string, string>, e: Entry)
    requires Generate(tags, cudas, torches, blacklist).Ok?
    requires e in Generate(tags, cudas, torches, blacklist).value
    ensures e.cuda in CudaFullMap(LatestOf(MatchesOf(tags)))
    ensures e.cudaFull == CudaFullMap(LatestOf(MatchesOf(tags)))[e.cuda]
  {
    ExclusionSound(cudas, torches, CudaFullMap(LatestOf(MatchesOf(tags))), blacklist, e);
  }
}
