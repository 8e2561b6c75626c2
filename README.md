# Flash-attention wheel tooling: build matrix and wheel index, modelled in Dafny

Two release scripts of a project that builds and publishes prebuilt
flash-attention wheels:

- `scripts/generate_matrix.py` computes the CI build matrix. It keeps the
  container tag names of the form `major.minor.patch-devel-ubuntu22.04`. It
  reduces them to the highest patch per `major.minor` (`cuda_full_map`). It
  then crosses the requested CUDA versions with the requested torch versions,
  dropping the pairs an exclusion table forbids. The exclusion test compares
  versions as integer tuples (`ver2tuple`). A requested CUDA version missing
  from the map aborts the run with an `assert`.
- `scripts/generate_pages.py` parses wheel file names with the regular
  expression `WHEEL_RE` (`parse_wheel_info`). It groups the release assets
  that parse under the key `cu<cuda>_torch<torch>`, with the dots removed
  (`organize_wheels`).

The Dafny modules:

| module | file | what it holds |
|---|---|---|
| `Wrappers` | wrappers.dfy | `Option`, `Result` |
| `Text` | text.dfy | Python string operations the scripts use: `strip`, `split`, `join`, `rsplit(sep, 1)[0]`, `replace(c, "")`, slicing `[:n]`, `int()`, `str()` of a natural |
| `Scan` | scan.dfy | matchers for the pieces of both regular expressions (digit runs, dotted versions, fixed-width digits) |
| `Versions` | versions.dfy | `ver2tuple` and Python's ordering of integer tuples |
| `Matrix` | matrix.dfy | `generate_matrix.py`, lines 14-68 |
| `Collections` | collections.dfy | reference definitions of the two loop shapes: keep-and-transform in order, and file into a dict of lists |
| `Wheels` | wheels.dfy | `WHEEL_RE` and `parse_wheel_info` |
| `Organize` | organize.dfy | `organize_wheels` |

The loops of the scripts are methods with loop invariants:
- `Matrix.CollectMatches`, `Matrix.ReduceLatest`, `Matrix.TorchEntries`, `Matrix.BuildMatrix`;
- `Organize.FileAssets`, `Organize.OrganizeWheels`.

Each loop is proved equal to a prefix-recursive specification function. Two
more methods have no loop of their own:
- `Matrix.GenerateMatrix`, the script body, is proved equal to `Generate`;
- `Organize.FileAsset`, the inner loop body, is proved equal to `AddItem`.

The lemmas are stated about the specification functions. Python exceptions
are `Err` values:
- the `assert` of line 53;
- `ValueError` from `int()`;
- `KeyError` from a missing dict key.

Each regular expression is a hand-written matcher. It is proved both sound
(what it accepts is the rendering of its captures) and complete (every
rendering is accepted with its own captures). In the tag pattern and in the
wheel pattern up to `-cp(?P<py>\d{2})-`, every repeated class is followed by a
literal that starts outside the class. There the longest run is the only way
to match, and the matchers take it. The wheel pattern's tail `.*linux.*\.whl`
is different: its two wildcards may stop at any occurrence of `linux` and
`.whl`. `Wheels.TailMatches` states it as the existence of such occurrences,
with no newline before the `.whl`.

The wheel-name grammar is the one in the code:
- the prefix `flash_attn-`;
- a dotted CUDA version such as `cu12.3`;
- exactly two interpreter digits;
- `linux` after the interpreter tag.

## Model

| member | source | states |
|---|---|---|
| Matrix.ParseTag | scripts/generate_matrix.py:14 | a name the tag pattern accepts is exactly the rendering of three digit runs, the suffix and an optional final newline (Python's `$`) |
| Matrix.ParseTagName | scripts/generate_matrix.py:14 | every name of the pattern's form is accepted with its own three groups |
| Matrix.TagMatch | scripts/generate_matrix.py:17-20 | a contribution comes from a name of the pattern's form: `(major + "." + minor, int(patch))` of its three groups |
| Matrix.TagMatchIff | scripts/generate_matrix.py:14-20 | a tag contributes to `matches` iff its whole name has the pattern's form, and then contributes exactly `(major + "." + minor, int(patch))` |
| Matrix.TagKeyIsVersion | scripts/generate_matrix.py:20 | a contributed `major.minor` key is a version `ver2tuple` can read |
| Matrix.MatchesHas | scripts/generate_matrix.py:15-20 | a pair is in `matches` iff some tag contributes it |
| Matrix.CollectMatches | scripts/generate_matrix.py:15-20 | the loop appending to `matches` computes `MatchesOf` of the tags |
| Matrix.Step | scripts/generate_matrix.py:22-25 | one pass adds the pair's key, stores a patch no lower than the pair's or the one stored before, and leaves every other key as it was |
| Matrix.LatestOf | scripts/generate_matrix.py:21-25 | every stored value is `(k, patch)` under its own key `k` |
| Matrix.LatestOfIsLatest | scripts/generate_matrix.py:21-25 | the reduced dict has exactly the keys of `matches`, stores `(k, p)` for a patch `p` recorded for `k`, and no recorded patch for `k` exceeds it |
| Matrix.IsLatestUnique | scripts/generate_matrix.py:21-25 | two dicts satisfying that characterisation for the same set of pairs are equal |
| Matrix.LatestOrderIndependent | scripts/generate_matrix.py:22-25 | the reduction depends only on which pairs occur, not on their order or repetition |
| Matrix.ReduceLatest | scripts/generate_matrix.py:21-25 | the in-place update loop computes `LatestOf(matches)` |
| Matrix.HigherPatchWins | scripts/generate_matrix.py:24-25 | of two patches for one key the higher is stored, in either order |
| Matrix.LatestKeys | scripts/generate_matrix.py:21-25 | a key is stored iff some recorded pair has it |
| Matrix.LatestValue | scripts/generate_matrix.py:22-25 | the stored patch is recorded for the key and bounds every recorded patch for it |
| Matrix.LatestBound | scripts/generate_matrix.py:14-25 | the stored patch bounds every patch a matching tag gives the key |
| Matrix.CudaFullMap | scripts/generate_matrix.py:27 | `cuda_full_map` has exactly the keys of `latest` |
| Matrix.CudaFullMapAt | scripts/generate_matrix.py:27 | `cuda_full_map[k]` is `k`, a dot and `str` of the stored patch |
| Matrix.FullMapKeys | scripts/generate_matrix.py:14-27 | the keys of `cuda_full_map` are exactly the `major.minor` of the matching tags |
| Matrix.FullMapValue | scripts/generate_matrix.py:14-27 | each value is the key, a dot, and the highest patch some matching tag gives the key |
| Matrix.FullVersionPatch | scripts/generate_matrix.py:27 | the patch can be read back from a full version: after its last dot |
| Matrix.FullMapTagKeys | scripts/generate_matrix.py:14-27 | a string is a key of `cuda_full_map` iff it is the `major.minor` of some matching tag |
| Matrix.FullMapReadable | scripts/generate_matrix.py:14-27 | every key of `cuda_full_map` is a version `ver2tuple` can read |
| Matrix.Excluded | scripts/generate_matrix.py:56-60 | a torch `major.minor` without a ceiling is never excluded; a failure is `ver2tuple` failing on the version it names |
| Matrix.ExcludedMeaning | scripts/generate_matrix.py:56-60 | a pair is kept iff the torch `major.minor` has no ceiling, or both versions convert and the CUDA tuple is not above the ceiling's |
| Matrix.ExcludedError | scripts/generate_matrix.py:59 | the exclusion test fails only on a version `ver2tuple` cannot read, and names it |
| Matrix.ExcludedReadable | scripts/generate_matrix.py:59 | with readable versions the exclusion test does not fail |
| Matrix.BlacklistExclusions | scripts/generate_matrix.py:40-42 | with the script's table, torch `2.8.x` is dropped for CUDA `a.b` exactly when `(a, b)` is above `(12, 9)` |
| Matrix.BlacklistOthers | scripts/generate_matrix.py:40-42 | any other torch `major.minor` is never dropped |
| Matrix.TorchMajor | scripts/generate_matrix.py:56 | `torch.rsplit(".", 1)[0]` of `2.8.<patch>` is `2.8` |
| Matrix.CeilingTuple | scripts/generate_matrix.py:41 | the ceiling `12.9` converts to `(12, 9)` |
| Matrix.PairTuple | scripts/generate_matrix.py:45-46 | `ver2tuple` of `a.b` for digit runs is the pair of their values |
| Matrix.TorchRows | scripts/generate_matrix.py:55-68 | the inner loop emits at most one entry per torch version, each with this CUDA version and its full version; it fails only with `InvalidVersion` |
| Matrix.MatrixRows | scripts/generate_matrix.py:49-68 | every emitted entry's CUDA version is a key of `cuda_full_map` and the entry carries its value |
| Matrix.Generate | scripts/generate_matrix.py:14-68 | every emitted CUDA version is the `major.minor` of some matching tag |
| Matrix.TorchRowsAbort | scripts/generate_matrix.py:59 | an exception inside the inner loop is the inner loop's outcome |
| Matrix.MatrixRowsAbort | scripts/generate_matrix.py:53 | an exception inside the outer loop is the run's outcome |
| Matrix.TorchEntries | scripts/generate_matrix.py:55-68 | the inner loop computes `TorchRows` |
| Matrix.BuildMatrix | scripts/generate_matrix.py:49-68 | the outer loop computes `MatrixRows`, including the abort |
| Matrix.GenerateMatrix | scripts/generate_matrix.py:14-68 | the script body computes `Generate` from tags, lists and table |
| Matrix.Row | scripts/generate_matrix.py:55 | the pairs of one CUDA version with every torch version, in order |
| Matrix.Cross | scripts/generate_matrix.py:51-55 | the cross product has `|cudas| * |torches|` pairs |
| Matrix.CrossAt | scripts/generate_matrix.py:51-55 | pair `(i, j)` is at position `i * |torches| + j` of the cross product |
| Matrix.CrossHas | scripts/generate_matrix.py:51-55 | every pair of a CUDA version with a torch version is in the cross product |
| Matrix.CrossFrom | scripts/generate_matrix.py:51-55 | every element of the cross product is such a pair |
| Matrix.KeptMembers | scripts/generate_matrix.py:55-68 | an entry is kept iff some pair survives the table and yields it |
| Matrix.KeptHas | scripts/generate_matrix.py:55-68 | a surviving pair's entry is kept |
| Matrix.KeptAppend | scripts/generate_matrix.py:55-68 | keeping distributes over concatenation |
| Matrix.TorchRowsKept | scripts/generate_matrix.py:55-68 | the inner loop's entries are the kept entries of that CUDA version's row |
| Matrix.MatrixIsFilteredCross | scripts/generate_matrix.py:49-68 | without an abort, `matrix["include"]` is the cross product of the stripped CUDA list with the torch list, in that order, minus the excluded pairs |
| Matrix.OkCoversCudas | scripts/generate_matrix.py:51-54 | without an abort, every requested CUDA version (stripped) has a full version |
| Matrix.ExclusionSound | scripts/generate_matrix.py:55-68 | every emitted entry is a requested CUDA version with its full version and a stripped requested torch version that the table allows |
| Matrix.ExclusionComplete | scripts/generate_matrix.py:49-68 | every requested pair the table allows is emitted with its CUDA version's full version |
| Matrix.MissingCudaAborts | scripts/generate_matrix.py:51-53 | a requested CUDA version missing from `cuda_full_map` makes the run abort |
| Matrix.AbortCause | scripts/generate_matrix.py:51-60 | an abort names a requested CUDA version missing from the map, or a version `ver2tuple` cannot read |
| Matrix.TorchRowsCause | scripts/generate_matrix.py:59 | the inner loop fails only on an unreadable version |
| Matrix.TorchRowsOk | scripts/generate_matrix.py:55-60 | with readable versions the inner loop never fails |
| Matrix.MatrixOkIff | scripts/generate_matrix.py:51-60 | with readable keys and ceilings, the run produces a matrix iff every requested CUDA version is in the map |
| Matrix.GenerateOkIff | scripts/generate_matrix.py:14-68 | with readable ceilings, the run produces a matrix iff every requested CUDA version is the `major.minor` of some matching tag |
| Matrix.GenerateFullVersions | scripts/generate_matrix.py:49-68 | every emitted entry carries `cuda_full_map[cuda]` |
| Versions.VerToTuple | scripts/generate_matrix.py:45-46 | a successful `ver2tuple` has one integer per dot-separated piece, each the value `int()` gives that piece; it fails iff some piece is one `int()` rejects |
| Versions.IntsOf | scripts/generate_matrix.py:46 | a successful conversion has, piece by piece, the value `int()` gives it; it fails iff some piece is one `int()` rejects |
| Versions.IntsOfFails | scripts/generate_matrix.py:46 | a piece `int()` cannot read makes the conversion fail |
| Versions.VerToTupleDigits | scripts/generate_matrix.py:45-46 | a version of dot-separated digit runs converts to their decimal values |
| Versions.IntsOfDigits | scripts/generate_matrix.py:46 | digit runs convert to their decimal values |
| Versions.ParseNats | scripts/generate_matrix.py:46 | one value per digit run |
| Versions.TupleLess | scripts/generate_matrix.py:59 | Python's tuple `<`: below iff the first is a proper prefix of the second, or they agree up to a position where the first is smaller (`DiffAt`) |
| Versions.DiffAtStep | scripts/generate_matrix.py:59 | that characterisation, decided on the first components |
| Versions.TupleLessIrreflexive | scripts/generate_matrix.py:59 | no tuple is below itself |
| Versions.TupleLessTransitive | scripts/generate_matrix.py:59 | the tuple order is transitive |
| Versions.TupleLessTotal | scripts/generate_matrix.py:59 | two different tuples are ordered one way or the other |
| Versions.VersionGreater | scripts/generate_matrix.py:59 | the comparison is the tuple order when both convert, and otherwise names the version that failed, the left one first |
| Versions.VersionGreaterDigits | scripts/generate_matrix.py:45-46 | on digit-run versions the comparison is the tuple order of the decimal values |
| Versions.TupleOrderExamples | scripts/generate_matrix.py:59 | `(12, 10)` and `(13, 0)` are above `(12, 9)` and `(12, 9)` is not above itself |
| Versions.NonNumericRejected | scripts/generate_matrix.py:45-46 | a component with a character `int()` rejects makes `ver2tuple` fail and the comparison name that version |
| Text.ParseNatToString | scripts/generate_matrix.py:27 | `int(str(n)) == n` |
| Text.NatToString | scripts/generate_matrix.py:27 | `str(n)` is a digit run without a leading zero |
| Text.TrimStartSpaces | scripts/generate_matrix.py:52 | `lstrip` removes whitespace only, and all of it |
| Text.TrimEndSpaces | scripts/generate_matrix.py:52 | `rstrip` removes whitespace only, and all of it |
| Text.PyInt | scripts/generate_matrix.py:46 | `int()` succeeds only on a string that holds a digit |
| Text.StripShape | scripts/generate_matrix.py:52 | `strip` keeps a slice, the removed ends are whitespace and the result has none at either end |
| Text.StripNoSpace | scripts/generate_matrix.py:52 | a string without whitespace is its own `strip` |
| Text.JoinLength | scripts/generate_pages.py:13-15 | a dotted version's length is its pieces' lengths plus one dot between each two neighbours |
| Text.JoinAt | scripts/generate_pages.py:13-15 | a dotted version holds every piece whole and in order: piece `i` starts after the earlier pieces and a dot after each, and a dot follows every piece but the last |
| Text.JoinSplit | scripts/generate_matrix.py:46 | joining the pieces of a split gives the string back |
| Text.SplitJoin | scripts/generate_matrix.py:46 | splitting a join of dot-free pieces gives the pieces back |
| Text.Split | scripts/generate_matrix.py:46 | a split has at least one piece and no piece contains the separator |
| Text.RSplitHead | scripts/generate_matrix.py:56 | `rsplit(".", 1)[0]` is the prefix before the last dot, or the whole string when there is no dot |
| Text.LastIndexOf | scripts/generate_matrix.py:56 | the index found holds the last separator, or there is none |
| Text.RSplitHeadJoin | scripts/generate_matrix.py:56 | `rsplit(".", 1)[0]` of a join drops the last piece |
| Text.Take | scripts/generate_pages.py:57 | `s[:n]` is the prefix of length `min(|s|, n)` |
| Text.RemoveChar | scripts/generate_pages.py:65 | `replace(c, "")` leaves no `c` and only characters of the input |
| Text.RemoveCharJoin | scripts/generate_pages.py:65 | removing the separator from a join concatenates the pieces |
| Text.PyIntDigits | scripts/generate_matrix.py:46 | `int()` of a digit run is its decimal value |
| Text.PyIntRejects | scripts/generate_matrix.py:46 | `int()` of a string holding a character that is no digit, sign, underscore or whitespace fails |
| Scan.Span | scripts/generate_pages.py:13-18 | the longest run of a class at the start of a string |
| Scan.RunThen | scripts/generate_pages.py:17-18 | `[a-f0-9]+` followed by a literal: what it accepts is the run, the literal and the rest |
| Scan.RunThenOf | scripts/generate_pages.py:17-18 | every run followed by the literal is accepted with that run |
| Scan.FixedThen | scripts/generate_pages.py:14 | `\d{n}` followed by a literal: what it accepts is `n` digits, the literal and the rest |
| Scan.FixedThenOf | scripts/generate_pages.py:14 | every `n` digits followed by the literal are accepted |
| Scan.FixedThenDigitNext | scripts/generate_pages.py:18 | a digit where the literal should start means no match |
| Scan.VersionThen | scripts/generate_matrix.py:14 | `\d+(\.\d+){n-1}` followed by a literal: what it accepts is `n` dotted digit runs, the literal and the rest |
| Scan.VersionThenOf | scripts/generate_pages.py:13-15 | every `n` dotted digit runs followed by the literal are accepted with those runs |
| Wheels.AbiThen | scripts/generate_pages.py:16-17 | accepts `TRUE` or `FALSE` followed by `+g` |
| Wheels.AbiThenOf | scripts/generate_pages.py:16-17 | both flags are accepted |
| Wheels.MatchBaseDate | scripts/generate_pages.py:13-14 | accepts exactly a three-part base version, `+`, eight digits and `+cu` |
| Wheels.MatchBaseDateOf | scripts/generate_pages.py:13-14 | every such text is accepted with its own captures |
| Wheels.MatchCudaTorch | scripts/generate_pages.py:14-16 | accepts exactly a two-part CUDA version, `torch`, a three-part torch version and `cxx11abi` |
| Wheels.MatchCudaTorchOf | scripts/generate_pages.py:14-16 | every such text is accepted with its own captures |
| Wheels.MatchBuild | scripts/generate_pages.py:16-18 | accepts exactly the flag, `+g`, a lower-case hex run and `-cp` |
| Wheels.MatchBuildOf | scripts/generate_pages.py:16-18 | every such text is accepted with its own captures |
| Wheels.MatchFront | scripts/generate_pages.py:12-18 | what the pattern accepts up to `-cp` is a valid front rendered |
| Wheels.MatchFrontOf | scripts/generate_pages.py:12-18 | every valid front is accepted with its own captures |
| Wheels.MatchWheel | scripts/generate_pages.py:12-19 | a match is a valid front, two digits, `-` and a tail with `linux` before a `.whl` on the first line |
| Wheels.MatchWheelOf | scripts/generate_pages.py:12-19 | every name of the pattern's form is matched with its own captures |
| Wheels.MatchWheelNone | scripts/generate_pages.py:12-19 | the match fails iff the name has no such form |
| Wheels.TailMatchesIff | scripts/generate_pages.py:18 | the tail after `-cpXY-` matches `.*linux.*\.whl` iff it reads some text, `linux`, more text and `.whl`, with no newline before that `.whl` |
| Wheels.TrailingTextIgnored | scripts/generate_pages.py:39 | text after a matching name leaves the captures unchanged, since `.match` has no end anchor |
| Wheels.LongPythonTagRejected | scripts/generate_pages.py:18 | a three-digit interpreter tag such as `-cp310-` is never matched |
| Wheels.LinuxRequired | scripts/generate_pages.py:18 | a name without `linux` after `-cpXY-` is never matched |
| Wheels.InfoOf | scripts/generate_pages.py:42-50 | the record has exactly the seven keys the dict literal sets |
| Wheels.ParseWheelInfo | scripts/generate_pages.py:38-50 | a returned record has exactly those keys |
| Wheels.NoVersionKey | scripts/generate_pages.py:42-50 | `version` is not one of them |
| Wheels.ParseWheelInfoNone | scripts/generate_pages.py:38-41 | `parse_wheel_info` returns nothing iff the name does not have the pattern's form |
| Wheels.ParseWheelInfoOf | scripts/generate_pages.py:38-50 | a name of the pattern's form yields the record of its own captures |
| Wheels.DigitsHaveNoDot | scripts/generate_pages.py:13-15 | the pieces of a dotted capture contain no dot |
| Wheels.InfoFields | scripts/generate_pages.py:42-50 | a parsed record has the file name unchanged, an 8-digit date, versions of 3, 2 and 3 digit runs, `TRUE` or `FALSE`, and a Python version digit, dot, digit |
| Wheels.InfoOfFields | scripts/generate_pages.py:42-50 | the same shapes for the record of any valid match |
| Organize.FieldName | scripts/generate_pages.py:75 | the key read for `flash_version` is in the record iff it is the intended `base_version` |
| Organize.GroupKey | scripts/generate_pages.py:65 | the key starts with `cu` and holds no dot |
| Organize.GroupKeyPieces | scripts/generate_pages.py:65 | the key is `cu`, the CUDA pieces, `_torch`, the torch pieces |
| Organize.GroupKeyDigits | scripts/generate_pages.py:65 | for `a.b` and `x.y.z` the key is `cu<a><b>_torch<x><y><z>`, so `12.3` with `2.4.0` gives `cu123_torch240` |
| Organize.GroupKeyMerges | scripts/generate_pages.py:65 | moving a dot inside the CUDA version gives the same key |
| Organize.Items | scripts/generate_pages.py:56-58 | the loops visit one item per asset of the releases |
| Organize.ReleaseItems | scripts/generate_pages.py:57-58 | each asset of a release is visited with the first ten characters of `published_at` |
| Organize.ItemsAppend | scripts/generate_pages.py:56-58 | the visiting order composes over concatenated release lists |
| Organize.ItemsFrom | scripts/generate_pages.py:56-58 | each visited item is an asset of some release with its release's date |
| Organize.ItemsHas | scripts/generate_pages.py:56-58 | every asset of every release is visited |
| Organize.ContinueAppend | scripts/generate_pages.py:56-58 | the loop over `a + b` is the loop over `a` then over `b` |
| Organize.ContinueErr | scripts/generate_pages.py:75 | once an exception is raised the remaining assets are not looked at |
| Organize.AddItem | scripts/generate_pages.py:59-77 | the loop body raises iff the asset is a parsed wheel whose record lacks the key read for `flash_version`, and then raises `KeyError` with that key; otherwise it keeps every group as a prefix of its new contents and leaves no group empty that was not |
| Organize.Continue | scripts/generate_pages.py:56-77 | once raised the exception is the result; otherwise the loops only extend groups and leave none empty |
| Organize.OrganizeItems | scripts/generate_pages.py:56-79 | a returned dict has no empty group |
| Organize.Organize | scripts/generate_pages.py:52-79 | `organize_wheels` returns no key without a wheel |
| Organize.AddItemSkip | scripts/generate_pages.py:59-61 | an asset that is not a `.whl` or does not parse leaves `organized` unchanged |
| Organize.AddItemFails | scripts/generate_pages.py:75 | a parsed wheel whose record lacks the key read for `flash_version` raises `KeyError` |
| Organize.AddItemFiles | scripts/generate_pages.py:62-77 | a parsed wheel's record is appended to the end of its group, created if missing |
| Organize.FileAsset | scripts/generate_pages.py:59-77 | the loop body computes `AddItem` |
| Organize.FileAssets | scripts/generate_pages.py:58-77 | the inner loop folds the body over the release's assets |
| Organize.OrganizeWheels | scripts/generate_pages.py:52-79 | the nested loops compute `Organize` |
| Organize.AnyParsedItems | scripts/generate_pages.py:56-61 | some visited item parses iff some release holds a `.whl` asset that parses |
| Organize.AsWrittenOutcome | scripts/generate_pages.py:59-75 | reading `info['version']`, the loops raise `KeyError('version')` if any item parses and return `{}` otherwise |
| Organize.AsWrittenRaises | scripts/generate_pages.py:52-79 | `organize_wheels` as written raises `KeyError('version')` iff a release holds a `.whl` asset that parses, and otherwise returns `{}` |
| Organize.GroupedStep | scripts/generate_pages.py:62-77 | one more item changes the grouping exactly as the loop body does |
| Organize.IntendedGroups | scripts/generate_pages.py:56-79 | reading `base_version`, the loops never raise and build the grouping of the parsed items by key, in visiting order |
| Organize.IntendedOrganize | scripts/generate_pages.py:52-79 | the same for `organize_wheels` over the releases |
| Organize.GroupedKeys | scripts/generate_pages.py:62-67 | a key has a group iff some visited item is filed under it |
| Organize.GroupedEntries | scripts/generate_pages.py:66-77 | every record of a group is the record of a parsed item with that key |
| Organize.IntendedNoWheels | scripts/generate_pages.py:79 | with no wheel that parses the result is `{}` |
| Collections.Traverse | scripts/generate_matrix.py:46 | a successful conversion has, position by position, the value each piece converts to; it fails iff some piece does not convert |
| Collections.TraverseFails | scripts/generate_matrix.py:46 | one piece that cannot be converted makes the whole conversion fail |
| Collections.FilterMapOne | scripts/generate_matrix.py:62-68 | a single item is kept as its value or not at all |
| Collections.FilterMapAppend | scripts/generate_matrix.py:51-68 | keeping distributes over concatenation |
| Collections.FilterMapHas | scripts/generate_matrix.py:51-68 | a value is kept iff some item gives it |
| Collections.Append | scripts/generate_pages.py:66-69 | the dict-of-lists update appends under one key, creating it if missing, and changes no other key |
| Collections.KeysHas | scripts/generate_pages.py:66-67 | a key is present iff some item is filed under it |
| Collections.GroupEmpty | scripts/generate_pages.py:66-67 | a key's group is empty iff no item is filed under it |
| Collections.GroupFrom | scripts/generate_pages.py:69-77 | each value of a group comes from an item filed under that key |
| Collections.GroupBySnoc | scripts/generate_pages.py:66-77 | one more item updates the grouping by one dict-of-lists update |

## Left out

- Fetching tag names from the container registry (scripts/generate_matrix.py:7-13) and releases from the hosting service (scripts/generate_pages.py:31-36) is network I/O. Both are parameters: a sequence of tag names, and a sequence of `Release` values.
- The CI template branches that choose the version lists (scripts/generate_matrix.py:29-38) are text substituted by the CI system. The two lists are parameters. The exclusion table is a parameter of every function, and the script's own table is `Matrix.Blacklist`.
- Serialising the matrix to JSON, writing `GITHUB_OUTPUT` and printing (scripts/generate_matrix.py:70-77) are output only.
- HTML rendering, page writing, the generator's constructor and `main` with its argument parsing (scripts/generate_pages.py:21-29, 81-239) are templating and file I/O, not part of this model.
- Python's `\d` and `int()` also accept non-ASCII decimal digits. The model accepts ASCII digits only.
- The JSON records are assumed to carry every key the scripts read (`name`, `results`, `published_at`, `assets`, `browser_download_url`, `size`, `created_at`). A `KeyError` from a malformed record is not modelled. Assets are typed values.
- `published_at` is assumed to be a string (`Organize.Release.publishedAt`). The hosting service reports `null` for a draft release. There `release['published_at'][:10]` (scripts/generate_pages.py:57) raises `TypeError` before any asset is looked at, so the whole run aborts even for a release without wheels. The model does not capture that abort.
- The commit hash after `+g` is matched (`Wheels.Front.hash`) but, as in the script, not captured into the record.
- As written, the loop body inserts an empty group before it raises `KeyError`. The exception leaves `organize_wheels`, so that dict is never observed, and the model returns only the error.
- The example name in the comment at scripts/generate_pages.py:11 is rejected by the pattern itself, on three counts: `cu12` has no dot where `\d+\.\d+` needs one, `torch2.4` has two parts where three are needed, and `\d{2}-` rejects `cp310` (`Wheels.LongPythonTagRejected`). The comment is stale; the model follows the pattern.
- Matrix.MatrixRows: its own contract states only what a successful run emits. What an abort names is proved separately, in `Matrix.AbortCause` and `Matrix.MatrixOkIff`.
- Matrix.Generate: its own contract states only what a successful run emits. When it aborts is proved separately, in `Matrix.GenerateOkIff`.
- Text.PyInt: its contract states only that a success holds a digit. The value is proved for digit runs (`Text.PyIntDigits`), and failure for strings with a character `int()` rejects (`Text.PyIntRejects`). Signed, underscored and space-padded strings are modelled, but no lemma states their values.

## Findings

| source | as written | input that shows it | evidently intended | confidence | as-written member | corrected member |
|---|---|---|---|---|---|---|
| scripts/generate_pages.py:75 | `flash_version` is read from `info['version']`, a key `parse_wheel_info` (lines 42-50) never sets, so the first asset that parses raises `KeyError` and no index is produced | a release with the asset `flash_attn-3.0.0+20240905+cu12.3torch2.4.0cxx11abiFALSE+g123456-cp39-cp39-linux_x86_64.whl` | read `info['base_version']`, the captured base version | high, not executed | Organize.AsWrittenRaises | Organize.IntendedOrganize |
