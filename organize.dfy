/**
 * `organize_wheels` from scripts/generate_pages.py: the release assets whose
 * names end in `.whl` and parse are grouped under the key
 * `cu<cuda without dots>_torch<torch without dots>`, each group in release
 * order, then asset order.  The fetched releases are an input.
 *
 * The record built for an asset reads `info['version']`, a key that
 * `parse_wheel_info` never sets, so the script as written raises `KeyError`
 * on the first asset that parses.  The model keeps the key the record reads
 * as a parameter: `"version"` is the script as written, `"base_version"` the
 * evidently intended field.
 */
module Organize {
  import opened Wrappers
  import opened Text
  import opened Wheels
  import opened Collections

  /** The fields of a release asset the script reads. */
  datatype Asset = Asset(name: string, downloadUrl: string, size: int, createdAt: string)

  /** A release: its `published_at` timestamp and its assets. */
  datatype Release = Release(publishedAt: string, assets: seq<Asset>)

  /** One record appended to a group. */
  datatype WheelEntry = WheelEntry(filename: string, downloadUrl: string, size: int, createdAt: string,
                                   pythonVersion: string, flashVersion: string, releaseDate: string)

  /** Why `organize_wheels` raises: a key missing from the parsed record. */
  datatype OrganizeError = KeyError(key: string)

  /**
   * The key the record's `flash_version` is read from: `version` as the script
   * is written, `base_version` as it evidently means.
   */
  datatype VersionField = AsWritten | Intended

  function FieldName(field: VersionField): (name: string)
    ensures name in InfoKeys <==> field == Intended
  {
    match field
    case AsWritten => "version"
    case Intended => "base_version"
  }

  // ---------------------------------------------------------------------------
  // The group key
  // ---------------------------------------------------------------------------

  /** `f"cu{cuda_ver.replace('.', '')}_torch{torch_ver.replace('.', '')}"`. */
  function GroupKey(cuda: string, torch: string): (k: string)
    ensures '.' !in k
    ensures |k| >= 8 && k[..2] == "cu"
  {
    "cu" + RemoveChar(cuda, '.') + "_torch" + RemoveChar(torch, '.')
  }

  /** Dropping the dots concatenates the pieces between them. */
  lemma RemoveDots(s: string)
    ensures RemoveChar(s, '.') == Concat(Split(s, '.'))
  {
    JoinSplit(s, '.');
    RemoveCharJoin(Split(s, '.'), '.');
  }

  /** The key spells the CUDA pieces after `cu` and the torch pieces after `_torch`. */
  lemma GroupKeyPieces(cuda: string, torch: string)
    ensures GroupKey(cuda, torch) == "cu" + Concat(Split(cuda, '.')) + "_torch" + Concat(Split(torch, '.'))
  {
    RemoveDots(cuda);
    RemoveDots(torch);
  }

  /** Dropping the one dot between two dot-free pieces joins them. */
  lemma DropOneDot(x: string, y: string)
    requires '.' !in x && '.' !in y
    ensures RemoveChar(x + "." + y, '.') == x + y
  {
    var xd := x + ".";
    RemoveCharAppend(xd, y, '.');
    RemoveCharAppend(x, ".", '.');
    RemoveCharAbsent(x, '.');
    RemoveCharAbsent(y, '.');
    DotRemoved();
    assert RemoveChar(xd, '.') == x + "";
    assert x + "" == x;
  }

  lemma DotRemoved()
    ensures RemoveChar(".", '.') == ""
  {
    assert "."[1..] == "";
  }

  /**
   * The key forgets where the dots were: moving a dot inside the CUDA version
   * (`1.23` and `12.3`) gives the same key, so such wheels share one group.
   */
  lemma GroupKeyMerges(a: string, b: string, c: string, torch: string)
    requires '.' !in a && '.' !in b && '.' !in c && b != []
    ensures a + b + "." + c != a + "." + b + c
    ensures GroupKey(a + b + "." + c, torch) == GroupKey(a + "." + b + c, torch)
  {
    DropOneDot(a + b, c);
    DropOneDot(a, b + c);
    assert a + "." + b + c == a + "." + (b + c);
    assert a + b + c == a + (b + c);
    assert (a + b + "." + c)[|a|] == b[0];
    assert (a + "." + b + c)[|a|] == '.';
  }

  /**
   * On versions of the pattern's shape the key spells the digit runs in order:
   * CUDA `12.3` with torch `2.4.0` gives `cu123_torch240`.
   */
  lemma GroupKeyDigits(a: string, b: string, x: string, y: string, z: string)
    requires '.' !in a && '.' !in b && '.' !in x && '.' !in y && '.' !in z
    ensures GroupKey(a + "." + b, x + "." + y + "." + z) == "cu" + a + b + "_torch" + x + y + z
  {
    DropOneDot(a, b);
    var torch := [x, y, z];
    assert torch[1..] == [y, z] && torch[1..][1..] == [z] && torch[1..][1..][1..] == [];
    assert Join(torch[1..], '.') == y + "." + z;
    assert Join(torch, '.') == x + "." + (y + "." + z);
    RemoveCharJoin(torch, '.');
    assert Concat(torch[1..][1..]) == z;
    assert Concat(torch) == x + (y + z);
    assert x + "." + y + "." + z == x + "." + (y + "." + z);
    assert RemoveChar(x + "." + y + "." + z, '.') == x + y + z;
  }

  // ---------------------------------------------------------------------------
  // The assets in the order the loops visit them
  // ---------------------------------------------------------------------------

  /** An asset together with the `release_date` of its release. */
  datatype Item = Item(releaseDate: string, asset: Asset)

  /** The assets of one release, each with `release['published_at'][:10]`. */
  function ReleaseItems(r: Release): (items: seq<Item>)
    ensures |items| == |r.assets|
    ensures forall j :: 0 <= j < |items| ==> items[j] == Item(Take(r.publishedAt, 10), r.assets[j])
  {
    seq(|r.assets|, j requires 0 <= j < |r.assets| => Item(Take(r.publishedAt, 10), r.assets[j]))
  }

  /** How many assets the releases hold together. */
  function AssetCount(releases: seq<Release>): nat {
    if releases == [] then 0 else AssetCount(releases[..|releases| - 1]) + |releases[|releases| - 1].assets|
  }

  /** Every asset of every release: release order first, asset order second. */
  function Items(releases: seq<Release>): (items: seq<Item>)
    ensures |items| == AssetCount(releases)
  {
    if releases == [] then []
    else Items(releases[..|releases| - 1]) + ReleaseItems(releases[|releases| - 1])
  }

  /** The visiting order composes: the releases of `a` come before those of `b`. */
  lemma {:induction false} ItemsAppend(a: seq<Release>, b: seq<Release>)
    ensures Items(a + b) == Items(a) + Items(b)
  {
    if b == [] {
      assert a + b == a;
    } else {
      var bf, last := b[..|b| - 1], b[|b| - 1];
      assert (a + b)[..|a + b| - 1] == a + bf;
      assert (a + b)[|a + b| - 1] == last;
      calc {
        Items(a + b);
        Items(a + bf) + ReleaseItems(last);
        { ItemsAppend(a, bf); }
        (Items(a) + Items(bf)) + ReleaseItems(last);
        Items(a) + (Items(bf) + ReleaseItems(last));
      }
    }
  }

  /** Each item is an asset of some release, carrying the first ten characters of its timestamp. */
  lemma {:induction false} ItemsFrom(releases: seq<Release>, n: nat)
    requires n < |Items(releases)|
    ensures exists i, j :: && 0 <= i < |releases| && 0 <= j < |releases[i].assets|
                           && Items(releases)[n] == Item(Take(releases[i].publishedAt, 10), releases[i].assets[j])
  {
    var front := releases[..|releases| - 1];
    var m := |Items(front)|;
    if n < m {
      ItemsFrom(front, n);
      var i, j :| && 0 <= i < |front| && 0 <= j < |front[i].assets|
                  && Items(front)[n] == Item(Take(front[i].publishedAt, 10), front[i].assets[j]);
      assert front[i] == releases[i];
    } else {
      var i := |releases| - 1;
      assert Items(releases)[n] == ReleaseItems(releases[i])[n - m];
    }
  }

  // ---------------------------------------------------------------------------
  // The loops as a fold
  // ---------------------------------------------------------------------------

  /** Whether the loop body files this asset: its name ends in `.whl` and parses. */
  predicate Parsed(a: Asset) {
    EndsWith(a.name, ".whl") && ParseWheelInfo(a.name).Some?
  }

  /** The group of a filed asset. */
  function KeyOf(a: Asset): string
    requires Parsed(a)
  {
    var info := ParseWheelInfo(a.name).value;
    assert "cuda_version" in InfoKeys && "torch_version" in InfoKeys;
    GroupKey(info["cuda_version"], info["torch_version"])
  }

  /** The record appended for a filed asset, its version read from `info[FieldName(field)]`. */
  function EntryOf(it: Item, field: VersionField): WheelEntry
    requires Parsed(it.asset) && FieldName(field) in InfoKeys
  {
    var info := ParseWheelInfo(it.asset.name).value;
    assert "filename" in InfoKeys && "python_version" in InfoKeys;
    WheelEntry(info["filename"], it.asset.downloadUrl, it.asset.size, it.asset.createdAt,
               info["python_version"], info[FieldName(field)], it.releaseDate)
  }

  /** Every group of `org` holds at least one record. */
  predicate NoEmptyGroup(org: map<string, seq<WheelEntry>>) {
    forall k :: k in org ==> org[k] != []
  }

  /** `org2` keeps every group of `org`, each as a prefix of its new contents. */
  predicate Extends(org: map<string, seq<WheelEntry>>, org2: map<string, seq<WheelEntry>>) {
    forall k :: k in org ==> k in org2 && org[k] <= org2[k]
  }

  /**
   * One pass of the inner loop body: it raises exactly when the asset is a
   * parsed wheel whose record lacks the key read for its version; otherwise
   * it only appends, so no group is lost, shortened or left empty.
   */
  function AddItem(org: map<string, seq<WheelEntry>>, it: Item, field: VersionField)
    : (r: Result<map<string, seq<WheelEntry>>, OrganizeError>)
    ensures r.Err? <==> Parsed(it.asset) && FieldName(field) !in InfoKeys
    ensures r.Err? ==> r.error == KeyError(FieldName(field))
    ensures r.Ok? ==> Extends(org, r.value)
    ensures r.Ok? && NoEmptyGroup(org) ==> NoEmptyGroup(r.value)
  {
    if !Parsed(it.asset) then Ok(org)
    else if FieldName(field) !in InfoKeys then Err(KeyError(FieldName(field)))
    else
      var key := KeyOf(it.asset);
      var group := if key in org then org[key] else [];
      var entry := EntryOf(it, field);
      AppendExtends(org, key, entry);
      Ok(org[key := group + [entry]])
  }

  /** Appending a record to a group, created empty if missing, keeps every group and empties none. */
  lemma AppendExtends(org: map<string, seq<WheelEntry>>, key: string, entry: WheelEntry)
    ensures var org2 := org[key := (if key in org then org[key] else []) + [entry]];
            Extends(org, org2) && (NoEmptyGroup(org) ==> NoEmptyGroup(org2))
  {
  }

  /** The fold of the loop body over `items`, starting from `start`. */
  function Continue(start: Result<map<string, seq<WheelEntry>>, OrganizeError>, items: seq<Item>, field: VersionField)
    : (r: Result<map<string, seq<WheelEntry>>, OrganizeError>)
    ensures start.Err? ==> r == start
    ensures r.Ok? ==> start.Ok? && Extends(start.value, r.value)
    ensures r.Ok? && NoEmptyGroup(start.value) ==> NoEmptyGroup(r.value)
  {
    if items == [] then start
    else
      match Continue(start, items[..|items| - 1], field)
      case Err(e) => Err(e)
      case Ok(org) => AddItem(org, items[|items| - 1], field)
  }

  /** `organized` after the loops have seen `items`, or the error they raise. */
  function OrganizeItems(items: seq<Item>, field: VersionField): (r: Result<map<string, seq<WheelEntry>>, OrganizeError>)
    ensures r.Ok? ==> NoEmptyGroup(r.value)
  {
    Continue(Ok(map[]), items, field)
  }

  /** `organize_wheels(releases)`, with the record's version read from `field`. */
  function Organize(releases: seq<Release>, field: VersionField): (r: Result<map<string, seq<WheelEntry>>, OrganizeError>)
    ensures r.Ok? ==> NoEmptyGroup(r.value)
  {
    OrganizeItems(Items(releases), field)
  }

  /** Folding over `a + b` is folding over `a`, then over `b`. */
  lemma {:induction false} ContinueAppend(start: Result<map<string, seq<WheelEntry>>, OrganizeError>,
                                          a: seq<Item>, b: seq<Item>, field: VersionField)
    ensures Continue(start, a + b, field) == Continue(Continue(start, a, field), b, field)
  {
    if b == [] {
      assert a + b == a;
    } else {
      var bf := b[..|b| - 1];
      assert (a + b)[..|a + b| - 1] == a + bf;
      assert (a + b)[|a + b| - 1] == b[|b| - 1];
      ContinueAppend(start, a, bf, field);
    }
  }

  /** One more item: the fold so far, then the loop body once more unless it has raised. */
  lemma ContinueStep(start: Result<map<string, seq<WheelEntry>>, OrganizeError>, items: seq<Item>, j: nat,
                     field: VersionField)
    requires j < |items|
    ensures Continue(start, items[..j + 1], field)
            == match Continue(start, items[..j], field)
               case Err(e) => Err(e)
               case Ok(org) => AddItem(org, items[j], field)
  {
    assert items[..j + 1][..j] == items[..j];
  }

  /** Once raised, the error is the result: the later assets are never looked at. */
  lemma {:induction false} ContinueErr(e: OrganizeError, items: seq<Item>, field: VersionField)
    ensures Continue(Err(e), items, field) == Err(e)
  {
    if items != [] {
      ContinueErr(e, items[..|items| - 1], field);
    }
  }

  /** An asset that is not a parsed wheel leaves `organized` as it is. */
  lemma AddItemSkip(org: map<string, seq<WheelEntry>>, it: Item, field: VersionField)
    requires !Parsed(it.asset)
    ensures AddItem(org, it, field) == Ok(org)
  {
  }

  /** A parsed wheel whose record lacks the key read for its version raises `KeyError`. */
  lemma AddItemFails(org: map<string, seq<WheelEntry>>, it: Item, field: VersionField)
    requires Parsed(it.asset) && FieldName(field) !in InfoKeys
    ensures AddItem(org, it, field) == Err(KeyError(FieldName(field)))
  {
  }

  /** A parsed wheel whose record has the key is appended to the end of its group. */
  lemma AddItemFiles(org: map<string, seq<WheelEntry>>, it: Item, field: VersionField)
    requires Parsed(it.asset) && FieldName(field) in InfoKeys
    ensures var key := KeyOf(it.asset);
            AddItem(org, it, field) == Ok(org[key := (if key in org then org[key] else []) + [EntryOf(it, field)]])
  {
  }

  /** Creating the group when it is missing, then appending, appends to the group or to `[]`. */
  lemma AppendToGroup(m: map<string, seq<WheelEntry>>, k: string, e: WheelEntry)
    ensures var m1 := if k in m then m else m[k := []];
            m1[k := m1[k] + [e]] == m[k := (if k in m then m[k] else []) + [e]]
  {
  }

  /** An error raised within a prefix is the result of the whole fold. */
  lemma ContinueStops(start: Result<map<string, seq<WheelEntry>>, OrganizeError>, items: seq<Item>, j: nat,
                      field: VersionField)
    requires j <= |items| && Continue(start, items[..j], field).Err?
    ensures Continue(start, items, field) == Continue(start, items[..j], field)
  {
    assert items == items[..j] + items[j..];
    ContinueAppend(start, items[..j], items[j..], field);
    ContinueErr(Continue(start, items[..j], field).error, items[j..], field);
  }

  /** The body of the inner loop, lines 59-77, for one asset. */
  method FileAsset(organized: map<string, seq<WheelEntry>>, asset: Asset, releaseDate: string, field: VersionField)
    returns (r: Result<map<string, seq<WheelEntry>>, OrganizeError>)
    ensures r == AddItem(organized, Item(releaseDate, asset), field)
  {
    var org := organized;
    if !EndsWith(asset.name, ".whl") {
      AddItemSkip(organized, Item(releaseDate, asset), field);
      return Ok(org);
    }
    var info := ParseWheelInfo(asset.name);
    if info.None? {
      AddItemSkip(organized, Item(releaseDate, asset), field);
      return Ok(org);
    }
    var cudaVer := info.value["cuda_version"];
    var torchVer := info.value["torch_version"];
    var key := GroupKey(cudaVer, torchVer);
    if key !in org {
      org := org[key := []];
    }
    if FieldName(field) !in info.value {
      AddItemFails(organized, Item(releaseDate, asset), field);
      return Err(KeyError(FieldName(field)));
    }
    var entry := WheelEntry(info.value["filename"], asset.downloadUrl, asset.size, asset.createdAt,
                            info.value["python_version"], info.value[FieldName(field)], releaseDate);
    AddItemFiles(organized, Item(releaseDate, asset), field);
    assert key == KeyOf(asset) && entry == EntryOf(Item(releaseDate, asset), field);
    AppendToGroup(organized, key, entry);
    org := org[key := org[key] + [entry]];
    r := Ok(org);
  }

  /** The inner loop of lines 58-77: the assets of one release, filed into `organized`. */
  method FileAssets(organized: map<string, seq<WheelEntry>>, release: Release, field: VersionField)
    returns (r: Result<map<string, seq<WheelEntry>>, OrganizeError>)
    ensures r == Continue(Ok(organized), ReleaseItems(release), field)
  {
    var items := ReleaseItems(release);
    var releaseDate := Take(release.publishedAt, 10);
    var org := organized;
    for j := 0 to |release.assets|
      invariant Continue(Ok(organized), items[..j], field) == Ok(org)
    {
      ContinueStep(Ok(organized), items, j, field);
      var filed := FileAsset(org, release.assets[j], releaseDate, field);
      if filed.Err? {
        ContinueStops(Ok(organized), items, j + 1, field);
        return filed;
      }
      org := filed.value;
    }
    assert items[..|items|] == items;
    r := Ok(org);
  }

  /** The outer loop of lines 56-77, over the releases in order. */
  method OrganizeWheels(releases: seq<Release>, field: VersionField)
    returns (r: Result<map<string, seq<WheelEntry>>, OrganizeError>)
    ensures r == Organize(releases, field)
  {
    var organized: map<string, seq<WheelEntry>> := map[];
    for i := 0 to |releases|
      invariant OrganizeItems(Items(releases[..i]), field) == Ok(organized)
    {
      assert releases[..i + 1][..i] == releases[..i];
      ContinueAppend(Ok(map[]), Items(releases[..i]), ReleaseItems(releases[i]), field);
      var filed := FileAssets(organized, releases[i], field);
      if filed.Err? {
        assert releases == releases[..i + 1] + releases[i + 1..];
        ItemsAppend(releases[..i + 1], releases[i + 1..]);
        ContinueStops(Ok(map[]), Items(releases), |Items(releases[..i + 1])|, field);
        return filed;
      }
      organized := filed.value;
    }
    assert releases[..|releases|] == releases;
    r := Ok(organized);
  }

  // ---------------------------------------------------------------------------
  // The script as written: `info['version']`
  // ---------------------------------------------------------------------------

  /** Some item is a wheel whose name parses. */
  ghost predicate AnyParsed(items: seq<Item>) {
    exists n :: 0 <= n < |items| && Parsed(items[n].asset)
  }

  /** Some asset of some release is a wheel whose name parses. */
  ghost predicate AnyWheel(releases: seq<Release>) {
    exists i, j :: 0 <= i < |releases| && 0 <= j < |releases[i].assets| && Parsed(releases[i].assets[j])
  }

  /** Appending one item adds it to the items that may parse. */
  lemma AnyParsedSnoc(items: seq<Item>)
    requires items != []
    ensures AnyParsed(items) <==> AnyParsed(items[..|items| - 1]) || Parsed(items[|items| - 1].asset)
  {
    ExistsSnoc(items, (it: Item) => Parsed(it.asset));
  }

  /**
   * Reading `info['version']`, the loops raise `KeyError('version')` at the
   * first asset that parses and, when none parses, return the empty dict.
   */
  lemma {:induction false} AsWrittenOutcome(items: seq<Item>)
    ensures OrganizeItems(items, AsWritten)
            == if AnyParsed(items) then Err(KeyError("version")) else Ok(map[])
  {
    if items != [] {
      var front := items[..|items| - 1];
      var last := items[|items| - 1];
      AsWrittenOutcome(front);
      AnyParsedSnoc(items);
      if !AnyParsed(front) {
        if Parsed(last.asset) {
          AddItemFails(map[], last, AsWritten);
        } else {
          AddItemSkip(map[], last, AsWritten);
        }
      }
    }
  }

  /** Every asset of every release is visited, with its release's date. */
  lemma {:induction false} ItemsHas(releases: seq<Release>, i: nat, j: nat)
    requires i < |releases| && j < |releases[i].assets|
    ensures Item(Take(releases[i].publishedAt, 10), releases[i].assets[j]) in Items(releases)
  {
    var front := releases[..|releases| - 1];
    if i < |front| {
      ItemsHas(front, i, j);
      assert front[i] == releases[i];
    } else {
      assert ReleaseItems(releases[i])[j] in ReleaseItems(releases[|releases| - 1]);
    }
  }

  /** Some visited item parses exactly when some release holds a wheel that parses. */
  lemma AnyParsedItems(releases: seq<Release>)
    ensures AnyParsed(Items(releases)) <==> AnyWheel(releases)
  {
    if AnyParsed(Items(releases)) {
      var n :| 0 <= n < |Items(releases)| && Parsed(Items(releases)[n].asset);
      ItemsFrom(releases, n);
    }
    if AnyWheel(releases) {
      var i, j :| 0 <= i < |releases| && 0 <= j < |releases[i].assets| && Parsed(releases[i].assets[j]);
      ItemsHas(releases, i, j);
    }
  }

  /**
   * `organize_wheels` as written raises `KeyError('version')` exactly when a
   * release holds a `.whl` asset whose name parses; otherwise it returns `{}`.
   */
  lemma AsWrittenRaises(releases: seq<Release>)
    ensures Organize(releases, AsWritten)
            == if AnyWheel(releases) then Err(KeyError("version")) else Ok(map[])
  {
    AsWrittenOutcome(Items(releases));
    AnyParsedItems(releases);
  }

  // ---------------------------------------------------------------------------
  // The intended behaviour: `info['base_version']`
  // ---------------------------------------------------------------------------

  /** How the intended loop body files an item: under its key, with its record, or not at all. */
  function Filing(it: Item): Option<(string, WheelEntry)> {
    if Parsed(it.asset) then Some((KeyOf(it.asset), EntryOf(it, Intended))) else None
  }

  /** Grouping of the items by `Filing`: a reference for the dict the loops build. */
  function Grouped(items: seq<Item>): map<string, seq<WheelEntry>> {
    GroupBy(items, Filing)
  }

  /** One more item extends the grouping the way the loop body does. */
  lemma GroupedStep(items: seq<Item>)
    requires items != []
    ensures AddItem(Grouped(items[..|items| - 1]), items[|items| - 1], Intended) == Ok(Grouped(items))
  {
    var last := items[|items| - 1];
    GroupBySnoc(items, Filing);
    if Parsed(last.asset) {
      AddItemFiles(Grouped(items[..|items| - 1]), last, Intended);
    } else {
      AddItemSkip(Grouped(items[..|items| - 1]), last, Intended);
    }
  }

  /**
   * Reading `info['base_version']`, the loops never raise and `organized`
   * is the grouping of the parsed items by key, each group in visiting order.
   */
  lemma {:induction false} IntendedGroups(items: seq<Item>)
    ensures OrganizeItems(items, Intended) == Ok(Grouped(items))
  {
    if items != [] {
      IntendedGroups(items[..|items| - 1]);
      GroupedStep(items);
    }
  }

  /** A key has a group exactly when some item is filed under it. */
  lemma GroupedKeys(items: seq<Item>, k: string)
    ensures k in Grouped(items) <==>
      exists n :: 0 <= n < |items| && Filing(items[n]).Some? && Filing(items[n]).value.0 == k
  {
    KeysHas(items, Filing, k);
  }

  /** Every record of a group is the record of an item that parses and is filed under that key. */
  lemma GroupedEntries(items: seq<Item>, k: string, m: nat)
    requires k in Grouped(items) && m < |Grouped(items)[k]|
    ensures exists n :: && 0 <= n < |items| && Parsed(items[n].asset) && KeyOf(items[n].asset) == k
                        && EntryOf(items[n], Intended) == Grouped(items)[k][m]
  {
    GroupFrom(items, Filing, k, m);
  }

  /** With no wheel that parses, the intended loops return the empty dict. */
  lemma IntendedNoWheels(releases: seq<Release>)
    requires !AnyWheel(releases)
    ensures Organize(releases, Intended) == Ok(map[])
  {
    var items := Items(releases);
    IntendedOrganize(releases);
    AnyParsedItems(releases);
    forall k
      ensures k !in Grouped(items)
    {
      GroupedKeys(items, k);
    }
  }

  /** `organize_wheels` with the intended field: the grouping of every parsed wheel of every release. */
  lemma IntendedOrganize(releases: seq<Release>)
    ensures Organize(releases, Intended) == Ok(Grouped(Items(releases)))
  {
    IntendedGroups(Items(releases));
  }
}
