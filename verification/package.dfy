/** `yarl.package`: the index of a package's items, the naming rules the
    manifests use when indexing, the loader's dispatch on package names
    and the class loader's module table.  Reading manifests, walking
    directories and opening archives are outside the model: the walked
    relative paths and each package's loaded index are parameters. */
module Package {
  import opened Wrappers
  import opened Strings

  /** The pool an item goes to: `LOADER`, `MODULE`, `TILESET`,
      `RESOURCE`. */
  datatype Kind = Loaders | Modules | Tilesets | Resources

  /** The `meta` of an item: absent, a module's `is_package` flag, or a
      loader's `base_package`. */
  datatype ItemMeta = NoMeta | IsPackage(isPackage: bool) | BasePackage(basePackage: string)

  /** The `(path, meta)` pair stored under a name. */
  datatype Item = Item(path: string, meta: ItemMeta)

  type Pool = map<string, Item>

  datatype PackageIndex = PackageIndex(loaders: Pool, modules: Pool, tilesets: Pool, resources: Pool)

  /** `PackageIndex()`. */
  function EmptyIndex(): (idx: PackageIndex)
    ensures forall k :: PoolOf(idx, k) == map[]
  {
    PackageIndex(map[], map[], map[], map[])
  }

  /** `getattr(self, kind)`. */
  function PoolOf(idx: PackageIndex, kind: Kind): Pool
  {
    match kind
    case Loaders => idx.loaders
    case Modules => idx.modules
    case Tilesets => idx.tilesets
    case Resources => idx.resources
  }

  function WithPool(idx: PackageIndex, kind: Kind, pool: Pool): (r: PackageIndex)
    ensures PoolOf(r, kind) == pool
    ensures forall k :: k != kind ==> PoolOf(r, k) == PoolOf(idx, k)
  {
    match kind
    case Loaders => idx.(loaders := pool)
    case Modules => idx.(modules := pool)
    case Tilesets => idx.(tilesets := pool)
    case Resources => idx.(resources := pool)
  }

  /** `add_item(kind, name, path, meta)`: a name already in the pool is a
      `KeyError`; otherwise only that pool gains the entry. */
  function AddItem(idx: PackageIndex, kind: Kind, name: string, path: string, meta: ItemMeta): (r: Result<PackageIndex>)
    ensures r.Ok? <==> name !in PoolOf(idx, kind)
    ensures r.Err? ==> r.error == KeyError
    ensures r.Ok? ==> PoolOf(r.value, kind) == PoolOf(idx, kind)[name := Item(path, meta)]
    ensures r.Ok? ==> forall k :: k != kind ==> PoolOf(r.value, k) == PoolOf(idx, k)
  {
    var pool := PoolOf(idx, kind);
    if name in pool then Err(KeyError)
    else Ok(WithPool(idx, kind, pool[name := Item(path, meta)]))
  }

  /** `has_item(kind, name)`. */
  function HasItem(idx: PackageIndex, kind: Kind, name: string): (r: bool)
    ensures r <==> name in PoolOf(idx, kind)
  {
    name in PoolOf(idx, kind)
  }

  /** `get_item(kind, name)`: the stored pair, or `KeyError`. */
  function GetItem(idx: PackageIndex, kind: Kind, name: string): (r: Result<Item>)
    ensures r.Ok? <==> HasItem(idx, kind, name)
    ensures r.Err? ==> r.error == KeyError
    ensures r.Ok? ==> r.value == PoolOf(idx, kind)[name]
  {
    var pool := PoolOf(idx, kind);
    if name !in pool then Err(KeyError) else Ok(pool[name])
  }

  /** An item added under a new name can be found and read back; every
      other lookup answers as before. */
  lemma AddThenGet(idx: PackageIndex, kind: Kind, name: string, path: string, meta: ItemMeta, k: Kind, n: string)
    requires !HasItem(idx, kind, name)
    ensures AddItem(idx, kind, name, path, meta).Ok?
    ensures var idx' := AddItem(idx, kind, name, path, meta).value;
            && HasItem(idx', kind, name)
            && GetItem(idx', kind, name) == Ok(Item(path, meta))
            && (k != kind || n != name ==> HasItem(idx', k, n) == HasItem(idx, k, n) && GetItem(idx', k, n) == GetItem(idx, k, n))
  {
  }

  /** Adding a name twice fails however the second path and meta differ. */
  lemma AddTwiceFails(idx: PackageIndex, kind: Kind, name: string, p1: string, m1: ItemMeta, p2: string, m2: ItemMeta)
    requires AddItem(idx, kind, name, p1, m1).Ok?
    ensures AddItem(AddItem(idx, kind, name, p1, m1).value, kind, name, p2, m2) == Err(KeyError)
  {
  }

  /** `add_item` for each entry in turn, stopping at the first
      `KeyError`. */
  function AddAll(idx: PackageIndex, kind: Kind, items: seq<(string, Item)>): (r: Result<PackageIndex>)
    ensures r.Err? ==> r.error == KeyError
    ensures r.Ok? ==> forall k :: k != kind ==> PoolOf(r.value, k) == PoolOf(idx, k)
    ensures r.Ok? ==> forall i :: 0 <= i < |items| ==> items[i].0 in PoolOf(r.value, kind)
    ensures r.Ok? ==> forall n :: n in PoolOf(idx, kind) ==> n in PoolOf(r.value, kind) && PoolOf(r.value, kind)[n] == PoolOf(idx, kind)[n]
    decreases |items|
  {
    if |items| == 0 then Ok(idx)
    else
      var idx1 :- AddItem(idx, kind, items[0].0, items[0].1.path, items[0].1.meta);
      AddAll(idx1, kind, items[1..])
  }

  /** No name of `items` is in `pool`. */
  ghost predicate NewNames(pool: Pool, items: seq<(string, Item)>)
  {
    forall i :: 0 <= i < |items| ==> items[i].0 !in pool
  }

  /** No name occurs twice in `items`. */
  ghost predicate DistinctNames(items: seq<(string, Item)>)
  {
    forall i, j :: 0 <= i < j < |items| ==> items[i].0 != items[j].0
  }

  /** The first name is new and different from the rest exactly when the
      rest are new to the pool holding it. */
  lemma NewDistinctCons(pool: Pool, items: seq<(string, Item)>, v: Item)
    requires |items| > 0
    ensures NewNames(pool, items) && DistinctNames(items) <==>
      items[0].0 !in pool && NewNames(pool[items[0].0 := v], items[1..]) && DistinctNames(items[1..])
  {
    assert forall i :: 1 <= i < |items| ==> items[i] == items[1..][i - 1];
  }

  /** Indexing a list succeeds exactly when its names are new and
      pairwise distinct, and then stores each entry under its name. */
  lemma {:induction false} AddAllDistinct(idx: PackageIndex, kind: Kind, items: seq<(string, Item)>)
    ensures AddAll(idx, kind, items).Ok? <==> NewNames(PoolOf(idx, kind), items) && DistinctNames(items)
    ensures AddAll(idx, kind, items).Ok? ==>
      forall i :: 0 <= i < |items| ==> PoolOf(AddAll(idx, kind, items).value, kind)[items[i].0] == items[i].1
    decreases |items|
  {
    if |items| > 0 {
      var r1 := AddItem(idx, kind, items[0].0, items[0].1.path, items[0].1.meta);
      var x, rest := items[0], items[1..];
      NewDistinctCons(PoolOf(idx, kind), items, x.1);
      if r1.Ok? {
        var idx1 := r1.value;
        AddAllDistinct(idx1, kind, rest);
        assert AddAll(idx, kind, items) == AddAll(idx1, kind, rest);
        assert Item(x.1.path, x.1.meta) == x.1;
        assert PoolOf(idx1, kind) == PoolOf(idx, kind)[x.0 := x.1];
        assert forall i :: 1 <= i < |items| ==> items[i] == rest[i - 1];
      }
    }
  }

  // ---------------------------------------------------------------------
  // Serialised index
  // ---------------------------------------------------------------------

  /** The decoded `index.json`: loaders with their pairs, and the meta of
      every module, tileset and resource by name. */
  datatype IndexData = IndexData(
    loaders: Pool,
    modules: map<string, ItemMeta>,
    tilesets: map<string, ItemMeta>,
    resources: map<string, ItemMeta>)

  /** `load(data)`: loaders copied as they are; modules stored under
      `src/<name>`, tilesets under `assets/<name>`, resources under their
      own name. */
  function Load(data: IndexData): (idx: PackageIndex)
    ensures idx.loaders == data.loaders
    ensures idx.modules.Keys == data.modules.Keys && idx.tilesets.Keys == data.tilesets.Keys
    ensures idx.resources.Keys == data.resources.Keys
    ensures forall n :: n in data.modules ==> idx.modules[n] == Item("src/" + n, data.modules[n])
    ensures forall n :: n in data.tilesets ==> idx.tilesets[n] == Item("assets/" + n, data.tilesets[n])
    ensures forall n :: n in data.resources ==> idx.resources[n] == Item(n, data.resources[n])
  {
    PackageIndex(
      data.loaders,
      map n | n in data.modules :: Item("src/" + n, data.modules[n]),
      map n | n in data.tilesets :: Item("assets/" + n, data.tilesets[n]),
      map n | n in data.resources :: Item(n, data.resources[n]))
  }

  function Metas(pool: Pool): (m: map<string, ItemMeta>)
    ensures m.Keys == pool.Keys
    ensures forall n :: n in pool ==> m[n] == pool[n].meta
  {
    map n | n in pool :: pool[n].meta
  }

  /** The `json` property as written: the `tilesets` and `resources`
      entries are both taken from the module pool. */
  function Json(idx: PackageIndex): IndexData
  {
    IndexData(idx.loaders, Metas(idx.modules), Metas(idx.modules), Metas(idx.modules))
  }

  /** Through `json` and `load` the loaders survive unchanged and the
      modules keep their names and metas, now stored under `src/`. */
  lemma JsonKeepsModules(idx: PackageIndex)
    ensures Load(Json(idx)).loaders == idx.loaders
    ensures Load(Json(idx)).modules.Keys == idx.modules.Keys
    ensures forall n :: n in idx.modules ==>
      Load(Json(idx)).modules[n] == Item("src/" + n, idx.modules[n].meta)
  {
  }

  /** Through `json` and `load` the tileset and resource pools are
      replaced by the module names: a tileset that is not also a module
      name is lost, and every module reappears as a tileset. */
  lemma JsonLosesTilesets(idx: PackageIndex, n: string)
    ensures HasItem(Load(Json(idx)), Tilesets, n) <==> HasItem(idx, Modules, n)
    ensures HasItem(Load(Json(idx)), Resources, n) <==> HasItem(idx, Modules, n)
    ensures HasItem(idx, Tilesets, n) && !HasItem(idx, Modules, n) ==> !HasItem(Load(Json(idx)), Tilesets, n)
  {
  }

  // ---------------------------------------------------------------------
  // Names used while indexing
  // ---------------------------------------------------------------------

  const InitFile := "__init__.py"

  /** The name and package flag `SourcesManifest.sources` gives the file
      at relative path `file` under base package `base`: a path
      containing `__init__.py` is a package and loses its last twelve
      characters (`/__init__.py`), any other loses three (`.py`); the
      remaining directory components, empty ones dropped, follow the
      components of `base`. */
  function ModuleName(base: string, file: string): (r: (string, bool))
    ensures r.1 <==> Contains(file, InitFile)
  {
    var isPackage := Contains(file, InitFile);
    var stem := if isPackage then DropLast(file, 12) else DropLast(file, 3);
    (Join(Split(base, '.') + NonEmpty(Split(stem, '/')), "."), isPackage)
  }

  /** Path components as a walk produces them. */
  ghost predicate Components(xs: seq<string>)
  {
    forall i :: 0 <= i < |xs| ==> xs[i] != "" && '/' !in xs[i]
  }

  lemma ComponentsPath(xs: seq<string>)
    requires Components(xs) && |xs| >= 1
    ensures NonEmpty(Split(Join(xs, "/"), '/')) == xs
  {
    SplitJoin(xs, '/');
    NonEmptyKeepsAll(xs);
  }

  /** A module file `d1/.../dn/m.py` is named `base.d1. ... .dn.m`. */
  lemma ModuleNameOfModule(base: string, dirs: seq<string>, m: string)
    requires Components(dirs + [m])
    requires !Contains(Join(dirs + [m + ".py"], "/"), InitFile)
    ensures ModuleName(base, Join(dirs + [m + ".py"], "/")) == (Join(Split(base, '.') + dirs + [m], "."), false)
  {
    var file := Join(dirs + [m + ".py"], "/");
    var stem := Join(dirs + [m], "/");
    if |dirs| == 0 {
      assert file == m + ".py";
      assert stem == m;
    } else {
      JoinSnoc(dirs, m + ".py", "/");
      JoinSnoc(dirs, m, "/");
    }
    assert file == stem + ".py";
    assert DropLast(file, 3) == stem;
    ComponentsPath(dirs + [m]);
    assert Split(base, '.') + (dirs + [m]) == Split(base, '.') + dirs + [m];
  }

  /** A package file `d1/.../dn/__init__.py` is named `base.d1. ... .dn`;
      the root `__init__.py` is named `base` itself. */
  lemma ModuleNameOfPackage(base: string, dirs: seq<string>)
    requires Components(dirs)
    ensures ModuleName(base, Join(dirs + [InitFile], "/")) == (Join(Split(base, '.') + dirs, "."), true)
  {
    if |dirs| == 0 {
      RootInitName(base);
      assert dirs + [InitFile] == [InitFile];
      assert Split(base, '.') + [] == Split(base, '.') + dirs;
    } else {
      NestedInitName(base, dirs);
    }
  }

  lemma RootInitName(base: string)
    ensures ModuleName(base, InitFile) == (Join(Split(base, '.') + [], "."), true)
  {
    assert Contains(InitFile, InitFile);
    assert DropLast(InitFile, 12) == "";
    assert NonEmpty(Split("", '/')) == [];
  }

  lemma NestedInitName(base: string, dirs: seq<string>)
    requires Components(dirs) && |dirs| > 0
    ensures ModuleName(base, Join(dirs + [InitFile], "/")) == (Join(Split(base, '.') + dirs, "."), true)
  {
    var file := Join(dirs + [InitFile], "/");
    var stem := Join(dirs, "/");
    JoinSnoc(dirs, InitFile, "/");
    assert file == stem + "/__init__.py";
    ContainsSuffix(stem + "/", InitFile);
    assert stem + "/" + InitFile == file;
    assert DropLast(file, 12) == stem;
    ComponentsPath(dirs);
  }

  /** The root `__init__.py` names the base package exactly. */
  lemma RootPackageIsBase(base: string)
    ensures ModuleName(base, InitFile) == (base, true)
  {
    ModuleNameOfPackage(base, []);
    assert [] + [InitFile] == [InitFile];
    JoinSplit(base, '.');
    assert Split(base, '.') + [] == Split(base, '.');
  }

  /** `SourcesManifest.index`: every walked file as a module with its
      `is_package` flag, then the manifest itself as a loader. */
  function IndexSources(idx: PackageIndex, manifestName: string, base: string, bootstrap: string,
                        files: seq<(string, string)>): (r: Result<PackageIndex>)
    ensures r.Ok? ==> forall i :: 0 <= i < |files| ==> HasItem(r.value, Modules, ModuleName(base, files[i].1).0)
    ensures r.Ok? ==> GetItem(r.value, Loaders, manifestName) == Ok(Item(bootstrap, BasePackage(base)))
    ensures r.Ok? ==> PoolOf(r.value, Tilesets) == PoolOf(idx, Tilesets) && PoolOf(r.value, Resources) == PoolOf(idx, Resources)
  {
    var items := seq(|files|, i requires 0 <= i < |files| =>
      (ModuleName(base, files[i].1).0, Item(files[i].0, IsPackage(ModuleName(base, files[i].1).1))));
    assert forall i :: 0 <= i < |files| ==> items[i].0 == ModuleName(base, files[i].1).0;
    var idx1 :- AddAll(idx, Modules, items);
    AddItem(idx1, Loaders, manifestName, bootstrap, BasePackage(base))
  }

  /** `'%s.%s' % (manifest name, tileset name)`. */
  function TilesetName(manifestName: string, tileset: string): (r: string)
    ensures |r| == |manifestName| + 1 + |tileset|
    ensures r[..|manifestName|] == manifestName && r[|manifestName|] == '.'
    ensures r[|manifestName| + 1..] == tileset
  {
    manifestName + "." + tileset
  }

  /** Within one manifest distinct tilesets get distinct names, and a
      manifest name without dots can be read back from the first dot. */
  lemma TilesetNameInjective(manifestName: string, a: string, b: string)
    ensures TilesetName(manifestName, a) == TilesetName(manifestName, b) ==> a == b
    ensures '.' !in manifestName ==> SplitFirst(TilesetName(manifestName, a), '.') == Some((manifestName, a))
  {
    if TilesetName(manifestName, a) == TilesetName(manifestName, b) {
      assert a == TilesetName(manifestName, a)[|manifestName| + 1..];
    }
    if '.' !in manifestName {
      SplitFirstOf(manifestName, a, '.');
      assert manifestName + "." + a == manifestName + ['.'] + a;
    }
  }

  /** `AssetsManifest.index`: every tileset `(name, texture)` indexed as
      `<manifest>.<name>` at `join(base, texture)`. */
  function IndexTilesets(idx: PackageIndex, manifestName: string, base: string,
                         tilesets: seq<(string, string)>): (r: Result<PackageIndex>)
    ensures r.Ok? ==> forall i :: 0 <= i < |tilesets| ==>
      HasItem(r.value, Tilesets, TilesetName(manifestName, tilesets[i].0))
    ensures r.Ok? ==> forall k :: k != Tilesets ==> PoolOf(r.value, k) == PoolOf(idx, k)
  {
    var items := seq(|tilesets|, i requires 0 <= i < |tilesets| =>
      (TilesetName(manifestName, tilesets[i].0), Item(PathJoin(base, tilesets[i].1), NoMeta)));
    assert forall i :: 0 <= i < |tilesets| ==> items[i].0 == TilesetName(manifestName, tilesets[i].0);
    AddAll(idx, Tilesets, items)
  }

  /** `ResourcesManifest.index`: every globbed file, given by its path
      relative to the manifest's directory, indexed as `join(path, rel)`. */
  function IndexResources(idx: PackageIndex, path: string, base: string, rels: seq<string>): (r: Result<PackageIndex>)
    ensures r.Ok? ==> forall i :: 0 <= i < |rels| ==> HasItem(r.value, Resources, PathJoin(path, rels[i]))
    ensures r.Ok? ==> forall k :: k != Resources ==> PoolOf(r.value, k) == PoolOf(idx, k)
  {
    var items := seq(|rels|, i requires 0 <= i < |rels| =>
      (PathJoin(path, rels[i]), Item(PathJoin(base, rels[i]), NoMeta)));
    assert forall i :: 0 <= i < |rels| ==> items[i].0 == PathJoin(path, rels[i]);
    AddAll(idx, Resources, items)
  }

  // ---------------------------------------------------------------------
  // Loading packages
  // ---------------------------------------------------------------------

  datatype PackageType = DirectoryPackage | ArchivePackage

  /** The package class `PackageLoader.load` picks for a name: `.json`
      is checked first, then `.zip`; anything else is a `RuntimeError`. */
  function Dispatch(name: string): (r: Result<PackageType>)
    ensures Contains(name, ".json") ==> r == Ok(DirectoryPackage)
    ensures !Contains(name, ".json") && Contains(name, ".zip") ==> r == Ok(ArchivePackage)
    ensures r.Err? <==> !Contains(name, ".json") && !Contains(name, ".zip")
    ensures r.Err? ==> r.error == RuntimeError
  {
    if Contains(name, ".json") then Ok(DirectoryPackage)
    else if Contains(name, ".zip") then Ok(ArchivePackage)
    else Err(RuntimeError)
  }

  /** `dict.fromkeys(names)`: each name once, at its first position. */
  function Dedup(names: seq<string>): (r: seq<string>)
    ensures forall i, j :: 0 <= i < j < |r| ==> r[i] != r[j]
    ensures forall x :: x in r <==> x in names
    decreases |names|
  {
    if |names| == 0 then []
    else
      var init := Dedup(names[..|names| - 1]);
      var last := names[|names| - 1];
      assert forall x :: x in names <==> x in names[..|names| - 1] || x == last by {
        assert names == names[..|names| - 1] + [last];
      }
      if last in init then init else init + [last]
  }

  /** A first occurrence within a prefix is the first occurrence in the
      whole list. */
  lemma FirstIndexOfPrefix(names: seq<string>, n: nat, x: string)
    requires n <= |names| && x in names[..n]
    ensures x in names && FirstIndex(names, x) == FirstIndex(names[..n], x)
  {
    var k := FirstIndex(names[..n], x);
    var k' := FirstIndex(names, x);
    assert names[..n][k] == names[k];
  }

  /** The names of `r`, all from `names`, come in the order of their first
      occurrences there. */
  ghost predicate InFirstOrder(names: seq<string>, r: seq<string>)
  {
    && (forall x :: x in r ==> x in names)
    && forall i, j :: 0 <= i < j < |r| ==> FirstIndex(names, r[i]) < FirstIndex(names, r[j])
  }

  /** Names first met within a prefix keep their order in the whole list. */
  lemma InFirstOrderOfPrefix(names: seq<string>, n: nat, r: seq<string>)
    requires n <= |names| && InFirstOrder(names[..n], r)
    ensures InFirstOrder(names, r)
    ensures forall x :: x in r ==> FirstIndex(names, x) < n
  {
    forall x | x in r
      ensures x in names && FirstIndex(names, x) == FirstIndex(names[..n], x)
    {
      FirstIndexOfPrefix(names, n, x);
    }
    forall i, j | 0 <= i < j < |r|
      ensures FirstIndex(names, r[i]) < FirstIndex(names, r[j])
    {
      assert r[i] in r && r[j] in r;
    }
  }

  /** A name first met after all of `r` can follow it. */
  lemma InFirstOrderSnoc(names: seq<string>, r: seq<string>, x: string)
    requires InFirstOrder(names, r) && x in names
    requires forall y :: y in r ==> FirstIndex(names, y) < FirstIndex(names, x)
    ensures InFirstOrder(names, r + [x])
  {
    var r' := r + [x];
    assert forall y :: y in r' ==> y in r || y == x;
    forall i, j | 0 <= i < j < |r'|
      ensures FirstIndex(names, r'[i]) < FirstIndex(names, r'[j])
    {
      assert r'[i] == r[i] && r[i] in r;
      if j < |r| {
        assert r'[j] == r[j];
      } else {
        assert r'[j] == x;
      }
    }
  }

  /** `Dedup` keeps the names in the order of their first occurrences: with
      its contract (no repeats, no name lost) this makes the result the
      subsequence of first occurrences. */
  lemma {:induction false} DedupKeepsFirstOrder(names: seq<string>)
    ensures InFirstOrder(names, Dedup(names))
    decreases |names|
  {
    if |names| > 0 {
      var n := |names| - 1;
      var init := names[..n];
      var last := names[n];
      DedupKeepsFirstOrder(init);
      InFirstOrderOfPrefix(names, n, Dedup(init));
      if last !in Dedup(init) {
        assert last !in init;
        assert FirstIndex(names, last) == n;
        InFirstOrderSnoc(names, Dedup(init), last);
      }
    }
  }

  /** Deduplicating a list without repeats changes nothing. */
  lemma {:induction false} DedupOfDistinct(names: seq<string>)
    requires forall i, j :: 0 <= i < j < |names| ==> names[i] != names[j]
    ensures Dedup(names) == names
    decreases |names|
  {
    if |names| > 0 {
      var init := names[..|names| - 1];
      DedupOfDistinct(init);
      assert names[|names| - 1] !in init;
      assert init + [names[|names| - 1]] == names;
    }
  }

  datatype LoadedPackage = LoadedPackage(location: string, kind: PackageType, index: PackageIndex)

  /** The loop of `PackageLoader.load` over distinct names: each package
      is built and loaded in order (`indexOf` stands for what its `load`
      reads), and the first name of no known type raises. */
  function LoadEach(names: seq<string>, indexOf: string -> PackageIndex): (r: Result<seq<LoadedPackage>>)
    ensures r.Ok? <==> forall i :: 0 <= i < |names| ==> Dispatch(names[i]).Ok?
    ensures r.Err? ==> r.error == RuntimeError
    ensures r.Ok? ==> |r.value| == |names|
    ensures r.Ok? ==> forall i :: 0 <= i < |names| ==>
      r.value[i] == LoadedPackage(names[i], Dispatch(names[i]).value, indexOf(names[i]))
    decreases |names|
  {
    if |names| == 0 then Ok([])
    else
      var kind :- Dispatch(names[0]);
      var rest :- LoadEach(names[1..], indexOf);
      Ok([LoadedPackage(names[0], kind, indexOf(names[0]))] + rest)
  }

  /** `PackagedClassLoader.build`: every module of every package, a later
      package taking over a module an earlier one also provides. */
  function BuildModules(pkgs: seq<LoadedPackage>): (m: map<string, LoadedPackage>)
    ensures forall n :: n in m <==> exists i :: 0 <= i < |pkgs| && n in pkgs[i].index.modules
    decreases |pkgs|
  {
    if |pkgs| == 0 then map[]
    else
      var init := pkgs[..|pkgs| - 1];
      var last := pkgs[|pkgs| - 1];
      var m := BuildModules(init);
      assert forall i :: 0 <= i < |init| ==> init[i] == pkgs[i];
      m + map n | n in last.index.modules :: last
  }

  /** The position of the last package whose index provides module `n`,
      searching from the end. */
  function LastProvider(pkgs: seq<LoadedPackage>, n: string): (r: Option<nat>)
    ensures r.Some? ==> r.value < |pkgs| && n in pkgs[r.value].index.modules
    ensures r.Some? ==> forall j :: r.value < j < |pkgs| ==> n !in pkgs[j].index.modules
    ensures r.None? ==> forall j :: 0 <= j < |pkgs| ==> n !in pkgs[j].index.modules
    decreases |pkgs|
  {
    if |pkgs| == 0 then None
    else if n in pkgs[|pkgs| - 1].index.modules then Some(|pkgs| - 1)
    else LastProvider(pkgs[..|pkgs| - 1], n)
  }

  /** The package a module maps to is the last one that provides it. */
  lemma {:induction false} BuildModulesLastWins(pkgs: seq<LoadedPackage>, n: string)
    ensures n in BuildModules(pkgs) <==> LastProvider(pkgs, n).Some?
    ensures n in BuildModules(pkgs) ==> BuildModules(pkgs)[n] == pkgs[LastProvider(pkgs, n).value]
    decreases |pkgs|
  {
    if |pkgs| > 0 {
      var init := pkgs[..|pkgs| - 1];
      var last := pkgs[|pkgs| - 1];
      assert BuildModules(pkgs) == BuildModules(init) + map k | k in last.index.modules :: last;
      if n !in last.index.modules {
        BuildModulesLastWins(init, n);
        if LastProvider(init, n).Some? {
          assert pkgs[LastProvider(init, n).value] == init[LastProvider(init, n).value];
        }
      }
    }
  }

  /** `PackageLoader(packages).load()`: the names deduplicated, each
      package loaded, then the class loader's module table built. */
  function LoadPackages(names: seq<string>, indexOf: string -> PackageIndex): (r: Result<map<string, LoadedPackage>>)
    ensures r.Ok? <==> forall x :: x in names ==> Dispatch(x).Ok?
    ensures r.Err? ==> r.error == RuntimeError
  {
    var pkgs :- LoadEach(Dedup(names), indexOf);
    Ok(BuildModules(pkgs))
  }

  /** `find_module(name)` answers the loader exactly when the module is
      in the table, that is, when some loaded package indexes it. */
  function FindModule(modules: map<string, LoadedPackage>, name: string): (found: bool)
    ensures found <==> name in modules
  {
    name in modules
  }

  lemma FindModuleAfterLoad(names: seq<string>, indexOf: string -> PackageIndex, n: string)
    requires LoadPackages(names, indexOf).Ok?
    ensures FindModule(LoadPackages(names, indexOf).value, n) <==>
      exists x :: x in names && n in indexOf(x).modules
  {
    var ds := Dedup(names);
    var r := LoadEach(ds, indexOf);
    assert r.Ok?;
    var pkgs := r.value;
    var m := BuildModules(pkgs);
    assert LoadPackages(names, indexOf).value == m;
    forall x | x in names && n in indexOf(x).modules
      ensures n in m
    {
      assert x in ds;
      var i :| 0 <= i < |ds| && ds[i] == x;
      assert pkgs[i].index == indexOf(x);
    }
    if n in m {
      var i :| 0 <= i < |pkgs| && n in pkgs[i].index.modules;
      assert pkgs[i].index == indexOf(ds[i]);
      assert ds[i] in names;
    }
  }
}
