/** The packaging script `assets.py`: the `compose` and `partial`
    combinators, the list-based index a package build fills, and the
    names the manifests give to what they add.  Reading manifests,
    walking directories and writing the archive are outside the model:
    the walked relative paths and the tileset lists are parameters. */
module Assets {
  import opened Wrappers
  import opened Strings
  import Package

  // ---------------------------------------------------------------------
  // Combinators
  // ---------------------------------------------------------------------

  /** Applies each function of `funcs` in turn, first to last. */
  function ApplyAll<T>(funcs: seq<T -> T>, x: T): T
    decreases |funcs|
  {
    if |funcs| == 0 then x else ApplyAll(funcs[1..], funcs[0](x))
  }

  /** Calling `compose(*funcs)` on `x`: `funcs[0]` on the arguments, then
      every later function on the previous result.  With no functions the
      call reads `funcs[0]` and raises `IndexError`. */
  function Compose<T>(funcs: seq<T -> T>, x: T): (r: Result<T>)
    ensures r.Err? <==> |funcs| == 0
    ensures r.Err? ==> r.error == IndexError
    ensures |funcs| == 1 ==> r == Ok(funcs[0](x))
  {
    if |funcs| == 0 then Err(IndexError)
    else Ok(ApplyAll(funcs[1..], funcs[0](x)))
  }

  /** Running one more function after a list of functions. */
  lemma {:induction false} ApplyAllSnoc<T>(funcs: seq<T -> T>, g: T -> T, x: T)
    ensures ApplyAll(funcs + [g], x) == g(ApplyAll(funcs, x))
    decreases |funcs|
  {
    if |funcs| > 0 {
      assert (funcs + [g])[1..] == funcs[1..] + [g];
      ApplyAllSnoc(funcs[1..], g, funcs[0](x));
    }
  }

  /** The last function is applied last: `compose(f1, ..., fn)(x)` is
      `fn(compose(f1, ..., fn-1)(x))`, so by induction
      `fn(...f2(f1(x)))`. */
  lemma ComposeLast<T>(funcs: seq<T -> T>, g: T -> T, x: T)
    requires |funcs| >= 1
    ensures Compose(funcs + [g], x) == Ok(g(Compose(funcs, x).value))
  {
    assert (funcs + [g])[0] == funcs[0];
    assert (funcs + [g])[1..] == funcs[1..] + [g];
    ApplyAllSnoc(funcs[1..], g, funcs[0](x));
  }

  /** Composing two lists is composing their compositions. */
  lemma {:induction false} ApplyAllAppend<T>(fs: seq<T -> T>, gs: seq<T -> T>, x: T)
    ensures ApplyAll(fs + gs, x) == ApplyAll(gs, ApplyAll(fs, x))
    decreases |fs|
  {
    if |fs| > 0 {
      assert (fs + gs)[1..] == fs[1..] + gs;
      ApplyAllAppend(fs[1..], gs, fs[0](x));
    } else {
      assert fs + gs == gs;
    }
  }

  lemma ComposeAppend<T>(fs: seq<T -> T>, gs: seq<T -> T>, x: T)
    requires |fs| >= 1 && |gs| >= 1
    ensures Compose(fs + gs, x) == Compose(gs, Compose(fs, x).value)
  {
    assert (fs + gs)[0] == fs[0];
    assert (fs + gs)[1..] == fs[1..] + gs;
    ApplyAllAppend(fs[1..], gs, fs[0](x));
    ApplyAllAppend([gs[0]], gs[1..], ApplyAll(fs[1..], fs[0](x)));
    assert [gs[0]] + gs[1..] == gs;
  }

  /** `kwargs = pkwargs.copy(); kwargs.update(ckwargs)`: every key of
      either, the call's value winning; `pkwargs` itself is a value and
      stays as it was. */
  function Update<V>(preset: map<string, V>, call: map<string, V>): (m: map<string, V>)
    ensures m.Keys == preset.Keys + call.Keys
    ensures forall k :: k in call ==> m[k] == call[k]
    ensures forall k :: k in preset && k !in call ==> m[k] == preset[k]
  {
    preset + call
  }

  /** An arbitrary callable taking positional and keyword arguments. */
  type Callable<!V, R> = (seq<V>, map<string, V>) -> R

  /** `partial(func, *pargs, **pkwargs)`: the callable that calls `func`
      with the preset positional arguments before its own and the merged
      keyword arguments. */
  function Partial<V, R>(func: Callable<V, R>, pargs: seq<V>, pkwargs: map<string, V>): Callable<V, R>
  {
    (cargs: seq<V>, ckwargs: map<string, V>) => func(pargs + cargs, Update(pkwargs, ckwargs))
  }

  /** Partially applying a partial application presets the two argument
      lists one after the other and the two keyword maps with the later
      one winning. */
  lemma PartialOfPartial<V, R>(func: Callable<V, R>, p1: seq<V>, k1: map<string, V>, p2: seq<V>, k2: map<string, V>,
                               cargs: seq<V>, ckwargs: map<string, V>)
    ensures Partial(Partial(func, p1, k1), p2, k2)(cargs, ckwargs) == Partial(func, p1 + p2, Update(k1, k2))(cargs, ckwargs)
  {
    assert p1 + (p2 + cargs) == (p1 + p2) + cargs;
    assert Update(k1, Update(k2, ckwargs)) == Update(Update(k1, k2), ckwargs);
  }

  /** With no arguments of its own the partial calls `func` with exactly
      the presets. */
  lemma PartialNoArgs<V, R>(func: Callable<V, R>, pargs: seq<V>, pkwargs: map<string, V>)
    ensures Partial(func, pargs, pkwargs)([], map[]) == func(pargs, pkwargs)
  {
    assert pargs + [] == pargs;
    assert Update(pkwargs, map[]) == pkwargs;
  }

  // ---------------------------------------------------------------------
  // The build index
  // ---------------------------------------------------------------------

  /** The three name lists of `PackageIndex`. */
  datatype BuildIndex = BuildIndex(modules: seq<string>, tilesets: seq<string>, resources: seq<string>)

  datatype ListKind = ModuleList | TilesetList | ResourceList

  function ListOf(idx: BuildIndex, kind: ListKind): seq<string>
  {
    match kind
    case ModuleList => idx.modules
    case TilesetList => idx.tilesets
    case ResourceList => idx.resources
  }

  predicate Distinct(xs: seq<string>)
  {
    forall i, j :: 0 <= i < j < |xs| ==> xs[i] != xs[j]
  }

  /** No list holds a name twice. */
  predicate Valid(idx: BuildIndex)
  {
    Distinct(idx.modules) && Distinct(idx.tilesets) && Distinct(idx.resources)
  }

  /** `PackageIndex()`. */
  function NewBuildIndex(): (idx: BuildIndex)
    ensures Valid(idx)
    ensures forall k :: ListOf(idx, k) == []
  {
    BuildIndex([], [], [])
  }

  /** `add_module`, `add_tileset` or `add_resource`: a name already in the
      list raises `KeyError`; otherwise it is appended and the other lists
      stay as they are. */
  function AddName(idx: BuildIndex, kind: ListKind, name: string): (r: Result<BuildIndex>)
    ensures r.Ok? <==> name !in ListOf(idx, kind)
    ensures r.Err? ==> r.error == KeyError
    ensures r.Ok? ==> ListOf(r.value, kind) == ListOf(idx, kind) + [name]
    ensures r.Ok? ==> forall k :: k != kind ==> ListOf(r.value, k) == ListOf(idx, k)
  {
    if name in ListOf(idx, kind) then Err(KeyError)
    else match kind
      case ModuleList => Ok(idx.(modules := idx.modules + [name]))
      case TilesetList => Ok(idx.(tilesets := idx.tilesets + [name]))
      case ResourceList => Ok(idx.(resources := idx.resources + [name]))
  }

  /** Adding keeps every list free of duplicates. */
  lemma AddNameKeepsValid(idx: BuildIndex, kind: ListKind, name: string)
    requires Valid(idx)
    requires AddName(idx, kind, name).Ok?
    ensures Valid(AddName(idx, kind, name).value)
  {
    var r := AddName(idx, kind, name).value;
    assert ListOf(idx, ModuleList) == idx.modules && ListOf(r, ModuleList) == r.modules;
    assert ListOf(idx, TilesetList) == idx.tilesets && ListOf(r, TilesetList) == r.tilesets;
    assert ListOf(idx, ResourceList) == idx.resources && ListOf(r, ResourceList) == r.resources;
  }

  /** Each name added in turn, stopping at the first duplicate. */
  function AddNames(idx: BuildIndex, kind: ListKind, names: seq<string>): (r: Result<BuildIndex>)
    ensures r.Err? ==> r.error == KeyError
    ensures r.Ok? ==> forall k :: k != kind ==> ListOf(r.value, k) == ListOf(idx, k)
    decreases |names|
  {
    if |names| == 0 then Ok(idx)
    else
      var idx1 :- AddName(idx, kind, names[0]);
      AddNames(idx1, kind, names[1..])
  }

  /** None of `names` is in `list` yet. */
  predicate AllNew(list: seq<string>, names: seq<string>)
  {
    forall i :: 0 <= i < |names| ==> names[i] !in list
  }

  /** The first name is new and different from the rest exactly when the
      rest are new to the list it has been appended to. */
  lemma NewDistinctCons(list: seq<string>, names: seq<string>)
    requires |names| > 0
    ensures AllNew(list, names) && Distinct(names) <==>
      names[0] !in list && AllNew(list + [names[0]], names[1..]) && Distinct(names[1..])
  {
    assert forall i :: 1 <= i < |names| ==> names[i] == names[1..][i - 1];
  }

  /** Adding a list of names succeeds exactly when the names are new and
      pairwise distinct, and then appends them in order and keeps the
      index free of duplicates. */
  lemma {:induction false} AddNamesDistinct(idx: BuildIndex, kind: ListKind, names: seq<string>)
    requires Valid(idx)
    ensures AddNames(idx, kind, names).Ok? <==> AllNew(ListOf(idx, kind), names) && Distinct(names)
    ensures AddNames(idx, kind, names).Ok? ==>
      ListOf(AddNames(idx, kind, names).value, kind) == ListOf(idx, kind) + names
      && Valid(AddNames(idx, kind, names).value)
    decreases |names|
  {
    if |names| > 0 {
      var r1 := AddName(idx, kind, names[0]);
      NewDistinctCons(ListOf(idx, kind), names);
      if r1.Ok? {
        AddNameKeepsValid(idx, kind, names[0]);
        AddNamesDistinct(r1.value, kind, names[1..]);
        assert AddNames(idx, kind, names) == AddNames(r1.value, kind, names[1..]);
        assert ListOf(idx, kind) + [names[0]] + names[1..] == ListOf(idx, kind) + names;
      }
    }
  }

  /** The `json` property's content: the three lists as they are. */
  datatype IndexJson = IndexJson(modules: seq<string>, tilesets: seq<string>, resources: seq<string>)

  function Json(idx: BuildIndex): (j: IndexJson)
    ensures j.modules == ListOf(idx, ModuleList)
    ensures j.tilesets == ListOf(idx, TilesetList)
    ensures j.resources == ListOf(idx, ResourceList)
  {
    IndexJson(idx.modules, idx.tilesets, idx.resources)
  }

  // ---------------------------------------------------------------------
  // Manifest builds
  // ---------------------------------------------------------------------

  /** The module name `SourcesManifest.build` gives the walked file `file`:
      the twelve-character `/__init__.py` suffix is dropped from a path
      containing `__init__.py`, the three-character `.py` from any other,
      and the remaining non-empty components follow those of `base`. */
  function ModuleName(base: string, file: string): string
  {
    var stem := if !Contains(file, Package.InitFile) then DropLast(file, 3) else DropLast(file, 12);
    Join(Split(base, '.') + NonEmpty(Split(stem, '/')), ".")
  }

  /** The build script and the runtime index agree on every module name. */
  lemma ModuleNameAgrees(base: string, file: string)
    ensures ModuleName(base, file) == Package.ModuleName(base, file).0
  {
  }

  /** So the build script names a module file and a package directory the
      way the runtime loader expects. */
  lemma ModuleNameOfFiles(base: string, dirs: seq<string>, m: string)
    requires Package.Components(dirs + [m])
    requires !Contains(Join(dirs + [m + ".py"], "/"), Package.InitFile)
    ensures ModuleName(base, Join(dirs + [m + ".py"], "/")) == Join(Split(base, '.') + dirs + [m], ".")
    ensures ModuleName(base, Join(dirs + [Package.InitFile], "/")) == Join(Split(base, '.') + dirs, ".")
  {
    ModuleNameAgrees(base, Join(dirs + [m + ".py"], "/"));
    ModuleNameAgrees(base, Join(dirs + [Package.InitFile], "/"));
    Package.ModuleNameOfModule(base, dirs, m);
    assert Package.Components(dirs) by {
      assert forall i :: 0 <= i < |dirs| ==> dirs[i] == (dirs + [m])[i];
    }
    Package.ModuleNameOfPackage(base, dirs);
  }

  function ModuleNames(base: string, files: seq<string>): (names: seq<string>)
    ensures |names| == |files|
    ensures forall i :: 0 <= i < |files| ==> names[i] == ModuleName(base, files[i])
  {
    seq(|files|, i requires 0 <= i < |files| => ModuleName(base, files[i]))
  }

  /** `SourcesManifest.build`: every walked file added as a module, in
      walk order. */
  function BuildSources(idx: BuildIndex, base: string, files: seq<string>): (r: Result<BuildIndex>)
    ensures r.Err? ==> r.error == KeyError
    ensures r.Ok? ==> forall k :: k != ModuleList ==> ListOf(r.value, k) == ListOf(idx, k)
  {
    AddNames(idx, ModuleList, ModuleNames(base, files))
  }

  /** A sources build succeeds exactly when the walked files give new,
      pairwise distinct module names, and then lists them in walk order. */
  lemma BuildSourcesModules(idx: BuildIndex, base: string, files: seq<string>)
    requires Valid(idx)
    ensures BuildSources(idx, base, files).Ok? <==>
      (forall i :: 0 <= i < |files| ==> ModuleName(base, files[i]) !in idx.modules)
      && (forall i, j :: 0 <= i < j < |files| ==> ModuleName(base, files[i]) != ModuleName(base, files[j]))
    ensures BuildSources(idx, base, files).Ok? ==>
      BuildSources(idx, base, files).value.modules == idx.modules + ModuleNames(base, files)
  {
    AddNamesDistinct(idx, ModuleList, ModuleNames(base, files));
  }

  function TilesetNames(manifestName: string, tilesets: seq<string>): (names: seq<string>)
    ensures |names| == |tilesets|
    ensures forall i :: 0 <= i < |tilesets| ==> names[i] == Package.TilesetName(manifestName, tilesets[i])
  {
    seq(|tilesets|, i requires 0 <= i < |tilesets| => Package.TilesetName(manifestName, tilesets[i]))
  }

  /** `AssetsManifest.build`: every tileset added as
      `<manifest>.<tileset>`, in manifest order. */
  function BuildTilesets(idx: BuildIndex, manifestName: string, tilesets: seq<string>): (r: Result<BuildIndex>)
    ensures r.Err? ==> r.error == KeyError
    ensures r.Ok? ==> forall k :: k != TilesetList ==> ListOf(r.value, k) == ListOf(idx, k)
  {
    AddNames(idx, TilesetList, TilesetNames(manifestName, tilesets))
  }

  /** A tileset build into an index without that manifest's tilesets
      succeeds exactly when the manifest names no tileset twice. */
  lemma BuildTilesetsDistinct(idx: BuildIndex, manifestName: string, tilesets: seq<string>)
    requires Valid(idx)
    requires forall i :: 0 <= i < |tilesets| ==> Package.TilesetName(manifestName, tilesets[i]) !in idx.tilesets
    ensures BuildTilesets(idx, manifestName, tilesets).Ok? <==> Distinct(tilesets)
    ensures BuildTilesets(idx, manifestName, tilesets).Ok? ==>
      BuildTilesets(idx, manifestName, tilesets).value.tilesets == idx.tilesets + TilesetNames(manifestName, tilesets)
  {
    var names := TilesetNames(manifestName, tilesets);
    AddNamesDistinct(idx, TilesetList, names);
    forall i, j | 0 <= i < j < |tilesets|
      ensures names[i] == names[j] <==> tilesets[i] == tilesets[j]
    {
      Package.TilesetNameInjective(manifestName, tilesets[i], tilesets[j]);
    }
  }

  /** One manifest of a package: assets (a name and its tilesets), sources
      (a base package and its walked files), or resources. */
  datatype Manifest =
    | AssetsManifest(name: string, tilesets: seq<string>)
    | SourcesManifest(base: string, files: seq<string>)
    | ResourcesManifest

  /** `package.build(archive, index)`; a resources manifest adds nothing. */
  function BuildOne(idx: BuildIndex, m: Manifest): (r: Result<BuildIndex>)
    ensures m.ResourcesManifest? ==> r == Ok(idx)
    ensures r.Err? ==> r.error == KeyError
  {
    match m
    case AssetsManifest(name, tilesets) => BuildTilesets(idx, name, tilesets)
    case SourcesManifest(base, files) => BuildSources(idx, base, files)
    case ResourcesManifest => Ok(idx)
  }

  /** `build_archive`: every manifest built into one index, in order
      (assets, then sources, then resources), and the index's json
      written last. */
  function BuildArchive(ms: seq<Manifest>): (r: Result<IndexJson>)
    ensures r.Err? ==> r.error == KeyError
  {
    var idx :- BuildAll(NewBuildIndex(), ms);
    Ok(Json(idx))
  }

  function BuildAll(idx: BuildIndex, ms: seq<Manifest>): (r: Result<BuildIndex>)
    ensures r.Err? ==> r.error == KeyError
    decreases |ms|
  {
    if |ms| == 0 then Ok(idx)
    else
      var idx1 :- BuildOne(idx, ms[0]);
      BuildAll(idx1, ms[1..])
  }

  /** Every build keeps the index free of duplicates, so the written json
      lists each name once. */
  lemma {:induction false} BuildAllKeepsValid(idx: BuildIndex, ms: seq<Manifest>)
    requires Valid(idx)
    requires BuildAll(idx, ms).Ok?
    ensures Valid(BuildAll(idx, ms).value)
    decreases |ms|
  {
    if |ms| > 0 {
      var idx1 := BuildOne(idx, ms[0]).value;
      match ms[0] {
        case AssetsManifest(name, tilesets) =>
          AddNamesDistinct(idx, TilesetList, TilesetNames(name, tilesets));
        case SourcesManifest(base, files) =>
          AddNamesDistinct(idx, ModuleList, ModuleNames(base, files));
        case ResourcesManifest =>
      }
      BuildAllKeepsValid(idx1, ms[1..]);
    }
  }

  lemma BuildArchiveDistinct(ms: seq<Manifest>)
    requires BuildArchive(ms).Ok?
    ensures Distinct(BuildArchive(ms).value.modules)
    ensures Distinct(BuildArchive(ms).value.tilesets)
    ensures BuildArchive(ms).value.resources == []
  {
    BuildAllKeepsValid(NewBuildIndex(), ms);
    BuildAllNoResources(NewBuildIndex(), ms);
  }

  /** No manifest build adds a resource: `ResourcesManifest.build` does
      nothing. */
  lemma {:induction false} BuildAllNoResources(idx: BuildIndex, ms: seq<Manifest>)
    requires BuildAll(idx, ms).Ok?
    ensures BuildAll(idx, ms).value.resources == idx.resources
    decreases |ms|
  {
    if |ms| > 0 {
      var idx1 := BuildOne(idx, ms[0]).value;
      assert idx1.resources == idx.resources by {
        assert ListOf(idx1, ResourceList) == ListOf(idx, ResourceList);
      }
      BuildAllNoResources(idx1, ms[1..]);
    }
  }
}
