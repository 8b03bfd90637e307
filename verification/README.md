# yarl core in Dafny

A Dafny model of the sequential core of yarl, a Python rogue-like engine.
Every component is written as immutable datatypes and pure functions.
Python exceptions become a `Result` whose error names the exception
class: `KeyError`, `RuntimeError`, `AttributeError`, `IndexError`,
`TypeError`, `DatabaseError` or `RecursionError`. Object identity is
modelled by serial numbers, and the stateful objects are threaded through
the calls. These are the block registry, the save file, the package
index, the service container and the scene stack.

One module per source file:

| module | file | what it models |
|---|---|---|
| `Wrappers` | — | `Option`, `Result`, the error kinds |
| `Strings` | — | `str.join`, `str.split`, `in` on strings, slicing, `filter(bool, …)`, `os.path.join` |
| `Util` | `src/yarl/util.py` | the zig-zag fold and the Cantor pairing key; vector dump/load; the slug normaliser (ASCII) |
| `Blocks` | `src/yarl/block.py` | the block registry and the three built-in block ids |
| `Tiles` | `src/yarl/tile.py` | tile construction defaults and `set_block` |
| `Chunks` | `src/yarl/map/chunk.py` | the chunk-tree and chunk stubs: origin arithmetic, and a `get_tile` that never yields a tile |
| `Maps` | `src/yarl/map/__init__.py` | the memoising floor factory of `World`; pickle state of `World` and `Floor` |
| `Schema` | `src/yarl/schema.py` | table definitions, DDL text and its parse, the insert/update/upsert dispatch, schema creation, validation and clearing over an abstract store |
| `Save` | `src/yarl/save.py` | the `SaveFile` open guard, `has_schema`, `init`, `save`, `load` (block mapping, world, regions, levels), `clear` |
| `Package` | `src/yarl/package.py` | the keyed `PackageIndex`; module, tileset and resource naming; loader dispatch; the class loader's module table |
| `Assets` | `src/assets.py` | `compose`, `partial`, the list-based build index, and the manifests' build loop |
| `Services` | `src/yarl/service.py` | the lazy service container, the `Service` descriptor, the `Injector` keyword merge |
| `Scenes` | `src/yarl/scene.py` | the scene stack, with the hooks recorded as an event trace |

The database is an abstract store. It holds the table listing in creation
order, which is the order sqlite_master reports, and the rows of each
table with their rowids. A statement the database would reject, such as
a second `CREATE TABLE` for the same name, is a `DatabaseError`.

Several behaviours are modelled as the code has them:

- `SaveFile.has_schema` hands `is_valid` a one-shot iterator over the
  table listing. Each `in` test therefore consumes the iterator up to the
  match. Validation succeeds exactly when the schema's table names occur
  in the listing in schema order (`Schema.AllInIterIff`).
- `PackageIndex.json` in `src/yarl/package.py` writes the module pool
  under the `tilesets` and `resources` keys too. The model reproduces
  this (`Package.JsonLosesTilesets`). The list-based index in
  `src/assets.py` writes its three lists correctly.
- `SaveFile.close` does not reset `is_open`. A closed file still passes
  the open guard, and its database calls fail with `DatabaseError`.
- The chunk tree is a stub. `get_cell` copies the node, and `Chunk` has no
  `get_tile`. So `get_tile` ends in `AttributeError` on a leaf and in
  `RecursionError` elsewhere.

The design description of the system and the code disagree in places.
The model follows the code:

- The block registry replaces an entry on a repeated `add`; it does not
  fail. It assigns no numeric ids.
- The chunk tree does not route by quadrant and does not halve sizes.
- Schema creation walks the table list in its written order, which
  happens to respect the declared dependencies (`Schema.SaveSchemaOrdered`).
  No ordering is computed.
- The world, region and level objects that `src/yarl/save.py` builds are
  not the classes of `src/yarl/map/__init__.py`: `Region` and `Level`
  are not defined there, and `World` takes other arguments. They are
  modelled as records of their constructor arguments and `id`.

## Model

| member | source | states |
|---|---|---|
| Util.ZigZag | src/yarl/util.py:6-7 | the fold is non-negative; even exactly for non-negative inputs; a negative input gives an odd value of at least 3, so 1 never occurs |
| Util.UnZigZagInverts | src/yarl/util.py:6-7 | the fold has an inverse, so it loses nothing |
| Util.ZigZagInjective | src/yarl/util.py:6-7 | distinct integers fold to distinct values |
| Util.TriClosedForm | src/yarl/util.py:8 | twice the triangular number of s is s(s+1), so the product in the key is even and the halving is exact |
| Util.CantorKey | src/yarl/util.py:8 | the pairing key is the triangular number of n1+n2 plus n2 |
| Util.CantorPairing | src/yarl/util.py:5-8 | the float the source returns is the integer key of the two folded coordinates, with no fractional part |
| Util.CantorKeyInjective | src/yarl/util.py:8 | equal keys come from equal pairs |
| Util.CantorPairingInjective | src/yarl/util.py:5-8 | distinct coordinate pairs get distinct keys |
| Util.DumpVec2 | src/yarl/util.py:11-12 | the dump has exactly the keys x and y |
| Util.LoadVec2 | src/yarl/util.py:15-16 | loading fails with KeyError exactly when x or y is missing |
| Util.Vec2RoundTrip | src/yarl/util.py:11-16 | loading a dumped vector gives the same vector |
| Util.Lower | src/yarl/util.py:20 | lower-casing keeps the length and lower-cases each ASCII letter in place |
| Util.ReplaceRuns | src/yarl/util.py:21-22 | after replacing each maximal run of a class by one dash, the only class character left is the dash, and no dash is followed by a class character; the output is empty only for empty input, and starts with a dash when the input starts inside a run and with the input's first character otherwise |
| Util.MakeSlug | src/yarl/util.py:19-23 | the slug holds only a-z, 0-9 and dash, and never two dashes in a row |
| Util.ReplaceRunsIdentity | src/yarl/util.py:22 | on text that is already a slug the dash-run replacement changes nothing |
| Util.MakeSlugIsOneReplacement | src/yarl/util.py:21-22 | the second substitution never changes the first one's output |
| Util.MakeSlugIdempotent | src/yarl/util.py:19-23 | slugging a slug returns it unchanged |
| Util.ReplaceRunsKeepsAlnums | src/yarl/util.py:21 | the replacement keeps the letters and digits of its input in order |
| Util.MakeSlugKeepsAlnums | src/yarl/util.py:20-22 | the slug's letters and digits are those of the lower-cased input, in order |
| Util.MakeSlugKeepsEdges | src/yarl/util.py:20-22 | the slug is empty exactly for empty input and begins or ends with a dash exactly when the input begins or ends with a non-alphanumeric, so nothing is trimmed |
| Blocks.NewRegistry | src/yarl/block.py:5-6 | a fresh registry answers KeyError for every id |
| Blocks.Get | src/yarl/block.py:11-15 | get returns the stored instance and raises KeyError exactly for an id never added |
| Blocks.Add | src/yarl/block.py:8-9 | after add the class's id maps to a new instance of that class, distinct from every stored one; every other id answers as before |
| Blocks.AddReplaces | src/yarl/block.py:9 | adding a class whose id is present replaces the instance instead of failing |
| Blocks.BuiltinsCoexist | src/yarl/block.py:22-40 | the three built-in ids are pairwise distinct, so registering all three keeps all three |
| Tiles.NewTile | src/yarl/tile.py:5-14 | a given block is stored unchanged; a missing block is the registry's void entry and fails with KeyError exactly when void is not registered; a missing meta is empty |
| Tiles.SetBlock | src/yarl/tile.py:19-24 | set_block stores the block and the given meta, or an empty meta when none is given |
| Tiles.SetBlockIdempotent | src/yarl/tile.py:19-24 | the result does not depend on the previous tile, so a second identical call changes nothing |
| Tiles.NewTileAgreesWithSetBlock | src/yarl/tile.py:5-24 | constructing with an explicit block equals setting that block on any tile |
| Chunks.NewChunkTree | src/yarl/map/chunk.py:10-16 | a new node stores origin, size, loader and leaf flag, with no cells and no chunks |
| Chunks.NewChunk | src/yarl/map/chunk.py:33-36 | a new chunk has its position and no tiles |
| Chunks.GetChunk | src/yarl/map/chunk.py:26-27 | get_chunk gives an empty chunk at origin plus the offset |
| Chunks.GetCell | src/yarl/map/chunk.py:29-30 | get_cell gives an empty node at origin plus the offset with the same size, loader and leaf flag |
| Chunks.DescendKeeps | src/yarl/map/chunk.py:29-30 | a chain of get_cell calls lands at origin plus the sum of the offsets and never changes the leaf flag |
| Chunks.GetTileAt | src/yarl/map/chunk.py:18-24 | with depth left, a leaf fails with AttributeError and a non-leaf recurses into RecursionError |
| Chunks.GetTile | src/yarl/map/chunk.py:18-24 | get_tile never yields a tile |
| Maps.NewFloor | src/yarl/map/__init__.py:49-56 | a new floor has its name and size, and loader and chunks both None |
| Maps.FloorPickleRoundTrip | src/yarl/map/__init__.py:58-64 | a pickled floor keeps its name and size |
| Maps.NewWorld | src/yarl/map/__init__.py:13-17 | a new world is 16 by 16 with no floors |
| Maps.FloorOf | src/yarl/map/__init__.py:42-45 | a known name returns its floor unchanged; a new name adds exactly Floor(name, world size) and keeps every other floor |
| Maps.FloorOfMemoises | src/yarl/map/__init__.py:42-45 | asking again returns the same floor and adds nothing |
| Maps.WorldGetState | src/yarl/map/__init__.py:19-22 | the state holds name, size and every floor |
| Maps.WorldSetStateAsWritten | src/yarl/map/__init__.py:24-26 | unpickling restores name and floors and leaves path and size absent |
| Maps.UnpickledWorldCannotCreateFloors | src/yarl/map/__init__.py:24-26 | after a pickle round trip, asking for a new floor fails with AttributeError |
| Maps.WorldSetState | src/yarl/map/__init__.py:19-26 | the corrected unpickling restores name, size and the floors' pickled state |
| Maps.WorldPickleRoundTrip | src/yarl/map/__init__.py:19-26 | with the size restored, a round trip keeps name, size and floors, and any floor can be requested |
| Schema.TableNameInjective | src/yarl/schema.py:37-144 | different table classes have different table names |
| Schema.SaveSchemaOrdered | src/yarl/schema.py:147-155 | every schema table comes after the tables it depends on, the character table is not listed, and the names are metadata, worlds, regions, levels, chunks, entities |
| Schema.DdlRoundTrip | src/yarl/schema.py:9-11 | the CREATE TABLE text parses back to its table name and field pairs |
| Schema.TableDefinitionPlain | src/yarl/schema.py:37-144 | every table has a name without spaces and at least one field whose name and type contain no separator |
| Schema.CreateSqlParses | src/yarl/schema.py:9-11 | each table's DDL names that table and lists exactly its fields |
| Schema.AddTable | src/yarl/schema.py:13-18 | a table is created exactly when its name is absent, appended to the listing, empty; otherwise DatabaseError |
| Schema.ExecuteDdl | src/yarl/schema.py:13-18 | running a statement fails only with DatabaseError |
| Schema.Create | src/yarl/schema.py:8-18 | create returns True exactly when the table did not exist, and then adds it empty at the end of the listing; on False the store is unchanged |
| Schema.CreateRunsDdl | src/yarl/schema.py:8-18 | create is the execution of the table's own DDL text |
| Schema.NextId | src/yarl/schema.py:31-34 | a generated rowid exceeds every rowid in the table |
| Schema.Bind | src/yarl/schema.py:28-34 | binding an object's attributes to a statement's named parameters succeeds exactly when the object has every attribute named, and yields a row of the table's shape; worlds takes only the name |
| Schema.Insert | src/yarl/schema.py:31-34 | insert appends the bound row under a fresh rowid and sets the object's id to it; it fails with DatabaseError exactly when the table is missing or the object lacks an attribute the statement names; metadata's positional SQL fails; the character table's empty SQL does nothing |
| Schema.Update | src/yarl/schema.py:28-29 | update rewrites the data of the rows with the object's id and nothing else; it fails with DatabaseError exactly when the table is missing or the object lacks an attribute the statement names |
| Schema.Upsert | src/yarl/schema.py:23-26 | upsert inserts exactly when the id is None and updates otherwise, and fails only with DatabaseError |
| Schema.UpsertMissingAttributeFails | src/yarl/schema.py:23-34 | upserting a level-shaped object into the regions table fails with DatabaseError, whatever its id |
| Schema.UpsertTwice | src/yarl/schema.py:23-34 | a second upsert of an inserted object updates the same row and keeps its id, so the table gains one row holding the later data |
| Schema.IsValid | src/yarl/schema.py:161-168 | a listing is valid exactly when it contains every schema table name; extra names are ignored |
| Schema.AllInIterIff | src/yarl/schema.py:161-168 | validation over a one-shot iterator succeeds exactly when the schema names occur in the listing in schema order |
| Schema.IterValidationIsStricter | src/yarl/schema.py:161-168 | iterator validation implies membership validation, and a listing with metadata after worlds is valid by membership only |
| Schema.CreateEach | src/yarl/schema.py:177-182 | creating each table keeps the existing tables and rows and adds only listed tables, empty |
| Schema.CreateEachKeepsValid | src/yarl/schema.py:177-182 | creation keeps the store well formed |
| Schema.CreateEachExtends | src/yarl/schema.py:177-182 | creation only appends to the listing |
| Schema.CreateEachAppends | src/yarl/schema.py:177-182 | creating new, distinct tables appends exactly their names in order |
| Schema.CreateAllMakesValid | src/yarl/schema.py:177-184 | after schema creation the listing passes is_valid |
| Schema.CreateAllSkipsCharacters | src/yarl/schema.py:147-155 | schema creation never creates the characters table |
| Schema.SchemaNamesDistinct | src/yarl/schema.py:147-155 | the schema lists no table name twice |
| Schema.CreateEachFresh | src/yarl/schema.py:177-182 | creating new, distinct tables appends their names so that they pass iterator validation |
| Schema.CreateAllFresh | src/yarl/schema.py:177-184 | schema creation on a store without schema tables makes it pass the one-shot validation |
| Schema.CreateEachNoOp | src/yarl/schema.py:177-182 | creation when every table exists changes nothing |
| Schema.CreateAll | src/yarl/schema.py:177-184 | after create every schema table exists, every existing table keeps its rows, and each new table is a schema table and empty |
| Schema.ClearEach | src/yarl/schema.py:170-173 | clearing empties every listed table, removes none, keeps the listing and every other table, and fails with DatabaseError exactly when a listed table is missing |
| Schema.Clear | src/yarl/schema.py:170-175 | clear succeeds exactly when every schema table exists, then leaves each of them empty and every other table as it was; otherwise DatabaseError |
| Schema.ClearKeepsValidity | src/yarl/schema.py:170-175 | clearing keeps is_valid as it was and leaves every schema table empty |
| Save.NewSaveFile | src/yarl/save.py:17-23 | a new save file is not open and has no world |
| Save.Open | src/yarl/save.py:25-29 | open attaches a live connection to the given database and changes nothing else |
| Save.Close | src/yarl/save.py:31-32 | close needs a connection (AttributeError otherwise), marks it closed and leaves the file open |
| Save.HasSchema | src/yarl/save.py:34-44 | RuntimeError unless opened; False on a closed connection; otherwise true exactly when the schema names occur in the listing in order |
| Save.Init | src/yarl/save.py:46-51 | RuntimeError unless opened, DatabaseError when closed, else schema creation on the store |
| Save.EnsureSchema | src/yarl/save.py:57-58 | the has_schema-then-init step fails exactly on unopened or closed files and keeps path, id and world |
| Save.EnsureSchemaEstablishes | src/yarl/save.py:57-58 | after the step the store is well formed, passes is_valid and holds every schema table |
| Save.EnsureSchemaNoOp | src/yarl/save.py:57-58 | on a store that already holds the schema, the step changes nothing |
| Save.SaveWorld | src/yarl/save.py:53-66 | save fails with RuntimeError unless opened, and with AttributeError after init when no world is loaded; otherwise the world's save runs on the schema-checked store |
| Save.SaveWorldSeesSchema | src/yarl/save.py:53-66 | on an open file with a world, save succeeds and the world's save sees a store holding the schema |
| Save.LoadBlockMapping | src/yarl/save.py:81-91 | an existing block_mappings row is loaded and the store kept; otherwise the built map is inserted as that row |
| Save.MappingKeepsOtherTables | src/yarl/save.py:83-91 | looking up the block mapping changes no table but metadata and keeps the listing |
| Save.BlockMappingStoredOnce | src/yarl/save.py:83-91 | a second load finds the stored mapping, so the row is inserted at most once |
| Save.KeyByNameLastWins | src/yarl/save.py:112 | keying by name keeps, for each name, the last item of the list with that name |
| Save.LoadLevels | src/yarl/save.py:116-127 | the levels of a region are keyed by name and carry the region id passed in; a name is present exactly when some matching row has it |
| Save.LoadRegionsKeys | src/yarl/save.py:102-114 | each loaded region is keyed by its name, carries the world id passed in, and holds the levels loaded for its id |
| Save.LoadRegions | src/yarl/save.py:102-114 | a name is a key of the loaded regions exactly when some row of the world has it |
| Save.LoadRegionsLastWins | src/yarl/save.py:102-114 | each loaded region is built from a row of the world with its name that no later row of the world shares |
| Save.LoadLevelsLastWins | src/yarl/save.py:116-127 | each loaded level is built from a matching row with its name that no later matching row shares |
| Save.LoadWorldFrom | src/yarl/save.py:93-127 | the worlds table is read first (DatabaseError when missing, TypeError when no row has the id); then the regions table, then the levels table only when a region row matches; on success the world has the id, a matching row's name and its regions |
| Save.LoadWorldFromQueryOrder | src/yarl/save.py:93-117 | a missing world row is TypeError before any other table is read, and a world without regions loads with no levels table at all |
| Save.LoadFromStore | src/yarl/save.py:81-100 | the store part of load fails only with DatabaseError or TypeError and loads the world with the requested id |
| Save.LoadFromStoreEffect | src/yarl/save.py:81-100 | on a store holding the schema, the only change is the inserted mapping row, and the outcome is the world read from the worlds table |
| Save.Load | src/yarl/save.py:74-100 | load fails with RuntimeError unless opened and DatabaseError when closed; on success the file holds the world with its id; on failure the world is kept |
| Save.LoadEffect | src/yarl/save.py:74-100 | on an open file, load runs the schema step and then the store part |
| Save.InsertWorldZero | src/yarl/save.py:137 | the insert of world 0 fails only with DatabaseError |
| Save.InsertWorldZeroIntoEmpty | src/yarl/save.py:137 | into an empty worlds table the insert succeeds and leaves exactly the row (0, name) |
| Save.ClearStore | src/yarl/save.py:136-137 | clearing and inserting world 0 fails only with DatabaseError |
| Save.ClearStoreLeavesOneWorld | src/yarl/save.py:136-137 | on a store holding the schema, afterwards worlds holds exactly (0, name) and every other schema table is empty |
| Save.Clear | src/yarl/save.py:129-138 | clear fails with RuntimeError unless opened and DatabaseError when closed, and keeps path, id and world |
| Save.ClearLeavesOneWorld | src/yarl/save.py:129-138 | on an open file, clear succeeds and leaves one world row (0, name) and all other schema tables empty |
| Save.UnopenedFileRefuses | src/yarl/save.py:35-131 | has_schema, init, save, load and clear all raise RuntimeError before open and change nothing |
| Save.ClosedFileFails | src/yarl/save.py:31-58 | after open and close, has_schema answers False and every other operation fails with DatabaseError |
| Package.EmptyIndex | src/yarl/package.py:141-145 | a new index has four empty pools |
| Package.AddItem | src/yarl/package.py:147-152 | add_item fails with KeyError exactly for a name already in the pool; otherwise it stores (path, meta) there and leaves the other pools unchanged |
| Package.HasItem | src/yarl/package.py:154-155 | has_item is membership in the selected pool; Package.AddThenGet ties it to add_item |
| Package.GetItem | src/yarl/package.py:157-162 | get_item returns the stored pair and raises KeyError exactly when has_item is false |
| Package.AddThenGet | src/yarl/package.py:147-162 | after adding a new name it is found with its pair, and every other lookup answers as before |
| Package.AddTwiceFails | src/yarl/package.py:149-150 | adding the same name twice fails whatever the second pair |
| Package.AddAll | src/yarl/package.py:147-152 | indexing a list fails only with KeyError, and then every listed name is in the pool, the entries already there are kept and the other pools are unchanged |
| Package.AddAllDistinct | src/yarl/package.py:147-152 | adding a list succeeds exactly when its names are new and pairwise distinct, and then stores each entry |
| Package.Load | src/yarl/package.py:164-169 | loading stores modules under src/name, tilesets under assets/name, resources under their name, and copies loaders |
| Package.JsonKeepsModules | src/yarl/package.py:171-176 | json then load keeps the loaders and the module names and metas |
| Package.JsonLosesTilesets | src/yarl/package.py:171-176 | json then load replaces the tileset and resource pools by the module names |
| Package.ModuleName | src/yarl/package.py:86-91 | the package flag holds exactly when the path contains `__init__.py` |
| Package.ModuleNameOfModule | src/yarl/package.py:86-91 | a file d1/…/dn/m.py is named base.d1.….dn.m and is not a package |
| Package.ModuleNameOfPackage | src/yarl/package.py:86-91 | a file d1/…/dn/`__init__.py` is named base.d1.….dn and is a package |
| Package.RootPackageIsBase | src/yarl/package.py:86-91 | the root `__init__.py` is named the base package itself |
| Package.IndexSources | src/yarl/package.py:93-96 | indexing sources registers every walked file's module name and then the manifest as a loader with its base package |
| Package.TilesetName | src/yarl/package.py:50 | a tileset name is the manifest name, a dot, and the tileset's own name |
| Package.TilesetNameInjective | src/yarl/package.py:47-51 | distinct tilesets of one manifest get distinct names, and a dot-free manifest name is recovered at the first dot |
| Package.IndexTilesets | src/yarl/package.py:53-55 | indexing tilesets registers each under its qualified name and touches no other pool |
| Package.IndexResources | src/yarl/package.py:116-124 | indexing resources registers each under the manifest path joined with its relative path and touches no other pool |
| Package.Dispatch | src/yarl/package.py:284-290 | a name containing .json is a directory package, else one containing .zip an archive, else RuntimeError |
| Package.Dedup | src/yarl/package.py:276 | the package list keeps each name once and loses none |
| Package.DedupOfDistinct | src/yarl/package.py:276 | a list without repeats keeps its order |
| Package.DedupKeepsFirstOrder | src/yarl/package.py:276 | the deduplicated list keeps the names in the order of their first occurrence |
| Package.LoadEach | src/yarl/package.py:279-292 | loading succeeds exactly when every name has a known type, and then loads each in order |
| Package.BuildModules | src/yarl/package.py:317-323 | a module is in the table exactly when some loaded package indexes it |
| Package.BuildModulesLastWins | src/yarl/package.py:317-323 | a module maps to the last package that indexes it |
| Package.LoadPackages | src/yarl/package.py:274-294 | loading fails with RuntimeError exactly when some name has no known type |
| Package.FindModule | src/yarl/package.py:325-330 | find_module answers exactly when the name is in the table; Package.FindModuleAfterLoad ties it to the loaded packages |
| Package.FindModuleAfterLoad | src/yarl/package.py:279-330 | after loading, find_module answers exactly for the modules some listed package indexes |
| Assets.Compose | src/assets.py:18-23 | calling a composition of no functions raises IndexError; of one function, it is that function |
| Assets.ComposeLast | src/assets.py:18-23 | the last function is applied last to the composition of the others, so functions run first to last |
| Assets.ComposeAppend | src/assets.py:18-23 | composing two lists equals composing the second after the first |
| Assets.ApplyAllSnoc | src/assets.py:18-23 | applying a list with one more function applies that function last |
| Assets.ApplyAllAppend | src/assets.py:18-23 | applying two lists in one goes through the first and then the second |
| Assets.Update | src/assets.py:43-44 | the merged keywords have every key of both, the call's value winning |
| Assets.PartialOfPartial | src/assets.py:38-47 | a partial of a partial presets both argument lists in order and merges both keyword maps, the later winning |
| Assets.PartialNoArgs | src/assets.py:38-47 | called with nothing, a partial calls the function with exactly its presets |
| Assets.NewBuildIndex | src/assets.py:153-156 | a new build index has three empty lists |
| Assets.AddName | src/assets.py:158-174 | adding fails with KeyError exactly for a listed name; otherwise it appends at the end and leaves the other lists unchanged |
| Assets.AddNameKeepsValid | src/assets.py:158-174 | adding keeps every list free of duplicates |
| Assets.AddNames | src/assets.py:158-174 | adding several names fails only with KeyError and leaves the other lists unchanged |
| Assets.AddNamesDistinct | src/assets.py:158-174 | adding a list succeeds exactly when its names are new and distinct, and then appends them in order |
| Assets.Json | src/assets.py:176-180 | the json holds the three lists as they are |
| Assets.ModuleNameAgrees | src/assets.py:127-128 | the build script's module name equals the runtime index's for every path |
| Assets.ModuleNameOfFiles | src/assets.py:127-128 | module files and package directories get their dotted names |
| Assets.BuildSources | src/assets.py:111-136 | a sources build fails only with KeyError and touches only the module list |
| Assets.BuildSourcesModules | src/assets.py:134-136 | a sources build succeeds exactly when the walked files give new distinct names, and then lists them in walk order |
| Assets.BuildTilesetsDistinct | src/assets.py:92-96 | when none of its names is indexed yet, a tileset build succeeds exactly when the manifest repeats no tileset, and then lists the qualified names in order |
| Assets.BuildTilesets | src/assets.py:92-96 | a tileset build fails only with KeyError and touches only the tileset list |
| Assets.BuildOne | src/assets.py:148-149 | a resources manifest adds nothing; a build fails only with KeyError |
| Assets.BuildAllKeepsValid | src/assets.py:201-203 | building every manifest keeps the lists free of duplicates |
| Assets.BuildAllNoResources | src/assets.py:148-149 | no build adds a resource |
| Assets.BuildAll | src/assets.py:201-203 | building the manifests in turn fails only with KeyError |
| Assets.BuildArchive | src/assets.py:198-205 | the archive build fails only with KeyError |
| Assets.BuildArchiveDistinct | src/assets.py:198-205 | the written json lists each module and tileset once and no resources |
| Services.NewContainer | src/yarl/service.py:6-11 | a new container has no factories and holds itself as service_container |
| Services.AddFactory | src/yarl/service.py:13-17 | add_factory fails with KeyError exactly for a name with a factory, otherwise adds it and nothing else |
| Services.AddInstance | src/yarl/service.py:19-23 | add_instance fails with KeyError exactly for a name with an instance, otherwise adds it and nothing else |
| Services.Load | src/yarl/service.py:34-39 | load calls the name's factory once and stores a new object, or fails with KeyError without a factory |
| Services.GetService | src/yarl/service.py:25-32 | service returns an existing instance without calling a factory; otherwise it calls the factory once and caches the result; KeyError when there is neither; existing instances are kept |
| Services.GetServiceKeepsValid | src/yarl/service.py:34-39 | a loaded object is new: no earlier instance equals it |
| Services.GetServiceMemoises | src/yarl/service.py:25-39 | a second request returns the same object and calls no factory |
| Services.RepeatCallsOnce | src/yarl/service.py:25-39 | any number of requests has the effect of one |
| Services.AddInstanceAfterLoad | src/yarl/service.py:19-21 | once a service is loaded, its name can no longer be given an instance |
| Services.NewServiceProperty | src/yarl/service.py:47-49 | a descriptor starts with its name and an empty cache |
| Services.PropertyGet | src/yarl/service.py:51-56 | a filled cache is returned without consulting the container; an empty one is filled from the container |
| Services.PropertyGetCaches | src/yarl/service.py:51-56 | after one read of a non-None service, every later read returns it against any container |
| Services.PropertySet | src/yarl/service.py:58-59 | assigning an injected property raises RuntimeError |
| Services.PropertyDelete | src/yarl/service.py:61-62 | deleting an injected property raises RuntimeError |
| Services.ResolveAll | src/yarl/service.py:80 | resolving the injected services fails only with KeyError; it keeps the container's factories and instances and adds an instance exactly for each named service |
| Services.ResolveAllSucceeds | src/yarl/service.py:80 | resolution succeeds exactly when every named service has an instance or a factory |
| Services.ResolveAllAttrs | src/yarl/service.py:80 | the injected map has exactly the listed attributes |
| Services.ResolveAllValues | src/yarl/service.py:80 | each injected attribute is bound to the container's instance of the service named by the last item with that attribute |
| Services.InjectorCall | src/yarl/service.py:78-81 | caller keywords not injected are passed unchanged and every injected attribute is passed |
| Services.InjectedWins | src/yarl/service.py:78-81 | an injected attribute overrides the caller's keyword of that name with the container's service |
| Scenes.NewSceneGraph | src/yarl/scene.py:7-8 | a new graph has an empty stack |
| Scenes.Top | src/yarl/scene.py:10-11 | top is the last scene, IndexError on an empty stack |
| Scenes.Push | src/yarl/scene.py:13-17 | push on an empty stack fails before any change; otherwise the scene goes on top, the rest stays, and the hooks run as old on_exit then new on_enter |
| Scenes.Pop | src/yarl/scene.py:19-23 | pop fails on an empty stack; with one scene it removes it and then fails; otherwise it removes only the top and runs old on_exit then new on_enter |
| Scenes.Update | src/yarl/scene.py:25-27 | update acts on the top scene only and leaves the stack as it is |
| Scenes.Display | src/yarl/scene.py:29-31 | display acts on the top scene only and leaves the stack as it is |
| Scenes.PushThenPop | src/yarl/scene.py:13-23 | a push followed by a pop restores the stack, with the hooks in mirror order |
| Scenes.PushAllStacks | src/yarl/scene.py:13-17 | pushes on a non-empty stack all succeed and stack the scenes in order |
| Scenes.PopNUnstacks | src/yarl/scene.py:19-23 | as many pops as scenes stacked restore the stack below them |
| Scenes.PushesThenPops | src/yarl/scene.py:13-23 | any sequence of pushes is undone by as many pops |

## Left out

- I/O is not modelled. This covers sqlite's SQL text, adapters and converters, JSON and zip reading and writing, directory walks and globbing, and pickle files. Walked paths and manifest contents are parameters. The store stands in for the database.
- Transactions, `commit` and rollback are not modelled. A successful call's writes are visible at once.
- Directory separators are `/`.
- The float that `cantor_pairing` returns is modelled as an exact real. Precision loss beyond 2^53 is not modelled.
- `make_slug` is modelled on ASCII; `str.lower` on other characters is not.
- `Floor.save` and `Floor.load` are empty in the source, so a call changes nothing. The model has no operation for them.
- Tiles.NewTile: `src/yarl/tile.py:7` calls `BlockRegistry.instance()`, but `src/yarl/block.py` gives `BlockRegistry` no `instance` method and no `Singleton` decorator, so as written that call raises AttributeError. The model passes in the registry the call is meant to return.
- Save.Load: the `BlockRegistry.instance()` call at `src/yarl/save.py:81` is left out for the same reason; the registry's part is a parameter.
- The `Container` of `src/yarl/service.py` is a `Singleton`; the model passes it explicitly.
- `src/yarl/block.py` defines no `build_map`, `save_map` or `load_map`, which `src/yarl/save.py:86-91` calls on the registry. The mapping text is a parameter.
- `src/yarl/map/__init__.py` defines no `Region` or `Level`, which `src/yarl/save.py:7` imports, and its `World.save` writes a pickle file rather than rows. The effect of the world's, regions' and levels' `save` calls on the store is a parameter.
- Schema.Bind: only which attributes an object has decides whether binding succeeds; sqlite's adaptation of the values' Python types is not modelled.
- `ChunkTable.select` is not modelled; it relies on `cursor.rowcount`.
- `SaveFile.upsert`, `SaveFile.select` and the stub `get_chunk` are not modelled.
- Services.Load: a factory that raises is not modelled. A factory call always yields a new object.
- The injector's `services` dictionary is a sequence of (attribute, service name) pairs in insertion order. A dictionary's attributes are distinct; the lemmas assume only that no later item repeats the attribute in question.
- The `Injector` passes the merged keywords to the decorated callable. That call is not modelled, and neither is `__instancecheck__`.
- Assets.Compose: the first function may take other arguments than the later ones in the source. The model uses one type throughout.
- `hash_file`, `base_dir` and the archive writes of `src/assets.py` are not modelled.
- `PackageManifest` in both files is not modelled beyond its build loop (Assets.BuildArchive): manifest parsing, logging, and the `RuntimeError` of `PackageManifest.build` in `src/assets.py`.
- `load_module`, `get_package` and the `exec` of module sources in `src/yarl/package.py` are not modelled, nor is `sys.meta_path`.
- `ArchivePackage` and `DirectoryPackage` reading are not modelled. A package's loaded index is a parameter.
- Scene hooks are recorded as events. What a scene does in them is not modelled, including the base `Scene.display` raising `NotImplementedError`.
- `src/yarl/util.py` does not define the `base_dir`, `partial` and `Singleton` that other modules import from it. These are not part of this model.

## Findings

| source | as written | input that shows it | evidently intended | confidence | as-written member | corrected member |
|---|---|---|---|---|---|---|
| src/yarl/map/__init__.py:24-26 | `World.__setstate__` restores `name` and `floors` but not `size`, although `__getstate__` saves it | pickle a `World("p", "w")`, unpickle it, and call `floor("new")`: `Floor(name, self.size)` reads a missing attribute and raises AttributeError | restore `size` from the state, so an unpickled world can still create floors | not executed | Maps.UnpickledWorldCannotCreateFloors | Maps.WorldPickleRoundTrip |
