/** `yarl.save`: a save file over the abstract store.  A call returns the
    file as it stands afterwards together with its outcome, because an
    exception raised half-way leaves the work done before it in place
    (the schema created by `init`, the committed block-mapping row).  The
    registry's `build_map`, `save_map` and `load_map` are not defined in
    `src/yarl/block.py`, and `src/yarl/map/__init__.py` defines no `Region`
    or `Level` and a `World.save` that writes a pickle file, not rows: the
    mapping text `save_map` would produce and the effect of the world's,
    regions' and levels' `save` calls on the store are parameters. */
module Save {
  import opened Wrappers
  import opened Util
  import opened Schema

  /** The sqlite connection: the database it works on and whether `close`
      was called on it. */
  datatype Conn = Conn(store: Store, closed: bool)

  /** The objects `load` builds from rows, each holding its constructor
      arguments and its `id`. */
  datatype LoadedLevel = LoadedLevel(id: int, name: string, size: Vec2, regionId: int)

  datatype LoadedRegion =
    LoadedRegion(id: int, name: string, size: Vec2, worldId: int, levels: map<string, LoadedLevel>)

  datatype LoadedWorld = LoadedWorld(id: int, name: string, regions: map<string, LoadedRegion>)

  /** `SaveFile`; `open` sets `conn`, `schema` and `is_open` together and
      nothing resets them, so the file is open exactly when it has a
      connection. */
  datatype SaveFile = SaveFile(path: string, worldId: int, conn: Option<Conn>, world: Option<LoadedWorld>)

  predicate IsOpen(sf: SaveFile)
  {
    sf.conn.Some?
  }

  /** Where `load` took the block mapping from: the stored row, or the
      registry's freshly built map (then stored). */
  datatype BlockMapping = Loaded(text: string) | Built(text: string)

  const BlockMappingsKey := "block_mappings"

  /** `SaveFile(fpath, world_id)`. */
  function NewSaveFile(path: string, worldId: int): (sf: SaveFile)
    ensures !IsOpen(sf) && sf.world.None?
    ensures sf.path == path && sf.worldId == worldId
  {
    SaveFile(path, worldId, None, None)
  }

  /** `open()`: connects to the database `db` found at the path. */
  function Open(sf: SaveFile, db: Store): (r: SaveFile)
    ensures IsOpen(r) && r.conn.value == Conn(db, false)
    ensures r.path == sf.path && r.worldId == sf.worldId && r.world == sf.world
  {
    sf.(conn := Some(Conn(db, false)))
  }

  /** `close()`: closes the connection (`AttributeError` before any `open`)
      but leaves `is_open` set. */
  function Close(sf: SaveFile): (r: Result<SaveFile>)
    ensures r.Ok? <==> IsOpen(sf)
    ensures r.Err? ==> r.error == AttributeError
    ensures r.Ok? ==> IsOpen(r.value) && r.value.conn.value == sf.conn.value.(closed := true)
    ensures r.Ok? ==> r.value.world == sf.world
  {
    if sf.conn.None? then Err(AttributeError)
    else Ok(sf.(conn := Some(sf.conn.value.(closed := true))))
  }

  /** `has_schema()`: `is_valid` applied to the one-shot iterator over the
      table listing; a closed connection raises a `DatabaseError`, which
      becomes `False`. */
  function HasSchema(sf: SaveFile): (r: Result<bool>)
    ensures r.Err? <==> !IsOpen(sf)
    ensures r.Err? ==> r.error == RuntimeError
    ensures r.Ok? && sf.conn.value.closed ==> !r.value
    ensures r.Ok? && !sf.conn.value.closed ==>
      (r.value <==> InOrder(Names(SaveSchemaTables), sf.conn.value.store.order))
  {
    if sf.conn.None? then Err(RuntimeError)
    else if sf.conn.value.closed then Ok(false)
    else
      var listing := sf.conn.value.store.order;
      AllInIterIff(Names(SaveSchemaTables), listing);
      Ok(AllInIter(Names(SaveSchemaTables), listing))
  }

  /** `init()`: `SaveSchema.create`; on a closed connection its final
      `commit` raises `DatabaseError`. */
  function Init(sf: SaveFile): (r: Result<SaveFile>)
    ensures r.Ok? <==> IsOpen(sf) && !sf.conn.value.closed
    ensures !IsOpen(sf) ==> r == Err(RuntimeError)
    ensures IsOpen(sf) && sf.conn.value.closed ==> r == Err(DatabaseError)
    ensures r.Ok? ==> r.value == sf.(conn := Some(Conn(CreateAll(sf.conn.value.store), false)))
  {
    if sf.conn.None? then Err(RuntimeError)
    else if sf.conn.value.closed then Err(DatabaseError)
    else Ok(sf.(conn := Some(Conn(CreateAll(sf.conn.value.store), false))))
  }

  /** The prologue of `save`, `load` and `clear`: the open guard, then
      `init` whenever `has_schema` is false. */
  function EnsureSchema(sf: SaveFile): (r: Result<SaveFile>)
    ensures r.Ok? <==> IsOpen(sf) && !sf.conn.value.closed
    ensures !IsOpen(sf) ==> r == Err(RuntimeError)
    ensures IsOpen(sf) && sf.conn.value.closed ==> r == Err(DatabaseError)
    ensures r.Ok? ==> IsOpen(r.value) && !r.value.conn.value.closed
    ensures r.Ok? ==> r.value.path == sf.path && r.value.worldId == sf.worldId && r.value.world == sf.world
  {
    var has :- HasSchema(sf);
    if has then Ok(sf) else Init(sf)
  }

  /** Every table of the schema is in the store. */
  ghost predicate HasSchemaTables(s: Store)
  {
    forall k :: k in SaveSchemaTables ==> TableName(k) in s.tables
  }

  /** After the prologue every schema table exists and the listing stays
      well formed. */
  lemma EnsureSchemaEstablishes(sf: SaveFile)
    requires IsOpen(sf) && !sf.conn.value.closed
    requires Valid(sf.conn.value.store)
    ensures var s := EnsureSchema(sf).value.conn.value.store;
            Valid(s) && IsValid(s.order) && HasSchemaTables(s)
  {
    var s0 := sf.conn.value.store;
    if HasSchema(sf).value {
      IterValidationIsStricter();
    } else {
      CreateAllMakesValid(s0);
    }
    var s := EnsureSchema(sf).value.conn.value.store;
    assert IsValid(s.order);
    forall k | k in SaveSchemaTables
      ensures TableName(k) in s.tables
    {
      assert TableName(k) in s.order;
    }
  }

  /** A database that already has every schema table passes the prologue
      unchanged, whatever order its listing has. */
  lemma EnsureSchemaNoOp(sf: SaveFile)
    requires IsOpen(sf) && !sf.conn.value.closed
    requires HasSchemaTables(sf.conn.value.store)
    ensures EnsureSchema(sf) == Ok(sf)
  {
    var s0 := sf.conn.value.store;
    if !HasSchema(sf).value {
      var ks := SaveSchemaTables;
      assert forall i :: 0 <= i < |ks| ==> TableName(ks[i]) in s0.tables;
      CreateEachNoOp(s0, ks);
    }
  }

  /** `save()`: after the prologue, the world, its regions and their
      levels save themselves (`persist` is their combined effect on the
      store) and the connection commits; with no world loaded the first
      `save` call raises `AttributeError`. */
  function SaveWorld(sf: SaveFile, persist: (Store, LoadedWorld) -> Store): (r: (SaveFile, Result<()>))
    ensures !IsOpen(sf) ==> r == (sf, Err(RuntimeError))
    ensures r.1.Ok? <==> IsOpen(sf) && !sf.conn.value.closed && sf.world.Some?
    ensures r.1.Ok? ==>
      var s := EnsureSchema(sf).value.conn.value.store;
      r.0 == sf.(conn := Some(Conn(persist(s, sf.world.value), false)))
    ensures IsOpen(sf) && !sf.conn.value.closed && sf.world.None? ==>
      r == (EnsureSchema(sf).value, Err(AttributeError))
  {
    match EnsureSchema(sf)
    case Err(e) => (sf, Err(e))
    case Ok(sf1) =>
      if sf1.world.None? then (sf1, Err(AttributeError))
      else
        var s := persist(sf1.conn.value.store, sf1.world.value);
        (sf1.(conn := Some(Conn(s, false))), Ok(()))
  }

  /** The world saves itself into a database that holds every schema
      table, since the prologue ran first. */
  lemma SaveWorldSeesSchema(sf: SaveFile, persist: (Store, LoadedWorld) -> Store)
    requires IsOpen(sf) && !sf.conn.value.closed && sf.world.Some?
    requires Valid(sf.conn.value.store)
    ensures SaveWorld(sf, persist).1.Ok?
    ensures exists s ::
              && Valid(s) && HasSchemaTables(s)
              && SaveWorld(sf, persist).0.conn.value.store == persist(s, sf.world.value)
  {
    EnsureSchemaEstablishes(sf);
    var s := EnsureSchema(sf).value.conn.value.store;
    assert SaveWorld(sf, persist).0.conn.value.store == persist(s, sf.world.value);
  }

  /** Index of the first row `p` accepts, the row `fetchone` returns. */
  function FirstWhere(rows: seq<Row>, p: Row -> bool): (r: Option<nat>)
    ensures r.None? <==> forall i :: 0 <= i < |rows| ==> !p(rows[i])
    ensures r.Some? ==> r.value < |rows| && p(rows[r.value])
    ensures r.Some? ==> forall j :: 0 <= j < r.value ==> !p(rows[j])
  {
    if |rows| == 0 then None
    else if p(rows[0]) then Some(0)
    else match FirstWhere(rows[1..], p)
      case None => None
      case Some(i) => Some(i + 1)
  }

  predicate IsMappingRow(row: Row)
  {
    row.data.MetaRow? && row.data.dataKey == BlockMappingsKey
  }

  /** The block-mapping step of `load`: the stored value when a
      `block_mappings` row exists, otherwise `built` (what `save_map`
      returns after `build_map`) inserted as a new row. */
  function LoadBlockMapping(s: Store, built: string): (r: Result<(Store, BlockMapping)>)
    ensures r.Ok? <==> TableName(MetaTable) in s.tables
    ensures r.Err? ==> r.error == DatabaseError
    ensures r.Ok? ==>
      var meta := s.tables[TableName(MetaTable)];
      match FirstWhere(meta, IsMappingRow)
      case Some(i) => r.value == (s, Loaded(meta[i].data.dataVal))
      case None =>
        && r.value.1 == Built(built)
        && exists id :: r.value.0 == WithRows(s, TableName(MetaTable), meta + [Row(id, MetaRow(BlockMappingsKey, built))])
  {
    var t := TableName(MetaTable);
    if t !in s.tables then Err(DatabaseError)
    else
      var meta := s.tables[t];
      match FirstWhere(meta, IsMappingRow)
      case Some(i) => Ok((s, Loaded(meta[i].data.dataVal)))
      case None =>
        Ok((WithRows(s, t, meta + [Row(NextId(meta), MetaRow(BlockMappingsKey, built))]), Built(built)))
  }

  /** A mapping is built and stored at most once: a second lookup finds
      the row the first one stored and changes nothing. */
  lemma BlockMappingStoredOnce(s: Store, built: string, later: string)
    requires LoadBlockMapping(s, built).Ok?
    ensures var (s1, m1) := LoadBlockMapping(s, built).value;
            LoadBlockMapping(s1, later) == Ok((s1, Loaded(m1.text)))
  {
    var t := TableName(MetaTable);
    var meta := s.tables[t];
    var (s1, m1) := LoadBlockMapping(s, built).value;
    if FirstWhere(meta, IsMappingRow).None? {
      var meta1 := s1.tables[t];
      assert IsMappingRow(meta1[|meta|]);
      assert FirstWhere(meta1, IsMappingRow) == Some(|meta|);
    }
  }

  /** Keys items by name; a later item replaces an earlier one of the same
      name, as repeated `d[name] = item` does. */
  function KeyByName<T>(items: seq<T>, name: T -> string): (m: map<string, T>)
    ensures m.Keys == set i | 0 <= i < |items| :: name(items[i])
  {
    if |items| == 0 then map[]
    else
      var last := items[|items| - 1];
      var m := KeyByName(items[..|items| - 1], name);
      assert forall i :: 0 <= i < |items| - 1 ==> items[..|items| - 1][i] == items[i];
      m[name(last) := last]
  }

  /** The item kept under a name is the last one bearing it; `i` is its
      position. */
  lemma {:induction false} KeyByNameLastWins<T>(items: seq<T>, name: T -> string, n: string) returns (i: nat)
    requires n in KeyByName(items, name)
    ensures i < |items| && items[i] == KeyByName(items, name)[n] && name(items[i]) == n
    ensures forall j :: i < j < |items| ==> name(items[j]) != n
  {
    var last := items[|items| - 1];
    var init := items[..|items| - 1];
    if name(last) != n {
      i := KeyByNameLastWins(init, name, n);
      assert items[i] == init[i];
      assert forall j :: i < j < |items| - 1 ==> items[j] == init[j];
    } else {
      i := |items| - 1;
    }
  }

  /** Keying one more item sets its name to it. */
  lemma KeyByNameSnoc<T>(items: seq<T>, x: T, name: T -> string)
    ensures KeyByName(items + [x], name) == KeyByName(items, name)[name(x) := x]
  {
    assert (items + [x])[..|items|] == items;
  }

  predicate IsLevelOf(row: Row, regionId: int)
  {
    row.data.LevelRow? && row.data.regionId == regionId
  }

  /** The levels `SELECT * FROM levels WHERE region_id = ?` returns, as
      objects carrying the region id passed in. */
  function LevelItems(rows: seq<Row>, regionId: int): (r: seq<LoadedLevel>)
    ensures forall l :: l in r <==> exists i :: 0 <= i < |rows| && IsLevelOf(rows[i], regionId) && l == LevelOf(rows[i], regionId)
  {
    if |rows| == 0 then []
    else
      var rest := LevelItems(rows[1..], regionId);
      assert forall i :: 1 <= i < |rows| ==> rows[i] == rows[1..][i - 1];
      if IsLevelOf(rows[0], regionId) then [LevelOf(rows[0], regionId)] + rest else rest
  }

  function LevelOf(row: Row, regionId: int): LoadedLevel
    requires IsLevelOf(row, regionId)
  {
    LoadedLevel(row.id, row.data.name, row.data.size, regionId)
  }

  function LevelName(l: LoadedLevel): string { l.name }

  function RegionName(x: LoadedRegion): string { x.name }

  /** `load_levels(region_id)`. */
  function LoadLevels(rows: seq<Row>, regionId: int): (m: map<string, LoadedLevel>)
    ensures forall n :: n in m ==> m[n].name == n && m[n].regionId == regionId
    ensures forall n :: n in m <==> exists i :: 0 <= i < |rows| && IsLevelOf(rows[i], regionId) && rows[i].data.name == n
  {
    var items := LevelItems(rows, regionId);
    var m := KeyByName(items, LevelName);
    forall n | n in m
      ensures m[n].name == n && m[n].regionId == regionId
    {
      var i := KeyByNameLastWins(items, LevelName, n);
      assert items[i] in items;
    }
    forall n
      ensures n in m <==> exists i :: 0 <= i < |rows| && IsLevelOf(rows[i], regionId) && rows[i].data.name == n
    {
      if exists i :: 0 <= i < |rows| && IsLevelOf(rows[i], regionId) && rows[i].data.name == n {
        var i :| 0 <= i < |rows| && IsLevelOf(rows[i], regionId) && rows[i].data.name == n;
        var l := LevelOf(rows[i], regionId);
        assert l in items;
        var j :| 0 <= j < |items| && items[j] == l;
        assert n == LevelName(items[j]);
      }
      if n in m {
        var j :| 0 <= j < |items| && LevelName(items[j]) == n;
        assert items[j] in items;
      }
    }
    m
  }

  /** Of the level rows of the region sharing a name, the last one is the
      level kept under that name. */
  lemma {:induction false} LoadLevelsLastWins(rows: seq<Row>, regionId: int, n: string) returns (i: nat)
    requires n in LoadLevels(rows, regionId)
    ensures i < |rows| && IsLevelOf(rows[i], regionId) && rows[i].data.name == n
    ensures LoadLevels(rows, regionId)[n] == LevelOf(rows[i], regionId)
    ensures forall j :: i < j < |rows| && IsLevelOf(rows[j], regionId) ==> rows[j].data.name != n
    decreases |rows|
  {
    var init := rows[..|rows| - 1];
    var last := rows[|rows| - 1];
    assert rows == init + [last];
    LevelItemsAppend(init, [last], regionId);
    assert [last][1..] == [];
    var pre := LevelItems(init, regionId);
    if IsLevelOf(last, regionId) {
      KeyByNameSnoc(pre, LevelOf(last, regionId), LevelName);
    } else {
      assert LevelItems(rows, regionId) == pre;
    }
    if IsLevelOf(last, regionId) && last.data.name == n {
      i := |rows| - 1;
    } else {
      i := LoadLevelsLastWins(init, regionId, n);
      assert rows[i] == init[i];
      assert forall j :: i < j < |rows| - 1 ==> rows[j] == init[j];
    }
  }

  lemma {:induction false} LevelItemsAppend(xs: seq<Row>, ys: seq<Row>, regionId: int)
    ensures LevelItems(xs + ys, regionId) == LevelItems(xs, regionId) + LevelItems(ys, regionId)
  {
    if |xs| > 0 {
      assert (xs + ys)[1..] == xs[1..] + ys;
      LevelItemsAppend(xs[1..], ys, regionId);
    } else {
      assert xs + ys == ys;
    }
  }

  predicate IsRegionOf(row: Row, worldId: int)
  {
    row.data.RegionRow? && row.data.worldId == worldId
  }

  function RegionOf(row: Row, worldId: int, levelRows: seq<Row>): LoadedRegion
    requires IsRegionOf(row, worldId)
  {
    LoadedRegion(row.id, row.data.name, row.data.size, worldId, LoadLevels(levelRows, row.id))
  }

  /** The regions `SELECT * FROM regions WHERE world_id = ?` returns, each
      with its levels loaded. */
  function RegionItems(rows: seq<Row>, worldId: int, levelRows: seq<Row>): (r: seq<LoadedRegion>)
    ensures forall x :: x in r <==> exists i :: 0 <= i < |rows| && IsRegionOf(rows[i], worldId) && x == RegionOf(rows[i], worldId, levelRows)
  {
    if |rows| == 0 then []
    else
      var rest := RegionItems(rows[1..], worldId, levelRows);
      assert forall i :: 1 <= i < |rows| ==> rows[i] == rows[1..][i - 1];
      if IsRegionOf(rows[0], worldId) then [RegionOf(rows[0], worldId, levelRows)] + rest else rest
  }

  /** `load_regions(world_id)`. */
  function LoadRegions(rows: seq<Row>, worldId: int, levelRows: seq<Row>): (m: map<string, LoadedRegion>)
    ensures forall n :: n in m <==> exists i :: 0 <= i < |rows| && IsRegionOf(rows[i], worldId) && rows[i].data.name == n
  {
    var items := RegionItems(rows, worldId, levelRows);
    var m := KeyByName(items, RegionName);
    forall n
      ensures n in m <==> exists i :: 0 <= i < |rows| && IsRegionOf(rows[i], worldId) && rows[i].data.name == n
    {
      if exists i :: 0 <= i < |rows| && IsRegionOf(rows[i], worldId) && rows[i].data.name == n {
        var i :| 0 <= i < |rows| && IsRegionOf(rows[i], worldId) && rows[i].data.name == n;
        var x := RegionOf(rows[i], worldId, levelRows);
        assert x in items;
        var j :| 0 <= j < |items| && items[j] == x;
        assert n == RegionName(items[j]);
      }
      if n in m {
        var j :| 0 <= j < |items| && RegionName(items[j]) == n;
        assert items[j] in items;
      }
    }
    m
  }

  /** Each loaded region is keyed by its name, carries the world id passed
      in and holds the levels of its own id. */
  lemma LoadRegionsKeys(rows: seq<Row>, worldId: int, levelRows: seq<Row>, n: string)
    requires n in LoadRegions(rows, worldId, levelRows)
    ensures var x := LoadRegions(rows, worldId, levelRows)[n];
            && x.name == n && x.worldId == worldId
            && x.levels == LoadLevels(levelRows, x.id)
            && exists i :: 0 <= i < |rows| && IsRegionOf(rows[i], worldId) && rows[i].id == x.id && rows[i].data.name == n
  {
    var items := RegionItems(rows, worldId, levelRows);
    var i := KeyByNameLastWins(items, RegionName, n);
    var x := LoadRegions(rows, worldId, levelRows)[n];
    assert x in items;
  }

  /** Of the region rows of the world sharing a name, the last one is the
      region kept under that name. */
  lemma {:induction false} LoadRegionsLastWins(rows: seq<Row>, worldId: int, levelRows: seq<Row>, n: string) returns (i: nat)
    requires n in LoadRegions(rows, worldId, levelRows)
    ensures i < |rows| && IsRegionOf(rows[i], worldId) && rows[i].data.name == n
    ensures LoadRegions(rows, worldId, levelRows)[n] == RegionOf(rows[i], worldId, levelRows)
    ensures forall j :: i < j < |rows| && IsRegionOf(rows[j], worldId) ==> rows[j].data.name != n
    decreases |rows|
  {
    var init := rows[..|rows| - 1];
    var last := rows[|rows| - 1];
    assert rows == init + [last];
    RegionItemsAppend(init, [last], worldId, levelRows);
    assert [last][1..] == [];
    var pre := RegionItems(init, worldId, levelRows);
    if IsRegionOf(last, worldId) {
      KeyByNameSnoc(pre, RegionOf(last, worldId, levelRows), RegionName);
    } else {
      assert RegionItems(rows, worldId, levelRows) == pre;
    }
    if IsRegionOf(last, worldId) && last.data.name == n {
      i := |rows| - 1;
    } else {
      i := LoadRegionsLastWins(init, worldId, levelRows, n);
      assert rows[i] == init[i];
      assert forall j :: i < j < |rows| - 1 ==> rows[j] == init[j];
    }
  }

  lemma {:induction false} RegionItemsAppend(xs: seq<Row>, ys: seq<Row>, worldId: int, levelRows: seq<Row>)
    ensures RegionItems(xs + ys, worldId, levelRows) == RegionItems(xs, worldId, levelRows) + RegionItems(ys, worldId, levelRows)
  {
    if |xs| > 0 {
      assert (xs + ys)[1..] == xs[1..] + ys;
      RegionItemsAppend(xs[1..], ys, worldId, levelRows);
    } else {
      assert xs + ys == ys;
    }
  }

  predicate IsWorldRow(row: Row, id: int)
  {
    row.id == id && row.data.WorldRow?
  }

  /** The rows `load_levels` reads; without a `levels` table there are
      none to read, and no query is made unless some region asks. */
  function LevelRowsOf(s: Store): (rows: seq<Row>)
    ensures TableName(LevelTable) in s.tables ==> rows == s.tables[TableName(LevelTable)]
    ensures TableName(LevelTable) !in s.tables ==> rows == []
  {
    if TableName(LevelTable) in s.tables then s.tables[TableName(LevelTable)] else []
  }

  /** The part of `load` after the block mapping, in the code's order:
      the world row of the file's id is read first (`TypeError` when there
      is none, as the code then indexes `None`), then the regions of the
      world, then the levels of each region.  A table is only missed when
      it is queried, which is a `DatabaseError`. */
  function LoadWorldFrom(s: Store, worldId: int): (r: Result<LoadedWorld>)
    ensures var (w, g, l) := (TableName(WorldTable), TableName(RegionTable), TableName(LevelTable));
      && (w !in s.tables ==> r == Err(DatabaseError))
      && ((w in s.tables && forall i :: 0 <= i < |s.tables[w]| ==> !IsWorldRow(s.tables[w][i], worldId)) ==>
            r == Err(TypeError))
      && (w in s.tables && (exists i :: 0 <= i < |s.tables[w]| && IsWorldRow(s.tables[w][i], worldId)) ==>
            && (r.Err? <==> g !in s.tables
                            || (l !in s.tables && exists i :: 0 <= i < |s.tables[g]| && IsRegionOf(s.tables[g][i], worldId)))
            && (r.Err? ==> r.error == DatabaseError))
      && (r.Ok? ==>
            && w in s.tables && g in s.tables
            && r.value.id == worldId
            && (exists i :: 0 <= i < |s.tables[w]| && IsWorldRow(s.tables[w][i], worldId) && r.value.name == s.tables[w][i].data.name)
            && r.value.regions == LoadRegions(s.tables[g], worldId, LevelRowsOf(s)))
  {
    var (w, g, l) := (TableName(WorldTable), TableName(RegionTable), TableName(LevelTable));
    if w !in s.tables then Err(DatabaseError)
    else
      var worlds := s.tables[w];
      match FirstWhere(worlds, (row: Row) => IsWorldRow(row, worldId))
      case None => Err(TypeError)
      case Some(i) =>
        if g !in s.tables then Err(DatabaseError)
        else if l !in s.tables && FirstWhere(s.tables[g], (row: Row) => IsRegionOf(row, worldId)).Some? then Err(DatabaseError)
        else Ok(LoadedWorld(worlds[i].id, worlds[i].data.name, LoadRegions(s.tables[g], worldId, LevelRowsOf(s))))
  }

  /** Tables are missed only when the code reaches their query: with no
      world row the error is the `TypeError` even if no other table
      exists, and a world without regions loads without a `levels`
      table. */
  lemma LoadWorldFromQueryOrder(name: string)
    ensures LoadWorldFrom(Store(["worlds"], map["worlds" := []]), 0) == Err(TypeError)
    ensures var s := Store(["worlds", "regions"], map["worlds" := [Row(0, WorldRow(name))], "regions" := []]);
            LoadWorldFrom(s, 0) == Ok(LoadedWorld(0, name, map[]))
  {
    var s := Store(["worlds", "regions"], map["worlds" := [Row(0, WorldRow(name))], "regions" := []]);
    assert IsWorldRow(s.tables["worlds"][0], 0);
    assert LoadRegions([], 0, []) == map[];
  }

  /** The store side of `load()`: the block mapping (stored and committed
      when new), then the world.  The store is returned even on failure,
      since the mapping row is committed before the world is read. */
  function LoadFromStore(s: Store, worldId: int, built: string): (r: (Store, Result<(BlockMapping, LoadedWorld)>))
    ensures r.1.Err? ==> r.1.error in {DatabaseError, TypeError}
    ensures r.1.Ok? ==> r.1.value.1.id == worldId
  {
    match LoadBlockMapping(s, built)
    case Err(e) => (s, Err(e))
    case Ok((s2, mapping)) =>
      match LoadWorldFrom(s2, worldId)
      case Err(e) => (s2, Err(e))
      case Ok(w) => (s2, Ok((mapping, w)))
  }

  /** On a store holding the schema, loading fails only for want of the
      world row, builds the world from that row with its regions, and
      changes no table but `metadata`, and that one only when no mapping
      was stored. */
  lemma LoadFromStoreEffect(s: Store, worldId: int, built: string)
    requires HasSchemaTables(s)
    ensures var (s', r) := LoadFromStore(s, worldId, built);
            var (w, g, l) := (TableName(WorldTable), TableName(RegionTable), TableName(LevelTable));
            && w in s.tables && g in s.tables && l in s.tables
            && (r.Ok? <==> exists i :: 0 <= i < |s.tables[w]| && IsWorldRow(s.tables[w][i], worldId))
            && (r.Err? ==> r.error == TypeError)
            && (r.Ok? ==> r.value.1.regions == LoadRegions(s.tables[g], worldId, s.tables[l]))
            && s'.order == s.order
            && (forall t :: t in s.tables && t != TableName(MetaTable) ==> t in s'.tables && s'.tables[t] == s.tables[t])
            && (r.Ok? && r.value.0.Loaded? ==> s' == s)
  {
    assert MetaTable in SaveSchemaTables;
    assert WorldTable in SaveSchemaTables && RegionTable in SaveSchemaTables && LevelTable in SaveSchemaTables;
    TableNameInjective(WorldTable, MetaTable);
    TableNameInjective(RegionTable, MetaTable);
    TableNameInjective(LevelTable, MetaTable);
    MappingKeepsOtherTables(s, built);
    var s2 := LoadBlockMapping(s, built).value.0;
    var (w, g, l) := (TableName(WorldTable), TableName(RegionTable), TableName(LevelTable));
    assert s2.tables[w] == s.tables[w] && s2.tables[g] == s.tables[g] && s2.tables[l] == s.tables[l];
    assert LevelRowsOf(s2) == s.tables[l];
  }

  /** Looking up the block mapping touches no table but `metadata`. */
  lemma MappingKeepsOtherTables(s: Store, built: string)
    requires TableName(MetaTable) in s.tables
    ensures var s2 := LoadBlockMapping(s, built).value.0;
            && s2.order == s.order
            && TableName(MetaTable) in s2.tables
            && forall t :: t in s.tables && t != TableName(MetaTable) ==> t in s2.tables && s2.tables[t] == s.tables[t]
  {
  }

  /** `load()`: the prologue, then the store side; on success the world
      is kept. */
  function Load(sf: SaveFile, built: string): (r: (SaveFile, Result<BlockMapping>))
    ensures !IsOpen(sf) ==> r == (sf, Err(RuntimeError))
    ensures IsOpen(sf) && sf.conn.value.closed ==> r == (sf, Err(DatabaseError))
    ensures r.1.Ok? ==> r.0.world.Some? && r.0.world.value.id == sf.worldId
    ensures r.1.Err? ==> r.1.error in {RuntimeError, DatabaseError, TypeError}
    ensures r.0.path == sf.path && r.0.worldId == sf.worldId
    ensures r.1.Err? ==> r.0.world == sf.world
  {
    match EnsureSchema(sf)
    case Err(e) => (sf, Err(e))
    case Ok(sf1) =>
      var (s, res) := LoadFromStore(sf1.conn.value.store, sf.worldId, built);
      var sf2 := sf1.(conn := Some(Conn(s, false)));
      match res
      case Err(e) => (sf2, Err(e))
      case Ok((mapping, w)) => (sf2.(world := Some(w)), Ok(mapping))
  }

  /** On a well-formed database `load` fails only for want of the world
      row, builds the world from it with its regions, and changes nothing
      the prologue left but the `block_mappings` row it adds when there
      is none. */
  lemma LoadEffect(sf: SaveFile, built: string)
    requires IsOpen(sf) && !sf.conn.value.closed
    requires Valid(sf.conn.value.store)
    ensures var (sf', r) := Load(sf, built);
            var s := EnsureSchema(sf).value.conn.value.store;
            var s' := sf'.conn.value.store;
            var (w, g, l) := (TableName(WorldTable), TableName(RegionTable), TableName(LevelTable));
            && w in s.tables && g in s.tables && l in s.tables
            && (r.Ok? <==> exists i :: 0 <= i < |s.tables[w]| && IsWorldRow(s.tables[w][i], sf.worldId))
            && (r.Err? ==> r.error == TypeError)
            && (r.Ok? ==> sf'.world.value.regions == LoadRegions(s.tables[g], sf.worldId, s.tables[l]))
            && s'.order == s.order
            && (forall t :: t in s.tables && t != TableName(MetaTable) ==> t in s'.tables && s'.tables[t] == s.tables[t])
            && (r.Ok? && r.value.Loaded? ==> s' == s)
  {
    EnsureSchemaEstablishes(sf);
    LoadFromStoreEffect(EnsureSchema(sf).value.conn.value.store, sf.worldId, built);
  }

  /** Whether some row already has rowid `id`. */
  predicate IdTaken(rows: seq<Row>, id: int)
  {
    exists i :: 0 <= i < |rows| && rows[i].id == id
  }

  /** `INSERT INTO worlds(id, name) VALUES(0, ?)`: an existing rowid 0
      violates the key, a `DatabaseError`. */
  function InsertWorldZero(s: Store, name: string): (r: Result<Store>)
    ensures r.Err? ==> r.error == DatabaseError
  {
    var t := TableName(WorldTable);
    if t !in s.tables || IdTaken(s.tables[t], 0) then Err(DatabaseError)
    else Ok(WithRows(s, t, s.tables[t] + [Row(0, WorldRow(name))]))
  }

  /** Into an empty `worlds` table the insert succeeds, leaving just the
      new row and every other table as it was. */
  lemma InsertWorldZeroIntoEmpty(s: Store, name: string)
    requires Valid(s)
    requires TableName(WorldTable) in s.tables && s.tables[TableName(WorldTable)] == []
    ensures InsertWorldZero(s, name).Ok?
    ensures var s' := InsertWorldZero(s, name).value;
            && Valid(s') && s'.order == s.order && s'.tables.Keys == s.tables.Keys
            && s'.tables[TableName(WorldTable)] == [Row(0, WorldRow(name))]
            && (forall u :: u in s.tables && u != TableName(WorldTable) ==> s'.tables[u] == s.tables[u])
  {
    var t := TableName(WorldTable);
    assert s.tables[t] + [Row(0, WorldRow(name))] == [Row(0, WorldRow(name))];
    WithRowsKeepsValid(s, t, [Row(0, WorldRow(name))]);
  }

  /** The store side of `clear(name)`: `SaveSchema.clear`, then the
      world row. */
  function ClearStore(s: Store, name: string): (r: Result<Store>)
    ensures r.Err? ==> r.error == DatabaseError
  {
    var s2 :- Schema.Clear(s);
    InsertWorldZero(s2, name)
  }

  /** On a well-formed store holding the schema, clearing succeeds and
      leaves exactly one world, `(0, name)`, every other schema table
      empty, and the schema valid. */
  lemma ClearStoreLeavesOneWorld(s: Store, name: string)
    requires Valid(s) && HasSchemaTables(s)
    ensures ClearStore(s, name).Ok?
    ensures var s' := ClearStore(s, name).value;
            && Valid(s') && IsValid(s'.order) == IsValid(s.order)
            && TableName(WorldTable) in s'.tables
            && s'.tables[TableName(WorldTable)] == [Row(0, WorldRow(name))]
            && (forall k :: k in SaveSchemaTables && k != WorldTable ==> s'.tables[TableName(k)] == [])
  {
    var ks := SaveSchemaTables;
    assert forall i :: 0 <= i < |ks| ==> TableName(ks[i]) in s.tables;
    ClearKeepsValidity(s);
    var s2 := Schema.Clear(s).value;
    assert WorldTable in ks;
    InsertWorldZeroIntoEmpty(s2, name);
    var s3 := InsertWorldZero(s2, name).value;
    forall k | k in SaveSchemaTables && k != WorldTable
      ensures s3.tables[TableName(k)] == []
    {
      TableNameInjective(k, WorldTable);
    }
  }

  /** `clear(name)`: the prologue, then the store side. */
  function Clear(sf: SaveFile, name: string): (r: (SaveFile, Result<()>))
    ensures !IsOpen(sf) ==> r == (sf, Err(RuntimeError))
    ensures IsOpen(sf) && sf.conn.value.closed ==> r == (sf, Err(DatabaseError))
    ensures r.0.path == sf.path && r.0.worldId == sf.worldId && r.0.world == sf.world
    ensures r.1.Err? ==> r.1.error in {RuntimeError, DatabaseError}
  {
    match EnsureSchema(sf)
    case Err(e) => (sf, Err(e))
    case Ok(sf1) =>
      match ClearStore(sf1.conn.value.store, name)
      case Err(e) => (sf1, Err(e))
      case Ok(s) => (sf1.(conn := Some(Conn(s, false))), Ok(()))
  }

  /** On a well-formed database `clear(name)` succeeds and leaves exactly
      one world, `(0, name)`, every other schema table empty, and the
      schema valid. */
  lemma ClearLeavesOneWorld(sf: SaveFile, name: string)
    requires IsOpen(sf) && !sf.conn.value.closed
    requires Valid(sf.conn.value.store)
    ensures Clear(sf, name).1.Ok?
    ensures IsOpen(Clear(sf, name).0)
    ensures var s := Clear(sf, name).0.conn.value.store;
            && Valid(s) && IsValid(s.order)
            && TableName(WorldTable) in s.tables
            && s.tables[TableName(WorldTable)] == [Row(0, WorldRow(name))]
            && (forall k :: k in SaveSchemaTables && k != WorldTable ==> s.tables[TableName(k)] == [])
  {
    EnsureSchemaEstablishes(sf);
    ClearStoreLeavesOneWorld(EnsureSchema(sf).value.conn.value.store, name);
  }

  /** Every operation that needs the file open raises `RuntimeError` and
      changes nothing before `open`. */
  lemma UnopenedFileRefuses(sf: SaveFile, persist: (Store, LoadedWorld) -> Store, built: string, name: string)
    requires !IsOpen(sf)
    ensures HasSchema(sf) == Err(RuntimeError)
    ensures Init(sf) == Err(RuntimeError)
    ensures SaveWorld(sf, persist) == (sf, Err(RuntimeError))
    ensures Load(sf, built) == (sf, Err(RuntimeError))
    ensures Clear(sf, name) == (sf, Err(RuntimeError))
  {
  }

  /** `close` leaves `is_open` set, so the guards pass afterwards and the
      closed connection fails instead: `has_schema` answers `False` and
      every other operation raises `DatabaseError`. */
  lemma ClosedFileFails(sf: SaveFile, db: Store, persist: (Store, LoadedWorld) -> Store, built: string, name: string)
    requires Valid(db)
    ensures Close(Open(sf, db)).Ok?
    ensures var c := Close(Open(sf, db)).value;
            && IsOpen(c)
            && HasSchema(c) == Ok(false)
            && Init(c) == Err(DatabaseError)
            && SaveWorld(c, persist) == (c, Err(DatabaseError))
            && Load(c, built) == (c, Err(DatabaseError))
            && Clear(c, name) == (c, Err(DatabaseError))
  {
  }
}
