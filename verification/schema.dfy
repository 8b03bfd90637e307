/** `yarl.schema`: table definitions of a save file, their DDL, the
    insert-or-update dispatch, and schema creation, validation and
    clearing.  The database is an abstract store: the table listing in
    creation order (as sqlite_master lists it) and the rows of each table,
    each with its rowid. */
module Schema {
  import opened Wrappers
  import opened Strings
  import opened Util

  // ---------------------------------------------------------------------
  // Table definitions
  // ---------------------------------------------------------------------

  datatype TableKind =
    | MetaTable
    | CharacterTable
    | WorldTable
    | RegionTable
    | LevelTable
    | ChunkTable
    | EntityTable

  /** A column: its name and its declared type. */
  type Field = (string, string)

  function TableName(k: TableKind): string
  {
    match k
    case MetaTable => "metadata"
    case CharacterTable => "characters"
    case WorldTable => "worlds"
    case RegionTable => "regions"
    case LevelTable => "levels"
    case ChunkTable => "chunks"
    case EntityTable => "entities"
  }

  function Fields(k: TableKind): seq<Field>
  {
    match k
    case MetaTable => [("data_key", "varchar(128) PRIMARY KEY"), ("data_val", "VARCHAR(128)")]
    case CharacterTable =>
      [("id", "INTEGER PRIMARY KEY"), ("name", "VARCHAR(128)"), ("level_id", "INTEGER"), ("size", "vector2")]
    case WorldTable => [("id", "INTEGER PRIMARY KEY"), ("name", "VARCHAR(128)")]
    case RegionTable =>
      [("id", "INTEGER PRIMARY KEY"), ("world_id", "INTEGER"), ("name", "VARCHAR(128)"), ("size", "vector2")]
    case LevelTable =>
      [("id", "INTEGER PRIMARY KEY"), ("region_id", "INTEGER"), ("name", "VARCHAR(128)"), ("size", "vector2")]
    case ChunkTable =>
      [("id", "INTEGER PRIMARY KEY"), ("level_id", "INTEGER"), ("pos", "vector2"), ("tiles", "tilematrix")]
    case EntityTable =>
      [("id", "INTEGER PRIMARY KEY"), ("level_id", "INTEGER"), ("type", "VARCHAR(128)"),
       ("pos", "vector2"), ("data", "pickle")]
  }

  /** Distinct tables have distinct names. */
  lemma TableNameInjective(a: TableKind, b: TableKind)
    ensures TableName(a) == TableName(b) ==> a == b
  {

  }

  /** The `depends` declaration; `None` is the empty list. */
  function Depends(k: TableKind): seq<string>
  {
    match k
    case CharacterTable => ["levels"]
    case LevelTable => ["regions"]
    case ChunkTable => ["levels"]
    case EntityTable => ["levels"]
    case _ => []
  }

  /** `SaveSchema.tables`; `CharacterTable` is not among them. */
  const SaveSchemaTables: seq<TableKind> :=
    [MetaTable, WorldTable, RegionTable, LevelTable, ChunkTable, EntityTable]

  function Names(ks: seq<TableKind>): (r: seq<string>)
    ensures |r| == |ks|
    ensures forall i :: 0 <= i < |ks| ==> r[i] == TableName(ks[i])
  {
    seq(|ks|, i requires 0 <= i < |ks| => TableName(ks[i]))
  }

  lemma AppendAssoc<T>(a: seq<T>, b: seq<T>, c: seq<T>)
    ensures (a + b) + c == a + (b + c)
  {
  }

  lemma NamesCons(ks: seq<TableKind>)
    requires |ks| > 0
    ensures Names(ks) == [TableName(ks[0])] + Names(ks[1..])
  {
  }

  /** Every table comes after each table its `depends` names. */
  ghost predicate DependencyOrdered(ks: seq<TableKind>)
  {
    forall i, d :: 0 <= i < |ks| && d in Depends(ks[i]) ==>
      exists j :: 0 <= j < i && TableName(ks[j]) == d
  }

  /** The schema list is in dependency order (levels after regions, chunks
      and entities after levels) and leaves the character table out. */
  lemma SaveSchemaOrdered()
    ensures DependencyOrdered(SaveSchemaTables)
    ensures CharacterTable !in SaveSchemaTables
    ensures Names(SaveSchemaTables) == ["metadata", "worlds", "regions", "levels", "chunks", "entities"]
  {
    var ks := SaveSchemaTables;
    forall i, d | 0 <= i < |ks| && d in Depends(ks[i])
      ensures exists j :: 0 <= j < i && TableName(ks[j]) == d
    {
      if ks[i] == LevelTable {
        assert TableName(ks[2]) == d;
      } else {
        assert TableName(ks[3]) == d;
      }
    }
  }

  // ---------------------------------------------------------------------
  // Rows and the store
  // ---------------------------------------------------------------------

  /** The column values of a row, one shape per table; `tiles` and `data`
      are the adapters' serialised forms. */
  datatype RowData =
    | MetaRow(dataKey: string, dataVal: string)
    | CharacterRow(name: string, levelId: int, size: Vec2)
    | WorldRow(name: string)
    | RegionRow(worldId: int, name: string, size: Vec2)
    | LevelRow(regionId: int, name: string, size: Vec2)
    | ChunkRow(levelId: int, pos: Vec2, tiles: string)
    | EntityRow(levelId: int, entityType: string, pos: Vec2, data: string)

  /** The row shape table `k` stores. */
  predicate Fits(k: TableKind, d: RowData)
  {
    match k
    case MetaTable => d.MetaRow?
    case CharacterTable => d.CharacterRow?
    case WorldTable => d.WorldRow?
    case RegionTable => d.RegionRow?
    case LevelTable => d.LevelRow?
    case ChunkTable => d.ChunkRow?
    case EntityTable => d.EntityRow?
  }

  /** The attribute names, besides `id`, of an object with columns `d`:
      the column names of its own shape. */
  function Attrs(d: RowData): set<string>
  {
    match d
    case MetaRow(_, _) => {"data_key", "data_val"}
    case CharacterRow(_, _, _) => {"name", "level_id", "size"}
    case WorldRow(_) => {"name"}
    case RegionRow(_, _, _) => {"world_id", "name", "size"}
    case LevelRow(_, _, _) => {"region_id", "name", "size"}
    case ChunkRow(_, _, _) => {"level_id", "pos", "tiles"}
    case EntityRow(_, _, _, _) => {"level_id", "type", "pos", "data"}
  }

  /** The named parameters, besides `:id`, that table `k`'s insert and
      update statements read from the object's attributes. */
  function Params(k: TableKind): set<string>
  {
    match k
    case MetaTable => {}
    case CharacterTable => {}
    case WorldTable => {"name"}
    case RegionTable => {"world_id", "name", "size"}
    case LevelTable => {"region_id", "name", "size"}
    case ChunkTable => {"level_id", "pos", "tiles"}
    case EntityTable => {"level_id", "type", "pos", "data"}
  }

  /** Whether an object with columns `d` carries a `name` attribute. */
  predicate HasName(d: RowData)
  {
    d.CharacterRow? || d.WorldRow? || d.RegionRow? || d.LevelRow?
  }

  /** The row table `k` stores when its statement's named parameters are
      bound from an object with columns `d`; `None` when an attribute the
      statement names is missing (sqlite3 raises ProgrammingError).  Only
      the worlds table, which reads `name` alone, binds objects of another
      shape. */
  function Bind(k: TableKind, d: RowData): (b: Option<RowData>)
    ensures k != MetaTable && k != CharacterTable ==> (b.Some? <==> Params(k) <= Attrs(d))
    ensures Fits(k, d) ==> b == Some(d)
    ensures b.Some? ==> Fits(k, b.value)
  {
    match k
    case WorldTable => if HasName(d) then Some(WorldRow(d.name)) else None
    case _ => if Fits(k, d) then Some(d) else None
  }

  datatype Row = Row(id: int, data: RowData)

  datatype Store = Store(order: seq<string>, tables: map<string, seq<Row>>)

  /** The listing names each table exactly once. */
  ghost predicate Valid(s: Store)
  {
    && (forall i :: 0 <= i < |s.order| ==> s.order[i] in s.tables)
    && (forall t :: t in s.tables ==> t in s.order)
    && (forall i, j :: 0 <= i < j < |s.order| ==> s.order[i] != s.order[j])
  }

  const EmptyStore := Store([], map[])

  /** An object handed to `upsert`: its `id` attribute and its columns. */
  datatype Record = Record(id: Option<int>, data: RowData)

  // ---------------------------------------------------------------------
  // DDL
  // ---------------------------------------------------------------------

  const CreatePrefix := "CREATE TABLE "

  /** One column declaration, `" ".join(field)`. */
  function FieldDecl(f: Field): string
  {
    f.0 + " " + f.1
  }

  function Decls(fs: seq<Field>): (r: seq<string>)
    ensures |r| == |fs|
    ensures forall i :: 0 <= i < |fs| ==> r[i] == FieldDecl(fs[i])
  {
    seq(|fs|, i requires 0 <= i < |fs| => FieldDecl(fs[i]))
  }

  /** `"CREATE TABLE %s (%s)" % (table_name, ", ".join(decls))`. */
  function Ddl(name: string, fs: seq<Field>): string
  {
    CreatePrefix + name + " (" + Join(Decls(fs), ", ") + ")"
  }

  /** The DDL `SchemaTable.create` issues for table `k`. */
  function CreateSql(k: TableKind): string
  {
    Ddl(TableName(k), Fields(k))
  }

  /** Reads a table name and its columns back out of a `CREATE TABLE`
      statement: the name runs to the first space and the rest is a
      parenthesised column list. */
  function ParseDdl(s: string): Option<(string, seq<Field>)>
  {
    if |s| < |CreatePrefix| || s[..|CreatePrefix|] != CreatePrefix then None
    else match SplitFirst(s[|CreatePrefix|..], ' ')
      case None => None
      case Some((name, rest)) =>
        if |rest| < 2 || rest[0] != '(' || rest[|rest| - 1] != ')' then None
        else match ParseBody(rest[1..|rest| - 1])
          case None => None
          case Some(fs) => Some((name, fs))
  }

  /** A column list: declarations split at commas, each declaration split
      at its first space. */
  function ParseBody(body: string): Option<seq<Field>>
  {
    var pieces := Split(body, ',');
    match (SplitFirst(pieces[0], ' '), ParseTail(pieces[1..]))
    case (Some(f), Some(fs)) => Some([f] + fs)
    case _ => None
  }

  /** Declarations after the first: each follows the `", "` separator, so
      it starts with a space. */
  function ParseTail(pieces: seq<string>): Option<seq<Field>>
  {
    if |pieces| == 0 then Some([])
    else if |pieces[0]| == 0 || pieces[0][0] != ' ' then None
    else match (SplitFirst(pieces[0][1..], ' '), ParseTail(pieces[1..]))
      case (Some(f), Some(fs)) => Some([f] + fs)
      case _ => None
  }

  /** A column list the DDL can carry unambiguously. */
  ghost predicate PlainFields(fs: seq<Field>)
  {
    forall i :: 0 <= i < |fs| ==> ' ' !in fs[i].0 && ',' !in fs[i].0 && ',' !in fs[i].1
  }

  lemma {:induction false} ParseTailOf(fs: seq<Field>)
    requires PlainFields(fs)
    ensures ParseTail(Prefixed(Decls(fs), " ")) == Some(fs)
  {
    if |fs| > 0 {
      var pieces := Prefixed(Decls(fs), " ");
      assert pieces[1..] == Prefixed(Decls(fs[1..]), " ");
      ParseTailOf(fs[1..]);
      assert pieces[0][1..] == fs[0].0 + [' '] + fs[0].1;
      SplitFirstOf(fs[0].0, fs[0].1, ' ');
      assert [fs[0]] + fs[1..] == fs;
    }
  }

  /** Splitting the column list at commas gives the first declaration and
      the others, each after its space. */
  lemma DeclsSplit(fs: seq<Field>)
    requires |fs| >= 1
    requires PlainFields(fs)
    ensures Split(Join(Decls(fs), ", "), ',') == [FieldDecl(fs[0])] + Prefixed(Decls(fs[1..]), " ")
  {
    var ds := Decls(fs);
    assert [ds[0]] + ds[1..] == ds;
    assert ds[1..] == Decls(fs[1..]);
    JoinTwoCharSeparator(ds[0], ds[1..], ',', ' ');
    DeclPiecesCommaFree(fs);
    SplitJoin([ds[0]] + Prefixed(ds[1..], " "), ',');
  }

  /** No piece of the column list contains a comma. */
  lemma DeclPiecesCommaFree(fs: seq<Field>)
    requires |fs| >= 1
    requires PlainFields(fs)
    ensures var pieces := [FieldDecl(fs[0])] + Prefixed(Decls(fs)[1..], " ");
            forall i :: 0 <= i < |pieces| ==> ',' !in pieces[i]
  {
    var ds := Decls(fs);
    var pieces := [FieldDecl(fs[0])] + Prefixed(ds[1..], " ");
    forall i | 0 <= i < |pieces|
      ensures ',' !in pieces[i]
    {
      if i > 0 {
        assert pieces[i] == " " + fs[i].0 + " " + fs[i].1;
      }
    }
  }

  lemma ParseBodyOf(fs: seq<Field>)
    requires |fs| >= 1
    requires PlainFields(fs)
    ensures ParseBody(Join(Decls(fs), ", ")) == Some(fs)
  {
    DeclsSplit(fs);
    var pieces := [FieldDecl(fs[0])] + Prefixed(Decls(fs[1..]), " ");
    assert pieces[0] == fs[0].0 + [' '] + fs[0].1;
    SplitFirstOf(fs[0].0, fs[0].1, ' ');
    ParseTailOf(fs[1..]);
    assert pieces[1..] == Prefixed(Decls(fs[1..]), " ");
    assert [fs[0]] + fs[1..] == fs;
  }

  lemma ParseDdlHeader(name: string, body: string)
    requires ' ' !in name
    ensures ParseDdl(CreatePrefix + name + " (" + body + ")") ==
      match ParseBody(body)
      case None => None
      case Some(fs) => Some((name, fs))
  {
    var s := CreatePrefix + name + " (" + body + ")";
    assert s[..|CreatePrefix|] == CreatePrefix;
    var rest := "(" + body + ")";
    assert s[|CreatePrefix|..] == name + [' '] + rest;
    SplitFirstOf(name, rest, ' ');
    assert rest[1..|rest| - 1] == body;
  }

  /** The DDL text determines the table name and the columns it was built
      from. */
  lemma DdlRoundTrip(name: string, fs: seq<Field>)
    requires ' ' !in name
    requires |fs| >= 1
    requires PlainFields(fs)
    ensures ParseDdl(Ddl(name, fs)) == Some((name, fs))
  {
    ParseDdlHeader(name, Join(Decls(fs), ", "));
    ParseBodyOf(fs);
  }

  /** Every table's name and columns meet `DdlRoundTrip`'s conditions. */
  lemma TableDefinitionPlain(k: TableKind)
    ensures ' ' !in TableName(k)
    ensures |Fields(k)| >= 1
    ensures PlainFields(Fields(k))
  {
    var fs := Fields(k);
    forall i | 0 <= i < |fs|
      ensures ' ' !in fs[i].0 && ',' !in fs[i].0 && ',' !in fs[i].1
    {
      FieldPlain(k, i);
    }
  }

  lemma FieldPlain(k: TableKind, i: int)
    requires 0 <= i < |Fields(k)|
    ensures ' ' !in Fields(k)[i].0 && ',' !in Fields(k)[i].0 && ',' !in Fields(k)[i].1
  {
    var f := Fields(k)[i];
    assert f.0 in ColumnNames;
    assert f.1 in ColumnTypes;
    ColumnNamePlain(f.0);
    ColumnTypePlain(f.1);
  }

  const ColumnNames := {"data_key", "data_val", "id", "name", "level_id", "size", "world_id", "region_id", "pos", "tiles", "type", "data"}
  const ColumnTypes := {"varchar(128) PRIMARY KEY", "VARCHAR(128)", "INTEGER PRIMARY KEY", "INTEGER", "vector2", "tilematrix", "pickle"}

  lemma ColumnNamePlain(n: string)
    requires n in ColumnNames
    ensures ' ' !in n && ',' !in n
  {
  }

  lemma ColumnTypePlain(t: string)
    requires t in ColumnTypes
    ensures ',' !in t
  {
  }

  /** Every table's DDL parses back to its definition. */
  lemma CreateSqlParses(k: TableKind)
    ensures ParseDdl(CreateSql(k)) == Some((TableName(k), Fields(k)))
  {
    TableDefinitionPlain(k);
    DdlRoundTrip(TableName(k), Fields(k));
  }

  // ---------------------------------------------------------------------
  // Table operations
  // ---------------------------------------------------------------------

  /** Adding an empty table to the store; an existing name is a
      `DatabaseError`. */
  function AddTable(s: Store, name: string): (r: Result<Store>)
    ensures r.Ok? <==> name !in s.tables
    ensures r.Err? ==> r.error == DatabaseError
    ensures r.Ok? ==> r.value.order == s.order + [name] && r.value.tables == s.tables[name := []]
  {
    if name in s.tables then Err(DatabaseError)
    else Ok(Store(s.order + [name], s.tables[name := []]))
  }

  /** The store executing a `CREATE TABLE`: a statement it cannot read, or
      one naming an existing table, raises `DatabaseError`. */
  function ExecuteDdl(s: Store, stmt: string): (r: Result<Store>)
    ensures r.Err? ==> r.error == DatabaseError
  {
    match ParseDdl(stmt)
    case None => Err(DatabaseError)
    case Some((name, _)) => AddTable(s, name)
  }

  /** `SchemaTable.create`: `True` after creating the empty table, `False`
      (store unchanged) when the store rejects the DDL, as it does for an
      existing table.  `CreateRunsDdl` shows this is the effect of the
      statement `create` issues. */
  function Create(s: Store, k: TableKind): (r: (Store, bool))
    ensures r.1 <==> TableName(k) !in s.tables
    ensures !r.1 ==> r.0 == s
    ensures r.1 ==> r.0.order == s.order + [TableName(k)]
    ensures r.1 ==> r.0.tables == s.tables[TableName(k) := []]
    ensures Valid(s) ==> Valid(r.0)
  {
    match AddTable(s, TableName(k))
    case Ok(s') => (s', true)
    case Err(_) => (s, false)
  }

  /** `create` is the store's response to the table's DDL statement. */
  lemma CreateRunsDdl(s: Store, k: TableKind)
    ensures Create(s, k) == match ExecuteDdl(s, CreateSql(k))
                            case Ok(s') => (s', true)
                            case Err(_) => (s, false)
  {
    CreateSqlParses(k);
  }

  /** The tables whose statements use named parameters; `metadata` uses `?`
      placeholders with a dictionary, which sqlite3 refuses, and
      `characters` has empty statements. */
  predicate UsesNamedParameters(k: TableKind)
  {
    !(k == MetaTable || k == CharacterTable)
  }

  function MaxId(rows: seq<Row>): (m: int)
    requires |rows| > 0
    ensures forall i :: 0 <= i < |rows| ==> rows[i].id <= m
    ensures exists i :: 0 <= i < |rows| && rows[i].id == m
  {
    if |rows| == 1 then rows[0].id
    else
      var m := MaxId(rows[1..]);
      if rows[0].id >= m then rows[0].id else m
  }

  /** The rowid sqlite assigns to an inserted row: one more than the
      largest, 1 in an empty table. */
  function NextId(rows: seq<Row>): (id: int)
    ensures forall i :: 0 <= i < |rows| ==> rows[i].id < id
  {
    if |rows| == 0 then 1 else MaxId(rows) + 1
  }

  /** `s` with table `t` holding `rows`. */
  function WithRows(s: Store, t: string, rows: seq<Row>): Store
  {
    Store(s.order, s.tables[t := rows])
  }

  /** Replacing the rows of an existing table keeps the listing and its
      well-formedness. */
  lemma WithRowsKeepsValid(s: Store, t: string, rows: seq<Row>)
    requires Valid(s) && t in s.tables
    ensures Valid(WithRows(s, t, rows))
    ensures WithRows(s, t, rows).order == s.order
    ensures WithRows(s, t, rows).tables.Keys == s.tables.Keys
  {
  }

  /** `insert(obj)`: binds the statement's named parameters from the
      object's attributes, appends the bound row under a fresh rowid and
      sets `obj.id` to it.  A missing table, or an attribute the statement
      names that the object lacks, is a DatabaseError. */
  function Insert(s: Store, k: TableKind, rec: Record): (r: Result<(Store, Record)>)
    ensures k == MetaTable ==> r == Err(DatabaseError)
    ensures k == CharacterTable ==> r == Ok((s, rec.(id := None)))
    ensures UsesNamedParameters(k) ==>
      (r.Ok? <==> TableName(k) in s.tables && Params(k) <= Attrs(rec.data))
    ensures r.Err? ==> r.error == DatabaseError
    ensures UsesNamedParameters(k) && r.Ok? ==>
      var t := TableName(k);
      var (s', rec') := r.value;
      && Bind(k, rec.data).Some?
      && rec'.data == rec.data && rec'.id.Some?
      && (forall i :: 0 <= i < |s.tables[t]| ==> s.tables[t][i].id != rec'.id.value)
      && s' == WithRows(s, t, s.tables[t] + [Row(rec'.id.value, Bind(k, rec.data).value)])
  {
    var t := TableName(k);
    if k == MetaTable then Err(DatabaseError)
    else if k == CharacterTable then Ok((s, rec.(id := None)))
    else if t !in s.tables then Err(DatabaseError)
    else match Bind(k, rec.data)
      case None => Err(DatabaseError)
      case Some(row) =>
        var id := NextId(s.tables[t]);
        Ok((WithRows(s, t, s.tables[t] + [Row(id, row)]), rec.(id := Some(id))))
  }

  /** `update(obj)`: binds the named parameters as `insert` does; every
      row whose rowid is `obj.id` takes the bound columns and no other row
      changes.  A missing table or attribute is a DatabaseError. */
  function Update(s: Store, k: TableKind, rec: Record): (r: Result<Store>)
    ensures k == MetaTable ==> r == Err(DatabaseError)
    ensures k == CharacterTable ==> r == Ok(s)
    ensures UsesNamedParameters(k) ==>
      (r.Ok? <==> TableName(k) in s.tables && Params(k) <= Attrs(rec.data))
    ensures r.Err? ==> r.error == DatabaseError
    ensures UsesNamedParameters(k) && r.Ok? ==>
      var t := TableName(k);
      && Bind(k, rec.data).Some?
      && r.value.order == s.order
      && r.value.tables.Keys == s.tables.Keys
      && (forall u :: u in s.tables && u != t ==> r.value.tables[u] == s.tables[u])
      && |r.value.tables[t]| == |s.tables[t]|
      && (forall i :: 0 <= i < |s.tables[t]| ==> r.value.tables[t][i].id == s.tables[t][i].id)
      && (forall i :: 0 <= i < |s.tables[t]| && rec.id == Some(s.tables[t][i].id) ==>
            r.value.tables[t][i].data == Bind(k, rec.data).value)
      && (forall i :: 0 <= i < |s.tables[t]| && rec.id != Some(s.tables[t][i].id) ==>
            r.value.tables[t][i] == s.tables[t][i])
  {
    var t := TableName(k);
    if k == MetaTable then Err(DatabaseError)
    else if k == CharacterTable then Ok(s)
    else if t !in s.tables then Err(DatabaseError)
    else match Bind(k, rec.data)
      case None => Err(DatabaseError)
      case Some(row) =>
        var rows := s.tables[t];
        Ok(WithRows(s, t, seq(|rows|, i requires 0 <= i < |rows| =>
          if rec.id == Some(rows[i].id) then Row(rows[i].id, row) else rows[i])))
  }

  /** `upsert(obj)`: `insert` when `obj.id` is `None`, `update` otherwise;
      a failure leaves the store as it was (the connection rolls back). */
  function Upsert(s: Store, k: TableKind, rec: Record): (r: Result<(Store, Record)>)
    ensures rec.id.None? ==> r == Insert(s, k, rec)
    ensures rec.id.Some? ==> r.Ok? == Update(s, k, rec).Ok?
    ensures rec.id.Some? && r.Ok? ==> r.value == (Update(s, k, rec).value, rec)
    ensures r.Err? ==> r.error == DatabaseError
  {
    if rec.id.None? then Insert(s, k, rec)
    else
      var s' :- Update(s, k, rec);
      Ok((s', rec))
  }

  /** An object lacking an attribute its table's statement names is
      refused whether it is new or already stored: a level given to the
      regions table has no `world_id`. */
  lemma UpsertMissingAttributeFails(s: Store, id: Option<int>, regionId: int, name: string, size: Vec2)
    ensures Upsert(s, RegionTable, Record(id, LevelRow(regionId, name, size))) == Err(DatabaseError)
  {
    assert "world_id" in Params(RegionTable);
    assert "world_id" !in Attrs(LevelRow(regionId, name, size));
  }

  /** The first `upsert` of a new object inserts it and gives it an id; a
      second `upsert` of that object, even with changed columns, updates
      the same row in place and keeps the id. */
  lemma UpsertTwice(s: Store, k: TableKind, rec: Record, later: RowData)
    requires UsesNamedParameters(k) && TableName(k) in s.tables
    requires Params(k) <= Attrs(rec.data) && Params(k) <= Attrs(later)
    requires rec.id.None?
    ensures Upsert(s, k, rec).Ok?
    ensures var (s1, r1) := Upsert(s, k, rec).value;
            && r1.id.Some?
            && Upsert(s1, k, r1.(data := later)).Ok?
            && var (s2, r2) := Upsert(s1, k, r1.(data := later)).value;
            && r2.id == r1.id
            && s2 == WithRows(s, TableName(k), s.tables[TableName(k)] + [Row(r1.id.value, Bind(k, later).value)])
  {
    var t := TableName(k);
    var (s1, r1) := Insert(s, k, rec).value;
    var s2 := Update(s1, k, r1.(data := later)).value;
    var want := s.tables[t] + [Row(r1.id.value, Bind(k, later).value)];
    assert s2.tables[t] == want;
    assert s2.tables == s.tables[t := want];
  }

  // ---------------------------------------------------------------------
  // SaveSchema
  // ---------------------------------------------------------------------

  /** `is_valid(db_tables)` for a list of names: every schema table is
      listed; other names do not matter. */
  function IsValid(names: seq<string>): (r: bool)
    ensures r <==> forall k :: k in SaveSchemaTables ==> TableName(k) in names
  {
    AllIn(Names(SaveSchemaTables), names)
  }

  /** The loop of `is_valid` over a container: stops at the first absent
      name. */
  function AllIn(ts: seq<string>, names: seq<string>): (r: bool)
    ensures r <==> forall i :: 0 <= i < |ts| ==> ts[i] in names
  {
    |ts| == 0 || (ts[0] in names && AllIn(ts[1..], names))
  }

  /** `x in it` for a one-shot iterator: consumes up to and including the
      first `x`, or everything when there is none. */
  function IterFind(it: seq<string>, x: string): (r: (bool, seq<string>))
    ensures r.0 <==> x in it
    ensures r.0 ==> r.1 == it[FirstIndex(it, x) + 1..]
    ensures !r.0 ==> r.1 == []
  {
    if |it| == 0 then (false, [])
    else if it[0] == x then (true, it[1..])
    else
      var r := IterFind(it[1..], x);
      assert r.0 ==> it[1..][FirstIndex(it[1..], x) + 1..] == it[FirstIndex(it, x) + 1..];
      r
  }

  /** The loop of `is_valid` when `db_tables` is a one-shot iterator: each
      membership test resumes where the previous one stopped. */
  function AllInIter(ts: seq<string>, it: seq<string>): bool
  {
    |ts| == 0 || (IterFind(it, ts[0]).0 && AllInIter(ts[1..], IterFind(it, ts[0]).1))
  }

  /** `idx` places the elements of `ts` at increasing positions of `it`. */
  ghost predicate EmbedsAt(ts: seq<string>, it: seq<string>, idx: seq<int>)
  {
    && |idx| == |ts|
    && (forall i :: 0 <= i < |idx| ==> 0 <= idx[i] < |it| && it[idx[i]] == ts[i])
    && (forall i, j :: 0 <= i < j < |idx| ==> idx[i] < idx[j])
  }

  /** `ts` occurs in `it` as a subsequence. */
  ghost predicate InOrder(ts: seq<string>, it: seq<string>)
  {
    exists idx :: EmbedsAt(ts, it, idx)
  }

  function Shift(idx: seq<int>, d: int): (r: seq<int>)
    ensures |r| == |idx|
    ensures forall i :: 0 <= i < |idx| ==> r[i] == idx[i] + d
  {
    seq(|idx|, i requires 0 <= i < |idx| => idx[i] + d)
  }

  /** An embedding of the other names after position `q` extends to one
      of all the names when the first name is at `q`. */
  lemma EmbedsCons(ts: seq<string>, it: seq<string>, q: nat, idx': seq<int>)
    requires |ts| > 0 && q < |it| && it[q] == ts[0]
    requires EmbedsAt(ts[1..], it[q + 1..], idx')
    ensures EmbedsAt(ts, it, [q] + Shift(idx', q + 1))
  {
    var idx := [q] + Shift(idx', q + 1);
    forall i | 0 < i < |idx|
      ensures idx[i] == idx'[i - 1] + q + 1 && 0 <= idx[i] < |it| && it[idx[i]] == ts[i]
    {
      assert it[idx'[i - 1] + q + 1] == it[q + 1..][idx'[i - 1]];
      assert ts[i] == ts[1..][i - 1];
    }
    forall i, j | 0 <= i < j < |idx|
      ensures idx[i] < idx[j]
    {
      if i > 0 {
        assert idx'[i - 1] < idx'[j - 1];
      }
    }
  }

  /** The positions at which a successful iterator validation finds the
      names: each one just after the previous match. */
  lemma {:induction false} EmbeddingOf(ts: seq<string>, it: seq<string>) returns (idx: seq<int>)
    requires AllInIter(ts, it)
    ensures EmbedsAt(ts, it, idx)
    decreases |ts|
  {
    if |ts| == 0 {
      return [];
    }
    var q := FirstIndex(it, ts[0]);
    assert IterFind(it, ts[0]).1 == it[q + 1..];
    var idx' := EmbeddingOf(ts[1..], it[q + 1..]);
    EmbedsCons(ts, it, q, idx');
    idx := [q] + Shift(idx', q + 1);
  }

  /** A successful iterator validation embeds the names in the listing. */
  lemma AllInIterEmbeds(ts: seq<string>, it: seq<string>)
    requires AllInIter(ts, it)
    ensures InOrder(ts, it)
  {
    var idx := EmbeddingOf(ts, it);
  }

  /** Names embedded in the listing pass the iterator validation. */
  lemma {:induction false} EmbedsAllInIter(ts: seq<string>, it: seq<string>, idx: seq<int>)
    requires EmbedsAt(ts, it, idx)
    ensures AllInIter(ts, it)
    decreases |ts|
  {
    if |ts| > 0 {
      assert it[idx[0]] == ts[0];
      var rest := IterFind(it, ts[0]).1;
      var q: int := FirstIndex(it, ts[0]);
      assert q <= idx[0];
      var idx' := Shift(idx[1..], -(q + 1));
      assert EmbedsAt(ts[1..], rest, idx') by {
        forall i | 0 <= i < |idx'|
          ensures 0 <= idx'[i] < |rest| && rest[idx'[i]] == ts[1..][i]
        {
          assert idx[0] < idx[i + 1];
        }
      }
      EmbedsAllInIter(ts[1..], rest, idx');
    }
  }

  /** Validation through a one-shot iterator succeeds exactly when the
      schema names occur in the listing in schema order. */
  lemma AllInIterIff(ts: seq<string>, it: seq<string>)
    ensures AllInIter(ts, it) <==> InOrder(ts, it)
  {
    if AllInIter(ts, it) {
      AllInIterEmbeds(ts, it);
    }
    if InOrder(ts, it) {
      var idx: seq<int> :| EmbedsAt(ts, it, idx);
      EmbedsAllInIter(ts, it, idx);
    }
  }

  /** Finding every name through the iterator implies finding it in the
      list, but not conversely: a complete listing in another order fails. */
  lemma IterValidationIsStricter()
    ensures forall it :: AllInIter(Names(SaveSchemaTables), it) ==> IsValid(it)
    ensures var it := ["worlds", "metadata", "regions", "levels", "chunks", "entities"];
            IsValid(it) && !AllInIter(Names(SaveSchemaTables), it)
  {
    forall it | AllInIter(Names(SaveSchemaTables), it)
      ensures IsValid(it)
    {
      IterValidImpliesValid(it);
    }
    OutOfOrderListing();
  }

  lemma IterValidImpliesValid(it: seq<string>)
    requires AllInIter(Names(SaveSchemaTables), it)
    ensures IsValid(it)
  {
    var ts := Names(SaveSchemaTables);
    AllInIterEmbeds(ts, it);
    var idx: seq<int> :| EmbedsAt(ts, it, idx);
    forall k | k in SaveSchemaTables
      ensures TableName(k) in it
    {
      var i :| 0 <= i < |SaveSchemaTables| && SaveSchemaTables[i] == k;
      assert it[idx[i]] == ts[i];
    }
  }

  lemma OutOfOrderListing()
    ensures var it := ["worlds", "metadata", "regions", "levels", "chunks", "entities"];
            IsValid(it) && !AllInIter(Names(SaveSchemaTables), it)
  {
    SaveSchemaOrdered();
    var it := ["worlds", "metadata", "regions", "levels", "chunks", "entities"];
    assert IterFind(it, "metadata") == (true, it[2..]);
    assert IterFind(it[2..], "worlds").0 == false;
  }

  /** `SaveSchema.create`: `create` on each table of `ks` in turn, ignoring
      the `False` of tables that already exist. */
  function CreateEach(s: Store, ks: seq<TableKind>): (r: Store)
    ensures forall i :: 0 <= i < |ks| ==> TableName(ks[i]) in r.tables
    ensures forall t :: t in s.tables ==> t in r.tables && r.tables[t] == s.tables[t]
    ensures forall t :: t in r.tables && t !in s.tables ==> t in Names(ks) && r.tables[t] == []
    decreases |ks|
  {
    if |ks| == 0 then s
    else
      var r := CreateEach(Create(s, ks[0]).0, ks[1..]);
      assert forall t :: t in Names(ks[1..]) ==> t in Names(ks);
      r
  }

  /** `create` only appends to the listing and keeps it free of
      duplicates. */
  lemma {:induction false} CreateEachKeepsValid(s: Store, ks: seq<TableKind>)
    requires Valid(s)
    ensures Valid(CreateEach(s, ks))
    decreases |ks|
  {
    if |ks| > 0 {
      var s1 := Create(s, ks[0]).0;
      assert Valid(s1);
      CreateEachKeepsValid(s1, ks[1..]);
    }
  }

  lemma {:induction false} CreateEachExtends(s: Store, ks: seq<TableKind>)
    ensures |s.order| <= |CreateEach(s, ks).order|
    ensures CreateEach(s, ks).order[..|s.order|] == s.order
    decreases |ks|
  {
    if |ks| > 0 {
      var s1 := Create(s, ks[0]).0;
      CreateEachExtends(s1, ks[1..]);
      var r := CreateEach(s1, ks[1..]);
      assert r.order[..|s1.order|][..|s.order|] == r.order[..|s.order|];
    }
  }

  /** Tables that are absent and pairwise distinct. */
  ghost predicate Fresh(s: Store, ks: seq<TableKind>)
  {
    && (forall i :: 0 <= i < |ks| ==> TableName(ks[i]) !in s.tables)
    && (forall i, j :: 0 <= i < j < |ks| ==> TableName(ks[i]) != TableName(ks[j]))
  }

  /** Creating the first of fresh tables appends it and leaves the rest
      fresh. */
  lemma CreateFreshFirst(s: Store, ks: seq<TableKind>)
    requires |ks| > 0 && Fresh(s, ks)
    ensures Create(s, ks[0]).0.order == s.order + [TableName(ks[0])]
    ensures Fresh(Create(s, ks[0]).0, ks[1..])
  {
    var rest := ks[1..];
    forall i | 0 <= i < |rest|
      ensures TableName(rest[i]) != TableName(ks[0])
    {
      assert rest[i] == ks[i + 1];
    }
  }

  /** Distinct new tables are listed in the order `create` meets them. */
  lemma {:induction false} CreateEachAppends(s: Store, ks: seq<TableKind>)
    requires Fresh(s, ks)
    ensures CreateEach(s, ks).order == s.order + Names(ks)
    decreases |ks|
  {
    if |ks| > 0 {
      var n0 := TableName(ks[0]);
      var s1 := Create(s, ks[0]).0;
      CreateFreshFirst(s, ks);
      CreateEachAppends(s1, ks[1..]);
      NamesCons(ks);
      AppendAssoc(s.order, [n0], Names(ks[1..]));
    }
  }

  function CreateAll(s: Store): (r: Store)
    ensures forall k :: k in SaveSchemaTables ==> TableName(k) in r.tables
    ensures forall t :: t in s.tables ==> t in r.tables && r.tables[t] == s.tables[t]
    ensures forall t :: t in r.tables && t !in s.tables ==> t in Names(SaveSchemaTables) && r.tables[t] == []
  {
    CreateEach(s, SaveSchemaTables)
  }

  /** After `create`, `is_valid` holds of the store's table list. */
  lemma CreateAllMakesValid(s: Store)
    requires Valid(s)
    ensures Valid(CreateAll(s))
    ensures IsValid(CreateAll(s).order)
  {
    CreateEachKeepsValid(s, SaveSchemaTables);
    var r := CreateAll(s);
    forall k | k in SaveSchemaTables
      ensures TableName(k) in r.order
    {
      assert TableName(k) in r.tables;
    }
  }

  /** `create` never makes the character table. */
  lemma CreateAllSkipsCharacters(s: Store)
    ensures TableName(CharacterTable) in CreateAll(s).tables <==> TableName(CharacterTable) in s.tables
  {
    var ks := SaveSchemaTables;
    assert forall i :: 0 <= i < |ks| ==> Names(ks)[i] != "characters";
  }

  /** The schema names its tables once each. */
  lemma SchemaNamesDistinct()
    ensures forall i, j :: 0 <= i < j < |SaveSchemaTables| ==>
      TableName(SaveSchemaTables[i]) != TableName(SaveSchemaTables[j])
  {
    SaveSchemaOrdered();
    var ts := Names(SaveSchemaTables);
    assert forall i, j :: 0 <= i < j < |ts| ==> ts[i] != ts[j];
  }

  /** `create` of distinct tables none of which exists lists them after
      the existing ones, in the order given, so even the iterator
      validation of their names succeeds afterwards. */
  lemma CreateEachFresh(s: Store, ks: seq<TableKind>)
    requires Fresh(s, ks)
    ensures CreateEach(s, ks).order == s.order + Names(ks)
    ensures AllInIter(Names(ks), CreateEach(s, ks).order)
  {
    CreateEachAppends(s, ks);
    var ts := Names(ks);
    var o := s.order + ts;
    var idx := seq(|ts|, i requires 0 <= i < |ts| => |s.order| + i);
    assert EmbedsAt(ts, o, idx);
    EmbedsAllInIter(ts, o, idx);
  }

  /** On a database holding none of the schema tables (an empty one in
      particular) `create` lists them after the existing ones, in schema
      order. */
  lemma CreateAllFresh(s: Store)
    requires forall k :: k in SaveSchemaTables ==> TableName(k) !in s.tables
    ensures CreateAll(s).order == s.order + Names(SaveSchemaTables)
    ensures AllInIter(Names(SaveSchemaTables), CreateAll(s).order)
  {
    SchemaNamesDistinct();
    CreateEachFresh(s, SaveSchemaTables);
  }

  /** When every schema table exists, `create` changes nothing. */
  lemma {:induction false} CreateEachNoOp(s: Store, ks: seq<TableKind>)
    requires forall i :: 0 <= i < |ks| ==> TableName(ks[i]) in s.tables
    ensures CreateEach(s, ks) == s
    decreases |ks|
  {
    if |ks| > 0 {
      CreateEachNoOp(s, ks[1..]);
    }
  }

  /** `s2` is `s` with the rows of every table named in `names` deleted:
      same listing, same tables, everything else untouched. */
  predicate Cleared(s: Store, s2: Store, names: seq<string>)
  {
    && s2.order == s.order
    && s2.tables.Keys == s.tables.Keys
    && forall t :: t in s.tables ==> s2.tables[t] == (if t in names then [] else s.tables[t])
  }

  /** `SaveSchema.clear`: `DELETE FROM` each table of `ks` in turn; a
      missing table raises `DatabaseError`. */
  function ClearEach(s: Store, ks: seq<TableKind>): (r: Result<Store>)
    ensures r.Ok? <==> forall t :: t in Names(ks) ==> t in s.tables
    ensures r.Err? ==> r.error == DatabaseError
    ensures r.Ok? ==> Cleared(s, r.value, Names(ks))
    decreases |ks|
  {
    if |ks| == 0 then Ok(s)
    else if TableName(ks[0]) !in s.tables then Err(DatabaseError)
    else
      var s1 := WithRows(s, TableName(ks[0]), []);
      NamesCons(ks);
      ClearEach(s1, ks[1..])
  }

  /** A table kind is listed exactly when its name is. */
  lemma NamesMember(ks: seq<TableKind>)
    ensures forall k :: k in ks ==> TableName(k) in Names(ks)
    ensures forall t :: t in Names(ks) ==> exists k :: k in ks && TableName(k) == t
  {
    forall k | k in ks
      ensures TableName(k) in Names(ks)
    {
      var i :| 0 <= i < |ks| && ks[i] == k;
      assert Names(ks)[i] == TableName(k);
    }
  }

  function Clear(s: Store): (r: Result<Store>)
    ensures r.Ok? <==> forall k :: k in SaveSchemaTables ==> TableName(k) in s.tables
    ensures r.Err? ==> r.error == DatabaseError
    ensures r.Ok? ==> r.value.order == s.order && r.value.tables.Keys == s.tables.Keys
    ensures r.Ok? ==> forall k :: k in SaveSchemaTables ==> r.value.tables[TableName(k)] == []
    ensures r.Ok? ==> forall t :: t in s.tables && t !in Names(SaveSchemaTables) ==> r.value.tables[t] == s.tables[t]
  {
    NamesMember(SaveSchemaTables);
    ClearEach(s, SaveSchemaTables)
  }

  /** `clear` empties the schema tables without dropping any, so validity
      is unchanged. */
  lemma ClearKeepsValidity(s: Store)
    requires Valid(s)
    requires Clear(s).Ok?
    ensures Valid(Clear(s).value)
    ensures IsValid(Clear(s).value.order) == IsValid(s.order)
    ensures forall k :: k in SaveSchemaTables ==> Clear(s).value.tables[TableName(k)] == []
  {
    var r := Clear(s).value;
    SameShapeValid(s, r);
  }

  /** Validity depends only on the listing and the set of table names. */
  lemma SameShapeValid(s: Store, s2: Store)
    requires s2.order == s.order && s2.tables.Keys == s.tables.Keys
    ensures Valid(s2) == Valid(s)
  {
  }
}
