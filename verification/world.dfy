/** `yarl.map`: `World`, a memoising factory of named `Floor`s, and both
    classes' pickle state.  Unpickling builds an object without running
    `__init__` and then calls `__setstate__`, so an attribute the state
    does not restore is absent; absent attributes are `None` below. */
module Maps {
  import opened Wrappers
  import opened Util
  import opened Chunks

  /** `World.__init__` sets this size. */
  const WorldSize := Vec2(16, 16)

  /** `Floor.__init__`'s default size. */
  const DefaultFloorSize := Vec2(0, 0)

  /** The attributes `Floor.__init__` sets besides name and size; both are
      always `None` there. */
  datatype FloorRuntime = FloorRuntime(loader: Option<ChunkLoader>, chunks: Option<seq<Chunk>>)

  /** A floor; `runtime` is `None` for an unpickled floor, which lacks the
      `loader` and `chunks` attributes. */
  datatype Floor = Floor(name: string, size: Vec2, runtime: Option<FloorRuntime>)

  datatype FloorState = FloorState(name: string, size: Vec2)

  /** A world; `path` and `size` are `None` when the attribute is absent. */
  datatype World = World(path: Option<string>, name: string, size: Option<Vec2>, floors: map<string, Floor>)

  datatype WorldState = WorldState(name: string, size: Vec2, floors: map<string, FloorState>)

  /** `Floor(name, size)`: an unloaded floor. */
  function NewFloor(name: string, size: Vec2): (f: Floor)
    ensures f.name == name && f.size == size
    ensures f.runtime == Some(FloorRuntime(None, None))
  {
    Floor(name, size, Some(FloorRuntime(None, None)))
  }

  /** `Floor.__getstate__`: name and size only. */
  function FloorGetState(f: Floor): FloorState
  {
    FloorState(f.name, f.size)
  }

  /** `Floor.__setstate__` on an object built without `__init__`. */
  function FloorSetState(st: FloorState): Floor
  {
    Floor(st.name, st.size, None)
  }

  /** Pickling a floor keeps its name and size and drops the rest. */
  lemma FloorPickleRoundTrip(f: Floor)
    ensures FloorSetState(FloorGetState(f)).name == f.name
    ensures FloorSetState(FloorGetState(f)).size == f.size
    ensures FloorGetState(FloorSetState(FloorGetState(f))) == FloorGetState(f)
  {
  }

  /** `World(path, name)`: size 16 x 16 and no floors. */
  function NewWorld(path: string, name: string): (w: World)
    ensures w.path == Some(path) && w.name == name
    ensures w.size == Some(WorldSize) && w.floors == map[]
  {
    World(Some(path), name, Some(WorldSize), map[])
  }

  /** `world.floor(name)`: the floor stored under `name`, created on the
      first request as `Floor(name, world.size)`; the updated world is
      returned with it.  With `size` absent that creation raises
      `AttributeError`. */
  function FloorOf(w: World, name: string): (r: Result<(World, Floor)>)
    ensures name in w.floors ==> r == Ok((w, w.floors[name]))
    ensures name !in w.floors && w.size.None? ==> r == Err(AttributeError)
    ensures name !in w.floors && w.size.Some? ==>
      r.Ok? && r.value.1 == NewFloor(name, w.size.value)
      && r.value.0.floors.Keys == w.floors.Keys + {name}
      && r.value.0.floors[name] == r.value.1
    ensures r.Ok? ==> r.value.0.path == w.path && r.value.0.name == w.name && r.value.0.size == w.size
    ensures r.Ok? ==> forall n :: n in w.floors ==> n in r.value.0.floors && r.value.0.floors[n] == w.floors[n]
  {
    if name in w.floors then Ok((w, w.floors[name]))
    else if w.size.None? then Err(AttributeError)
    else
      var f := NewFloor(name, w.size.value);
      Ok((w.(floors := w.floors[name := f]), f))
  }

  /** Asking twice for one floor returns the same floor and no new entry. */
  lemma FloorOfMemoises(w: World, name: string)
    requires FloorOf(w, name).Ok?
    ensures var (w1, f1) := FloorOf(w, name).value;
            FloorOf(w1, name) == Ok((w1, f1))
  {
  }

  /** `World.__getstate__`: name, size and floors (each floor pickled by
      its own `__getstate__`); reading an absent `size` raises
      `AttributeError`. */
  function WorldGetState(w: World): (r: Result<WorldState>)
    ensures r.Ok? <==> w.size.Some?
    ensures r.Ok? ==> r.value.name == w.name && r.value.size == w.size.value
    ensures r.Ok? ==> r.value.floors.Keys == w.floors.Keys
  {
    if w.size.None? then Err(AttributeError)
    else Ok(WorldState(w.name, w.size.value, map n | n in w.floors :: FloorGetState(w.floors[n])))
  }

  /** `World.__setstate__` as written: restores name and floors only, so
      the unpickled world has neither `path` nor `size`. */
  function WorldSetStateAsWritten(st: WorldState): (w: World)
    ensures w.name == st.name && w.floors.Keys == st.floors.Keys
    ensures w.path.None? && w.size.None?
  {
    World(None, st.name, None, map n | n in st.floors :: FloorSetState(st.floors[n]))
  }

  /** Consequence of the as-written `__setstate__`: after a pickle round
      trip the world can no longer create floors. */
  lemma UnpickledWorldCannotCreateFloors(w: World, name: string)
    requires w.size.Some?
    requires name !in w.floors
    ensures FloorOf(WorldSetStateAsWritten(WorldGetState(w).value), name) == Err(AttributeError)
  {
  }

  /** `World.__setstate__` restoring the size its `__getstate__` saves. */
  function WorldSetState(st: WorldState): (w: World)
    ensures w.name == st.name && w.size == Some(st.size)
    ensures w.floors.Keys == st.floors.Keys
    ensures forall n :: n in w.floors ==> FloorGetState(w.floors[n]) == st.floors[n]
  {
    World(None, st.name, Some(st.size), map n | n in st.floors :: FloorSetState(st.floors[n]))
  }

  /** With the size restored, a pickle round trip keeps name, size and the
      floors' names and sizes, and every floor name can be requested. */
  lemma WorldPickleRoundTrip(w: World, name: string)
    requires w.size.Some?
    ensures var w' := WorldSetState(WorldGetState(w).value);
            && w'.name == w.name && w'.size == w.size
            && w'.floors.Keys == w.floors.Keys
            && (forall n :: n in w.floors ==> FloorGetState(w'.floors[n]) == FloorGetState(w.floors[n]))
            && FloorOf(w', name).Ok?
  {
  }
}
