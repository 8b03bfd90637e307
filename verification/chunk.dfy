/** `yarl.map.chunk`: the early chunk-tree and chunk classes.  Both are
    stubs: a node's `get_cell` copies the node (so `is_leaf` never
    changes), and a `Chunk` has no `get_tile`, so `ChunkTree.get_tile`
    never returns a tile. */
module Chunks {
  import opened Wrappers
  import opened Util
  import opened Tiles

  /** `ChunkLoader(floor)`, identified by the name of its floor. */
  datatype ChunkLoader = ChunkLoader(floor: string)

  /** `Chunk(pos)`: a position and a (never filled) tile list. */
  datatype Chunk = Chunk(pos: Vec2, tiles: seq<Tile>)

  datatype ChunkTree = ChunkTree(
    origin: Vec2,
    size: Vec2,
    loader: ChunkLoader,
    isLeaf: bool,
    cells: seq<ChunkTree>,
    chunks: seq<Chunk>)

  /** Python's default recursion limit: the depth at which the unbounded
      descent of `get_tile` through non-leaf nodes is cut off. */
  const RecursionLimit: nat := 1000

  /** `ChunkTree(origin, size, loader, is_leaf)`: a node with no cells and no
      chunks. */
  function NewChunkTree(origin: Vec2, size: Vec2, loader: ChunkLoader, isLeaf: bool): (t: ChunkTree)
    ensures t.origin == origin && t.size == size && t.loader == loader && t.isLeaf == isLeaf
    ensures t.cells == [] && t.chunks == []
  {
    ChunkTree(origin, size, loader, isLeaf, [], [])
  }

  /** `Chunk(pos)`. */
  function NewChunk(pos: Vec2): (c: Chunk)
    ensures c.pos == pos && c.tiles == []
  {
    Chunk(pos, [])
  }

  /** `get_chunk(pos)`: a fresh chunk at `origin + pos`; the node is not
      changed (the result is not stored in `chunks`). */
  function GetChunk(node: ChunkTree, pos: Vec2): (c: Chunk)
    ensures c.pos.x - node.origin.x == pos.x && c.pos.y - node.origin.y == pos.y
    ensures c.tiles == []
  {
    NewChunk(Add(node.origin, pos))
  }

  /** `get_cell(pos)`: a fresh node at `origin + pos` with the same size,
      loader and leaf flag; the node is not changed (the result is not
      stored in `cells`). */
  function GetCell(node: ChunkTree, pos: Vec2): (c: ChunkTree)
    ensures c.origin.x - node.origin.x == pos.x && c.origin.y - node.origin.y == pos.y
    ensures c.size == node.size && c.loader == node.loader && c.isLeaf == node.isLeaf
    ensures c.cells == [] && c.chunks == []
  {
    NewChunkTree(Add(node.origin, pos), node.size, node.loader, node.isLeaf)
  }

  /** The node reached by following `get_cell` with each offset of `path` in
      turn. */
  function Descend(node: ChunkTree, path: seq<Vec2>): ChunkTree
    decreases |path|
  {
    if |path| == 0 then node else Descend(GetCell(node, path[0]), path[1..])
  }

  function Sum(vs: seq<Vec2>): Vec2
  {
    if |vs| == 0 then Vec2(0, 0) else Add(vs[0], Sum(vs[1..]))
  }

  /** Any chain of `get_cell` calls lands at the origin plus the sum of the
      offsets, and keeps size, loader and the leaf flag: a non-leaf node
      never reaches a leaf. */
  lemma {:induction false} DescendKeeps(node: ChunkTree, path: seq<Vec2>)
    ensures Descend(node, path).origin == Add(node.origin, Sum(path))
    ensures Descend(node, path).isLeaf == node.isLeaf
    ensures Descend(node, path).size == node.size
    ensures Descend(node, path).loader == node.loader
    decreases |path|
  {
    if |path| > 0 {
      DescendKeeps(GetCell(node, path[0]), path[1..]);
    }
  }

  /** `get_tile(pos)` with `depth` frames of recursion left: a leaf asks a
      new chunk (`GetChunk(node, pos)`) for the tile, and `Chunk` has no `get_tile`
      (`AttributeError`); a non-leaf asks a new non-leaf cell with the same
      `pos`, which recurses until the interpreter gives up. */
  function GetTileAt(node: ChunkTree, pos: Vec2, depth: nat): (r: Result<Tile>)
    ensures node.isLeaf && depth > 0 ==> r == Err(AttributeError)
    ensures !node.isLeaf ==> r == Err(RecursionError)
    decreases depth
  {
    if depth == 0 then Err(RecursionError)
    else if node.isLeaf then Err(AttributeError)
    else
      GetTileAt(GetCell(node, pos), pos, depth - 1)
  }

  /** `get_tile(pos)` never yields a tile. */
  function GetTile(node: ChunkTree, pos: Vec2): (r: Result<Tile>)
    ensures r.Err?
    ensures r.error == (if node.isLeaf then AttributeError else RecursionError)
  {
    GetTileAt(node, pos, RecursionLimit)
  }
}
