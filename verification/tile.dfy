/** `yarl.tile`: per-cell state, a block instance and a metadata
    dictionary.  `Tile()` asks `BlockRegistry.instance()` for the registry,
    but `src/yarl/block.py` gives the class no `instance` method and no
    singleton decorator; the registry such a call is meant to return is
    passed explicitly. */
module Tiles {
  import opened Wrappers
  import opened Blocks

  /** A tile's metadata dictionary (keys and values as strings). */
  type Meta = map<string, string>

  datatype Tile = Tile(block: Block, meta: Meta)

  /** `Tile(block=None, meta=None)`: a missing block is the registry's
      `block.void` entry (so `KeyError` when void is unregistered); a
      missing meta is a fresh empty dictionary. */
  function NewTile(reg: BlockRegistry, block: Option<Block>, meta: Option<Meta>): (r: Result<Tile>)
    ensures block.Some? ==> r.Ok? && r.value.block == block.value
    ensures block.None? ==> (r.Ok? <==> VoidBlock.id in reg.blocks)
    ensures block.None? && r.Ok? ==> r.value.block == reg.blocks[VoidBlock.id]
    ensures r.Err? ==> r.error == KeyError
    ensures r.Ok? && meta.Some? ==> r.value.meta == meta.value
    ensures r.Ok? && meta.None? ==> r.value.meta == map[]
  {
    var b :- if block.None? then Get(reg, VoidBlock.id) else Ok(block.value);
    Ok(Tile(b, if meta.None? then map[] else meta.value))
  }

  /** `set_block(block, meta=None)`: the new block, with `meta` or an empty
      dictionary; nothing of the previous state survives. */
  function SetBlock(t: Tile, block: Block, meta: Option<Meta>): (r: Tile)
    ensures r.block == block
    ensures meta.None? ==> r.meta == map[]
    ensures meta.Some? ==> r.meta == meta.value
  {
    Tile(block, if meta.None? then map[] else meta.value)
  }

  /** `set_block` forgets the tile it is applied to, hence is idempotent. */
  lemma SetBlockIdempotent(t: Tile, u: Tile, block: Block, meta: Option<Meta>)
    ensures SetBlock(t, block, meta) == SetBlock(u, block, meta)
    ensures SetBlock(SetBlock(t, block, meta), block, meta) == SetBlock(t, block, meta)
  {
  }

  /** A tile built with an explicit block is the tile `set_block` would
      produce from any tile. */
  lemma NewTileAgreesWithSetBlock(reg: BlockRegistry, t: Tile, block: Block, meta: Option<Meta>)
    ensures NewTile(reg, Some(block), meta) == Ok(SetBlock(t, block, meta))
  {
  }
}
