/** `yarl.block`: the string-keyed registry of block singletons and the
    three built-in block classes. */
module Blocks {
  import opened Wrappers

  /** A block class, known by its class attribute `id`. */
  datatype BlockClass = BlockClass(id: string)

  const VoidBlock := BlockClass("block.void")
  const FloorBlock := BlockClass("block.floor")
  const WallBlock := BlockClass("block.wall")

  /** An instance of a block class; `serial` stands for the object's
      identity, so two calls of `klass()` give different instances. */
  datatype Block = Block(cls: BlockClass, serial: nat)

  /** `BlockRegistry`: `blocks` is the source's dictionary; `created`
      counts the instances made so far and supplies fresh identities. */
  datatype BlockRegistry = BlockRegistry(blocks: map<string, Block>, created: nat)

  /** Every entry is an instance of the class its key names, made by this
      registry. */
  ghost predicate Valid(reg: BlockRegistry)
  {
    forall n :: n in reg.blocks ==> reg.blocks[n].cls.id == n && reg.blocks[n].serial < reg.created
  }

  /** `BlockRegistry()`. */
  function NewRegistry(): (reg: BlockRegistry)
    ensures Valid(reg)
    ensures forall n :: Get(reg, n) == Err(KeyError)
  {
    BlockRegistry(map[], 0)
  }

  /** `get(name)`: the instance stored under `name`, or `KeyError`. */
  function Get(reg: BlockRegistry, name: string): (r: Result<Block>)
    ensures r.Ok? <==> name in reg.blocks
    ensures r.Ok? ==> r.value == reg.blocks[name]
    ensures r.Err? ==> r.error == KeyError
  {
    if name in reg.blocks then Ok(reg.blocks[name]) else Err(KeyError)
  }

  /** `add(klass)`: stores a new instance of `klass` under `klass.id`,
      replacing whatever was there, and touches no other entry. */
  function Add(reg: BlockRegistry, cls: BlockClass): (r: BlockRegistry)
    requires Valid(reg)
    ensures Valid(r)
    ensures Get(r, cls.id).Ok? && Get(r, cls.id).value.cls == cls
    ensures forall n :: n in reg.blocks ==> Get(r, cls.id).value != reg.blocks[n]
    ensures forall n :: n != cls.id ==> Get(r, n) == Get(reg, n)
  {
    BlockRegistry(reg.blocks[cls.id := Block(cls, reg.created)], reg.created + 1)
  }

  /** Adding a class whose id is taken raises nothing: the old instance is
      silently replaced by a different one. */
  lemma AddReplaces(reg: BlockRegistry, cls: BlockClass)
    requires Valid(reg)
    requires cls.id in reg.blocks
    ensures Get(Add(reg, cls), cls.id).Ok?
    ensures Get(Add(reg, cls), cls.id) != Get(reg, cls.id)
  {
  }

  /** The built-in classes have pairwise distinct ids, so registering all
      three keeps all three. */
  lemma BuiltinsCoexist()
    ensures VoidBlock.id != FloorBlock.id && FloorBlock.id != WallBlock.id && VoidBlock.id != WallBlock.id
    ensures var reg := Add(Add(Add(NewRegistry(), VoidBlock), FloorBlock), WallBlock);
            Get(reg, "block.void").Ok? && Get(reg, "block.floor").Ok? && Get(reg, "block.wall").Ok?
  {
    var r0 := NewRegistry();
    var r1 := Add(r0, VoidBlock);
    var r2 := Add(r1, FloorBlock);
    var r3 := Add(r2, WallBlock);
    assert Get(r3, "block.void") == Get(r2, "block.void") == Get(r1, "block.void");
    assert Get(r3, "block.floor") == Get(r2, "block.floor");
  }
}
