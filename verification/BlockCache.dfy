/** fs/bc.c: the disk and the blocks of it that are mapped in the file server's address space. */
module BlockCache {
  import opened FsImage

  /** A mapped block and its PTE_D bit. */
  datatype Cached = Cached(data: Block, dirty: bool)

  /** What the file server reads in each block. */
  function Logical(disk: seq<Block>, cache: map<nat, Cached>): (img: Image)
    ensures |img| == |disk|
  {
    seq(|disk|, b requires 0 <= b < |disk| => if b in cache then cache[b].data else disk[b])
  }

  /** How bc_pgfault ends: with the block mapped, or in one of its panics. */
  datatype Outcome = Mapped | NoSuchBlock | NotAligned | BlockFree

  class Cache {
    var disk: seq<Block>
    var cache: map<nat, Cached>

    ghost function Img(): Image
      reads this
    {
      Logical(disk, cache)
    }

    /** A mapped block that is not dirty equals its copy on the disk. */
    ghost predicate Coherent()
      reads this
    {
      forall b :: b in cache ==> b < |disk| && (!cache[b].dirty ==> cache[b].data == disk[b])
    }

    /** What diskaddr and the fault handler insist on: a real block, not marked free. */
    ghost predicate Usable(b: nat)
      reads this
    {
      0 < b < |disk| && Roomy(Img()) && !IsFree(Img(), b)
    }

    constructor (image: seq<Block>)
      ensures Coherent() && Img() == image && disk == image && cache == map[]
    {
      disk := image;
      cache := map[];
      new;
      assert Logical(disk, cache) == image;
    }

    /** bc_pgfault, for an access offset bytes into block b. The page that clears PTE_D is named by the faulting address
        itself and not by the block's, so it gets through only if the two are the same. Whatever happens, nothing that
        the file server reads has changed. */
    method Fault(b: nat, offset: nat) returns (r: Outcome)
      requires Coherent() && Roomy(Img()) && b !in cache && offset < 4096
      modifies `cache
      ensures Coherent() && Img() == old(Img())
      ensures r == Mapped <==> b < |disk| && offset == 0 && !IsFree(Img(), b)
      ensures r == NotAligned <==> b < |disk| && offset != 0
      ensures r == BlockFree <==> b < |disk| && offset == 0 && IsFree(Img(), b)
      ensures cache == if b >= |disk| then old(cache) else old(cache)[b := Cached(disk[b], r == NotAligned)]
    {
      if b >= |disk| {
        return NoSuchBlock;
      }
      cache := cache[b := Cached(disk[b], true)];
      assert Img() == old(Img());
      if offset != 0 {
        return NotAligned;
      }
      cache := cache[b := Cached(disk[b], false)];
      assert Img() == old(Img());
      if IsFree(Logical(disk, cache), b) {
        return BlockFree;
      }
      return Mapped;
    }

    /** A read of a block through its mapping. */
    method Load(b: nat) returns (blk: Block)
      requires Coherent() && Usable(b)
      modifies `cache
      ensures Coherent() && Img() == old(Img()) && blk == Img()[b]
    {
      if b !in cache {
        var r := Fault(b, 0);
        assert r == Mapped;
      }
      blk := cache[b].data;
    }

    /** A store to a block through its mapping, which sets PTE_D. */
    method Store(b: nat, blk: Block)
      requires Coherent() && Usable(b)
      modifies `cache
      ensures Coherent() && Img() == old(Img())[b := blk]
      ensures b in cache && cache[b].dirty
    {
      if b !in cache {
        var r := Fault(b, 0);
        assert r == Mapped;
      }
      cache := cache[b := Cached(blk, true)];
      assert Img() == old(Img())[b := blk];
    }

    /** flush_block: the block's disk copy becomes what the server reads in it. */
    method FlushBlock(b: nat)
      requires Coherent() && b < |disk|
      modifies this
      ensures Coherent() && Img() == old(Img()) && disk == old(disk)[b := Img()[b]]
      ensures b in cache ==> !cache[b].dirty
    {
      if b in cache && cache[b].dirty {
        disk := disk[b := cache[b].data];
        cache := cache[b := cache[b].(dirty := false)];
      }
      assert Img() == old(Img());
      assert disk == old(disk)[b := Img()[b]];
    }

    /** fs_sync: every block from 1 up reaches the disk. */
    method Sync()
      requires Coherent()
      modifies this
      ensures Coherent() && Img() == old(Img()) && |disk| == old(|disk|)
      ensures forall b :: 1 <= b < |disk| ==> disk[b] == Img()[b]
      ensures |disk| > 0 ==> disk[0] == old(disk[0])
    {
      var i := 1;
      while i < |disk|
        invariant 1 <= i && |disk| == old(|disk|)
        invariant Coherent() && Img() == old(Img())
        invariant forall b :: 1 <= b < i && b < |disk| ==> disk[b] == Img()[b]
        invariant |disk| > 0 ==> disk[0] == old(disk[0])
      {
        FlushBlock(i);
        i := i + 1;
      }
    }
  }
}
