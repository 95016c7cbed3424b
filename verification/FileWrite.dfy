/** fs/fs.c, the rest: truncation, file_set_size, file_write and file_flush. */
module FileWrite {
  import opened FsImage
  import opened FsOwn
  import opened FsOps
  import opened BlockCache
  import opened FileServer

  function NBlocks(size: nat): nat {
    (size + 4095) / 4096
  }

  lemma LastBlock(size: nat, bno: nat)
    ensures bno < NBlocks(size) <==> bno * 4096 < size
  {
  }

  // ---------------------------------------------------------------- truncation

  /** Once the blocks below the old size are given back, the indirect block is empty. */
  lemma IndirectEmpty(img: Image, img': Image, t: Tree, f: Loc, lo: nat)
    requires FsOk(img, t) && Sized(img, t) && Regular(t, f) && lo <= 10
    requires Trimmed(img, img', t, f, lo, NBlocks(SizeOf(img, f)), false) && Val(img', Indirect(f)) != 0
    ensures CanDetach(img', t, Indirect(f))
  {
    hide FsOk, SizeOf, ByteAt, Val;
    forall i: nat | i < 1024 ensures Val(img', Entry(f, i)) == 0 {
      assert IsPtr(t, Entry(f, i));
      assert SizedFile(img, f) && BlockNo(img, f, i + 10) == Val(img, Entry(f, i));
      LastBlock(SizeOf(img, f), i + 10);
    }
  }

  /** file_truncate_blocks. */
  method FileTruncateBlocks(c: Cache, f: Loc, newsize: nat, ghost t: Tree)
    requires c.Coherent() && FsOk(c.Img(), t) && Sized(c.Img(), t) && Regular(t, f) && newsize < SizeOf(c.Img(), f)
    modifies c
    ensures c.Coherent()
    ensures Trimmed(old(c.Img()), c.Img(), t, f, NBlocks(newsize), NBlocks(SizeOf(old(c.Img()), f)),
            NBlocks(newsize) <= 10)
  {
    hide FsOk, Sized, SizeOf, ByteAt, Val, Trimmed, IsFree;
    ghost var img := c.Img();
    UsableNode(img, t, f);
    var node := c.Load(f.blk);
    var oldN, newN := NBlocks(node[f.base + 32]), NBlocks(newsize);
    TrimRefl(img, t, f, newN);
    var bno := newN;
    while bno < oldN
      invariant newN <= bno <= oldN
      invariant c.Coherent() && Trimmed(img, c.Img(), t, f, newN, bno, false)
    {
      ghost var before := c.Img();
      TrimmedOk(img, before, t, f, newN, bno, false);
      var err := FileFreeBlock(c, f, bno, t);
      TrimTrans(img, before, c.Img(), t, f, newN, bno, bno + 1, false);
      bno := bno + 1;
    }
    ghost var mid := c.Img();
    TrimmedOk(img, mid, t, f, newN, oldN, false);
    if newN <= 10 {
      UsableNode(mid, t, f);
      node := c.Load(f.blk);
      if node[f.base + 44] != 0 {
        IndirectEmpty(img, mid, t, f, newN);
        DetachOld(c, f.blk, f.base + 44, Indirect(f), t);
        DetachIndirectTrims(mid, t, f, oldN);
      } else {
        TrimNoIndirect(mid, t, f, oldN);
      }
      TrimTrans(img, mid, c.Img(), t, f, newN, oldN, oldN, true);
    }
  }

  lemma UsableNode(img: Image, t: Tree, f: Loc)
    requires FsOk(img, t) && f in t.files
    ensures 0 < f.blk < |img| && Roomy(img) && !IsFree(img, f.blk) && f.base + 64 <= 1024
    ensures img[f.blk][f.base + 32] == SizeOf(img, f) && img[f.blk][f.base + 44] == Val(img, Indirect(f))
  {
    HostInUse(img, t, f);
  }

  lemma TrimmedOk(img: Image, img': Image, t: Tree, f: Loc, lo: nat, hi: nat, indirect: bool)
    requires Trimmed(img, img', t, f, lo, hi, indirect)
    ensures FsOk(img', t) && |img'| == |img|
  {
  }

  lemma TrimNoIndirect(img: Image, t: Tree, f: Loc, lo: nat)
    requires FsOk(img, t) && f in t.files && Val(img, Indirect(f)) == 0
    ensures Trimmed(img, img, t, f, lo, lo, true)
  {
    hide FsOk, ByteAt, SizeOf, FileWord;
  }

  // ---------------------------------------------------------------- size

  /** What setting the size does: blocks past the new size are given back and read as zero afterwards; bytes
      in a block that is kept stay, even past the new size. */
  ghost predicate Resized(img: Image, img': Image, t: Tree, f: Loc, newsize: nat) {
    var cut := newsize < SizeOf(img, f);
    var lo, hi := NBlocks(newsize), NBlocks(SizeOf(img, f));
    && |img'| == |img| && FsOk(img', t)
    && (forall g: Loc :: g in t.files ==> SizeOf(img', g) == if g == f then newsize else SizeOf(img, g))
    && (forall q: Ptr :: IsPtr(t, q) ==>
         Val(img', q) == if cut && InCut(q, f, lo, hi, lo <= 10) then 0 else Val(img, q))
    && (forall g: Loc, pos: nat :: Regular(t, g) ==>
          ByteAt(img', g, pos) == if cut && g == f && lo <= pos / 4096 < hi then 0 else ByteAt(img, g, pos))
  }

  lemma ResizedSized(img: Image, img': Image, t: Tree, f: Loc, newsize: nat)
    requires Resized(img, img', t, f, newsize) && Sized(img, t) && f in t.files && newsize <= 0x7FFF_F000
    ensures Sized(img', t)
  {
    hide FsOk, SizeOf, ByteAt, Val;
    forall g: Loc | g in t.files ensures SizedFile(img', g) {
      assert SizedFile(img, g);
      forall k: nat | BlockNo(img', g, k) != 0 ensures k * 4096 < SizeOf(img', g) {
        DataPtrs(t, g, k);
        assert BlockNo(img, g, k) != 0;
        LastBlock(newsize, k);
        LastBlock(SizeOf(img, f), k);
      }
    }
  }

  lemma ThenSize(img: Image, mid: Image, t: Tree, f: Loc, newsize: Word32)
    requires FsOk(img, t) && Regular(t, f)
    requires if newsize < SizeOf(img, f)
             then Trimmed(img, mid, t, f, NBlocks(newsize), NBlocks(SizeOf(img, f)), NBlocks(newsize) <= 10)
             else mid == img
    ensures f.blk < |mid| && f.base + 64 <= 1024 && Resized(img, PutSize(mid, f, newsize), t, f, newsize)
  {
    PutSizeKeeps(mid, t, f, newsize);
    var img' := PutSize(mid, f, newsize);
    hide FsOk, SizeOf, ByteAt, Val, PutSize;
    forall g: Loc | g in t.files ensures SizeOf(img', g) == if g == f then newsize else SizeOf(img, g) {
      PutSizeSeen(mid, t, f, newsize, g, 0);
    }
    forall g: Loc, pos: nat | Regular(t, g) ensures ByteAt(img', g, pos) == ByteAt(mid, g, pos) {
      PutSizeSeen(mid, t, f, newsize, g, pos);
    }
    PutSizeLength(mid, f, newsize);
  }

  lemma PutSizeLength(img: Image, f: Loc, size: Word32)
    requires f.blk < |img| && f.base + 64 <= 1024
    ensures |PutSize(img, f, size)| == |img|
  {
  }

  /** file_set_size. */
  method FileSetSize(c: Cache, f: Loc, newsize: nat, ghost t: Tree) returns (r: int)
    requires c.Coherent() && FsOk(c.Img(), t) && Sized(c.Img(), t) && Regular(t, f) && newsize <= 0x7FFF_F000
    modifies c
    ensures r == 0 && c.Coherent() && Sized(c.Img(), t) && Resized(old(c.Img()), c.Img(), t, f, newsize)
    ensures f.blk < |c.disk| && c.disk[f.blk] == c.Img()[f.blk]
  {
    hide FsOk, Sized, SizeOf, ByteAt, Val, IsFree, Trimmed, Resized;
    ghost var img := c.Img();
    UsableNode(img, t, f);
    var node := c.Load(f.blk);
    if node[f.base + 32] > newsize {
      FileTruncateBlocks(c, f, newsize, t);
      TrimmedOk(img, c.Img(), t, f, NBlocks(newsize), NBlocks(SizeOf(img, f)), NBlocks(newsize) <= 10);
    }
    ghost var mid := c.Img();
    UsableNode(mid, t, f);
    node := c.Load(f.blk);
    c.Store(f.blk, node[f.base + 32 := newsize]);
    ThenSize(img, mid, t, f, newsize);
    ResizedSized(img, c.Img(), t, f, newsize);
    c.FlushBlock(f.blk);
    return 0;
  }

  /** Shrinking and extending again shows zeros in the blocks that were given back, and the old bytes, not
      zeros, in the rest of the last block that was kept. */
  lemma ShrinkThenExtend(img: Image, mid: Image, img': Image, t: Tree, f: Loc, small: nat, large: nat, pos: nat)
    requires Sized(img, t) && Regular(t, f) && small < SizeOf(img, f) && small <= large
    requires Resized(img, mid, t, f, small) && Resized(mid, img', t, f, large)
    ensures ByteAt(img', f, pos) == if pos < NBlocks(small) * 4096 then ByteAt(img, f, pos) else 0
  {
    hide FsOk, SizeOf;
    if pos / 4096 >= NBlocks(SizeOf(img, f)) && BlockNo(img, f, pos / 4096) != 0 {
      BelowSize(img, t, f, pos / 4096);
      assert false;
    }
  }

  // ---------------------------------------------------------------- writing

  /** The bytes data at position from of f, and every other byte of every regular file as it was. */
  ghost predicate Wrote(img: Image, img': Image, t: Tree, f: Loc, from: nat, data: seq<Byte>) {
    forall g: Loc, pos: nat :: Regular(t, g) ==>
      ByteAt(img', g, pos) == if g == f && from <= pos < from + |data| then data[pos - from] else ByteAt(img, g, pos)
  }

  lemma WroteNothing(img: Image, img': Image, t: Tree, f: Loc, from: nat)
    requires SameFiles(img, img', t)
    ensures Wrote(img, img', t, f, from, [])
  {
    hide ByteAt;
  }

  lemma WroteMore(a: Image, b: Image, c: Image, t: Tree, f: Loc, from: nat, data: seq<Byte>, more: seq<Byte>)
    requires Wrote(a, b, t, f, from, data) && Wrote(b, c, t, f, from + |data|, more)
    ensures Wrote(a, c, t, f, from, data + more)
  {
    hide ByteAt;
  }

  /** Everything but the bytes: pointers and bitmap are good and no size has changed. */
  ghost predicate Steady(img: Image, img': Image, t: Tree) {
    |img'| == |img| && FsOk(img', t) && Sized(img', t) && forall g: Loc :: g in t.files ==>
      SizeOf(img', g) == SizeOf(img, g)
  }

  function Splice(bytes: Bytes, at: nat, data: seq<Byte>): Bytes
    requires at + |data| <= 4096
  {
    bytes[..at] + data + bytes[at + |data|..]
  }

  /** Writing part of a block of f. */
  lemma PutPart(img: Image, t: Tree, f: Loc, pos: nat, data: seq<Byte>)
    requires FsOk(img, t) && Sized(img, t) && Regular(t, f) && pos / 4096 < 1034 && BlockNo(img, f, pos / 4096) != 0
    requires pos % 4096 + |data| <= 4096
    ensures BlockNo(img, f, pos / 4096) < |img|
    ensures var b := BlockNo(img, f, pos / 4096);
      var img' := img[b := Pack(Splice(Unpack(img[b]), pos % 4096, data))];
      Steady(img, img', t) && Wrote(img, img', t, f, pos, data)
  {
    var bno := pos / 4096;
    DataUsable(img, t, f, bno);
    var b := BlockNo(img, f, bno);
    var bytes := Splice(Unpack(img[b]), pos % 4096, data);
    var blk := Pack(bytes);
    var img' := img[b := blk];
    PutKeeps(img, t, f, bno, blk);
    UnpackPack(bytes);
    hide FsOk, Pack, SizeOf, Val;
    forall g: Loc | g in t.files ensures SizeOf(img', g) == SizeOf(img, g) {
      PutSizes(img, t, f, bno, blk, g);
    }
    PutSized(img, img', t);
    hide Sized;
    forall g: Loc, p: nat | Regular(t, g)
      ensures ByteAt(img', g, p) == if g == f && pos <= p < pos + |data| then data[p - pos] else ByteAt(img, g, p)
    {
      PutBytes(img, t, f, bno, blk, g, p);
      SpliceAt(img, f, pos, data, p);
    }
  }

  lemma PutSized(img: Image, img': Image, t: Tree)
    requires Sized(img, t)
    requires forall q: Ptr :: IsPtr(t, q) ==> Val(img', q) == Val(img, q)
    requires forall g: Loc :: g in t.files ==> SizeOf(img', g) == SizeOf(img, g)
    ensures Sized(img', t)
  {
    hide Val, SizeOf;
    forall g: Loc | g in t.files ensures SizedFile(img', g) {
      assert SizedFile(img, g);
      forall k: nat | BlockNo(img', g, k) != 0 ensures k * 4096 < SizeOf(img', g) {
        DataPtrs(t, g, k);
        assert BlockNo(img, g, k) != 0;
      }
    }
  }

  lemma SpliceAt(img: Image, f: Loc, pos: nat, data: seq<Byte>, p: nat)
    requires 0 < BlockNo(img, f, pos / 4096) < |img| && pos % 4096 + |data| <= 4096
    ensures p / 4096 == pos / 4096 ==>
            Splice(Unpack(img[BlockNo(img, f, pos / 4096)]), pos % 4096, data)[p % 4096] ==
            if pos <= p < pos + |data| then data[p - pos] else ByteAt(img, f, p)
    ensures p / 4096 != pos / 4096 ==> !(pos <= p < pos + |data|)
  {
    hide Unpack, BlockNo;
    if pos <= p < pos + |data| {
      SameBlock(pos, p - pos);
    }
  }

  /** One turn of file_write's loop: data goes into one block. */
  method WriteChunk(c: Cache, f: Loc, pos: nat, data: seq<Byte>, ghost t: Tree) returns (r: int)
    requires c.Coherent() && FsOk(c.Img(), t) && Sized(c.Img(), t) && Regular(t, f)
    requires pos < SizeOf(c.Img(), f) && pos % 4096 + |data| <= 4096
    modifies c
    ensures c.Coherent() && Steady(old(c.Img()), c.Img(), t)
    ensures r == 0 ==> Wrote(old(c.Img()), c.Img(), t, f, pos, data)
    ensures r != 0 ==> Wrote(old(c.Img()), c.Img(), t, f, pos, [])
    ensures r == 0 || (r == -E_INVAL && pos >= 1034 * 4096)
            || (r == -E_NO_DISK && DiskFull(c.Img()) && BlockNo(c.Img(), f, pos / 4096) == 0)
  {
    hide PtrsOk, BitsExact, Sized, DiskFull, BlockNo, SizeOf, IsFree, ByteAt, Wrote, Pack, Splice, Unpack;
    ghost var img := c.Img();
    var b;
    r, b := FileGetBlock(c, f, pos / 4096, t);
    ghost var now := c.Img();
    GrownSized(img, now, t, f, pos / 4096);
    WroteNothing(img, now, t, f, pos);
    if r == 0 {
      DataUsable(now, t, f, pos / 4096);
      var blk := c.Load(b);
      PutPart(now, t, f, pos, data);
      c.Store(b, Pack(Splice(Unpack(blk), pos % 4096, data)));
      WroteMore(img, now, c.Img(), t, f, pos, [], data);
      assert [] + data == data;
    }
  }

  function Max(a: nat, b: nat): nat {
    if a < b then b else a
  }

  /** file_write: done bytes of data have been written, all of them unless an error is returned; the file has grown
      to hold them all, and no other byte of any regular file and no other size has changed. */
  method FileWrite(c: Cache, f: Loc, data: seq<Byte>, offset: nat, ghost t: Tree) returns (r: int, ghost done: nat)
    requires c.Coherent() && FsOk(c.Img(), t) && Sized(c.Img(), t) && Regular(t, f) && offset + |data| <= 0x7FFF_F000
    modifies c
    ensures c.Coherent() && FsOk(c.Img(), t) && Sized(c.Img(), t)
    ensures forall g: Loc :: g in t.files ==>
              SizeOf(c.Img(), g) == if g == f then Max(SizeOf(old(c.Img()), g), offset + |data|)
                else SizeOf(old(c.Img()), g)
    ensures done <= |data| && Wrote(old(c.Img()), c.Img(), t, f, offset, data[..done])
    ensures r >= 0 ==> r == done == |data|
    ensures r >= 0 || (r == -E_INVAL && offset + done >= 1034 * 4096)
            || (r == -E_NO_DISK && DiskFull(c.Img()) && BlockNo(c.Img(), f, (offset + done) / 4096) == 0)
  {
    hide FsOk, Sized, DiskFull, BlockNo, SizeOf, IsFree, ByteAt, Wrote, Resized, Steady;
    ghost var img := c.Img();
    UsableNode(img, t, f);
    var node := c.Load(f.blk);
    if offset + |data| > node[f.base + 32] {
      r := FileSetSize(c, f, offset + |data|, t);
    }
    ghost var start := c.Img();
    Extended(img, start, t, f, offset, |data|);
    r, done := WriteBlocks(c, f, data, offset, t);
    SteadyParts(start, c.Img(), t, f);
    WroteAfter(img, start, c.Img(), t, f, offset, data[..done]);
  }

  /** The loop of file_write, once the file is large enough. */
  method WriteBlocks(c: Cache, f: Loc, data: seq<Byte>, offset: nat, ghost t: Tree) returns (r: int, ghost done: nat)
    requires c.Coherent() && FsOk(c.Img(), t) && Sized(c.Img(), t) && Regular(t, f)
    requires offset + |data| <= SizeOf(c.Img(), f)
    modifies c
    ensures c.Coherent() && Steady(old(c.Img()), c.Img(), t)
    ensures done <= |data| && Wrote(old(c.Img()), c.Img(), t, f, offset, data[..done])
    ensures r >= 0 ==> r == done == |data|
    ensures r >= 0 || (r == -E_INVAL && offset + done >= 1034 * 4096)
            || (r == -E_NO_DISK && Roomy(c.Img()) && DiskFull(c.Img())
                && BlockNo(c.Img(), f, (offset + done) / 4096) == 0)
  {
    hide FsOk, Sized, DiskFull, BlockNo, SizeOf, IsFree, ByteAt, Wrote, Steady;
    ghost var start := c.Img();
    SteadySame(start, t);
    WroteNone(start, t, f, offset);
    done := 0;
    var pos := offset;
    assert data[..0] == [];
    while pos < offset + |data|
      invariant done == pos - offset && done <= |data|
      invariant c.Coherent() && Steady(start, c.Img(), t)
      invariant Wrote(start, c.Img(), t, f, offset, data[..done])
    {
      ghost var before := c.Img();
      SteadyParts(start, before, t, f);
      var bn := Min(4096 - pos % 4096, offset + |data| - pos);
      var part := data[pos - offset..pos - offset + bn];
      r := WriteChunk(c, f, pos, part, t);
      SteadyTrans(start, before, c.Img(), t);
      if r < 0 {
        SteadyParts(start, c.Img(), t, f);
        WroteMore(start, before, c.Img(), t, f, offset, data[..done], []);
        assert data[..done] + [] == data[..done];
        return;
      }
      WroteMore(start, before, c.Img(), t, f, offset, data[..done], part);
      assert data[..done] + part == data[..done + bn];
      pos := pos + bn;
      done := done + bn;
    }
    return |data|, done;
  }

  lemma WroteNone(img: Image, t: Tree, f: Loc, from: nat)
    ensures Wrote(img, img, t, f, from, [])
  {
    hide ByteAt;
  }

  lemma WroteAfter(a: Image, b: Image, c: Image, t: Tree, f: Loc, from: nat, data: seq<Byte>)
    requires Wrote(a, b, t, f, from, []) && Wrote(b, c, t, f, from, data)
    ensures Wrote(a, c, t, f, from, data)
  {
    hide ByteAt;
  }

  lemma SteadySame(img: Image, t: Tree)
    requires FsOk(img, t) && Sized(img, t)
    ensures Steady(img, img, t)
  {
  }

  lemma SteadyTrans(a: Image, b: Image, c: Image, t: Tree)
    requires Steady(a, b, t) && Steady(b, c, t)
    ensures Steady(a, c, t)
  {
    hide FsOk, Sized, SizeOf;
  }

  lemma SteadyParts(img: Image, img': Image, t: Tree, f: Loc)
    requires Steady(img, img', t) && f in t.files
    ensures FsOk(img', t) && Sized(img', t) && Roomy(img') && SizeOf(img', f) == SizeOf(img, f)
    ensures forall g: Loc :: g in t.files ==> SizeOf(img', g) == SizeOf(img, g)
  {
  }

  lemma Extended(img: Image, img': Image, t: Tree, f: Loc, offset: nat, count: nat)
    requires FsOk(img, t) && Sized(img, t) && f in t.files
    requires if offset + count > SizeOf(img, f) then Resized(img, img', t, f, offset + count) && Sized(img', t)
             else img' == img
    ensures FsOk(img', t) && Sized(img', t) && |img'| == |img| && Wrote(img, img', t, f, offset, [])
    ensures forall g: Loc :: g in t.files ==>
              SizeOf(img', g) == if g == f then Max(SizeOf(img, g), offset + count) else SizeOf(img, g)
  {
    hide FsOk, Sized, SizeOf, ByteAt, Val;
  }

  /** Reading what has just been written gives it back. */
  lemma WriteThenRead(img: Image, img': Image, t: Tree, f: Loc, from: nat, data: seq<Byte>)
    requires Wrote(img, img', t, f, from, data) && Regular(t, f)
    ensures BytesOf(img', f, from, |data|) == data
    ensures forall g: Loc, at: nat, n: nat :: Regular(t, g) && g != f ==>
            BytesOf(img', g, at, n) == BytesOf(img, g, at, n)
  {
    hide ByteAt;
  }

  // ---------------------------------------------------------------- flushing

  predicate OnDisk(disk: seq<Block>, img: Image, b: nat) {
    b < |disk| && b < |img| && disk[b] == img[b]
  }

  /** Some blocks have been brought up to date on the disk and the others left alone. */
  predicate Progress(before: seq<Block>, disk: seq<Block>, img: Image) {
    |disk| == |before| == |img| && forall b: nat :: b < |disk| ==> disk[b] == before[b] || disk[b] == img[b]
  }

  lemma ProgressTrans(a: seq<Block>, b: seq<Block>, c: seq<Block>, img: Image)
    requires Progress(a, b, img) && Progress(b, c, img)
    ensures Progress(a, c, img) && forall k: nat :: OnDisk(b, img, k) ==> OnDisk(c, img, k)
  {
  }

  lemma ProgressRefl(disk: seq<Block>, img: Image)
    requires |disk| == |img|
    ensures Progress(disk, disk, img)
  {
  }

  /** One turn of file_flush's loop. */
  method FlushFileBlock(c: Cache, f: Loc, i: nat, ghost t: Tree)
    requires c.Coherent() && FsOk(c.Img(), t) && f in t.files
    modifies c
    ensures c.Coherent() && c.Img() == old(c.Img()) && Progress(old(c.disk), c.disk, c.Img())
    ensures BlockNo(c.Img(), f, i) != 0 ==> OnDisk(c.disk, c.Img(), BlockNo(c.Img(), f, i))
  {
    hide FsOk, IsFree, Val, DiskFull, Grown;
    ghost var img := c.Img();
    var r, h, w := FileBlockWalk(c, f, i, false, t);
    assert Progress(c.disk, c.disk, img);
    if r < 0 {
      NotThere(img, t, f, i);
    } else {
      SlotUsable(img, t, DataPtr(f, i));
      var blk := c.Load(h);
      if blk[w] != 0 {
        DataUsable(img, t, f, i);
        c.FlushBlock(blk[w]);
      }
    }
  }

  /** file_flush: all of f's blocks, its indirect block and the block with its File structure are on the disk. */
  method FileFlush(c: Cache, f: Loc, ghost t: Tree)
    requires c.Coherent() && FsOk(c.Img(), t) && Sized(c.Img(), t) && f in t.files
    modifies c
    ensures c.Coherent() && c.Img() == old(c.Img()) && Progress(old(c.disk), c.disk, c.Img())
    ensures forall bno: nat :: BlockNo(c.Img(), f, bno) != 0 ==> OnDisk(c.disk, c.Img(), BlockNo(c.Img(), f, bno))
    ensures OnDisk(c.disk, c.Img(), f.blk)
    ensures Val(c.Img(), Indirect(f)) != 0 ==> OnDisk(c.disk, c.Img(), Val(c.Img(), Indirect(f)))
  {
    hide FsOk, Sized, SizeOf, IsFree, Val, BlockNo, Progress, OnDisk;
    ghost var img, start := c.Img(), c.disk;
    UsableNode(img, t, f);
    var node := c.Load(f.blk);
    var n := NBlocks(node[f.base + 32]);
    var i := 0;
    ProgressRefl(start, img);
    while i < n
      invariant i <= n && c.Coherent() && c.Img() == img && Progress(start, c.disk, img)
      invariant forall k: nat :: k < i && BlockNo(img, f, k) != 0 ==> OnDisk(c.disk, img, BlockNo(img, f, k))
    {
      ghost var before := c.disk;
      FlushFileBlock(c, f, i, t);
      ProgressTrans(start, before, c.disk, img);
      i := i + 1;
    }
    forall bno: nat | BlockNo(img, f, bno) != 0 ensures OnDisk(c.disk, img, BlockNo(img, f, bno)) {
      BelowSize(img, t, f, bno);
    }
    ghost var before := c.disk;
    FlushNode(c, f, t);
    ProgressTrans(start, before, c.disk, img);
  }

  /** The end of file_flush. */
  method FlushNode(c: Cache, f: Loc, ghost t: Tree)
    requires c.Coherent() && FsOk(c.Img(), t) && f in t.files
    modifies c
    ensures c.Coherent() && c.Img() == old(c.Img()) && Progress(old(c.disk), c.disk, c.Img())
    ensures OnDisk(c.disk, c.Img(), f.blk)
    ensures Val(c.Img(), Indirect(f)) != 0 ==> OnDisk(c.disk, c.Img(), Val(c.Img(), Indirect(f)))
  {
    hide FsOk, SizeOf, IsFree, Val;
    UsableNode(c.Img(), t, f);
    c.FlushBlock(f.blk);
    var node := c.Load(f.blk);
    if node[f.base + 44] != 0 {
      OwnedInUse(c.Img(), t, Indirect(f));
      c.FlushBlock(node[f.base + 44]);
    }
  }

  lemma BelowSize(img: Image, t: Tree, f: Loc, bno: nat)
    requires Sized(img, t) && f in t.files && BlockNo(img, f, bno) != 0
    ensures bno < NBlocks(SizeOf(img, f))
  {
    hide SizeOf, BlockNo;
    assert SizedFile(img, f);
    LastBlock(SizeOf(img, f), bno);
  }
}
