/** fs/fs.c on the block cache: the bitmap allocator, the block map of a file, reads, writes and truncation. */
module FileServer {
  import opened FsImage
  import opened FsOwn
  import opened FsOps
  import opened BlockCache

  const E_INVAL: int := 3
  const E_NO_DISK: int := 9
  const E_NOT_FOUND: int := 11

  /** Pointers of p's file that were empty may have been filled; nothing else about the image is new. */
  ghost predicate Grown(img: Image, img': Image, t: Tree, p: Ptr) {
    && |img'| == |img| && FsOk(img', t) && SameFiles(img, img', t)
    && (forall q: Ptr :: IsPtr(t, q) ==>
         Val(img', q) == Val(img, q) || (Val(img, q) == 0 && (q == p || q == Indirect(p.f))))
  }

  /** alloc_block. */
  method AllocBlock(c: Cache, ghost t: Tree) returns (r: int)
    requires c.Coherent() && FsOk(c.Img(), t)
    modifies c
    ensures c.Coherent()
    ensures r >= 0 ==> LowestFree(old(c.Img()), r) && c.Img() == Mark(old(c.Img()), r, false)
                       && c.disk[BitmapBlock(r)] == c.Img()[BitmapBlock(r)]
    ensures r < 0 ==> r == -E_NO_DISK && c.Img() == old(c.Img()) && DiskFull(c.Img())
  {
    hide PtrsOk, BitsExact, GetBit, SetWordBit;
    ghost var img := c.Img();
    PtrsRoomy(img, t);
    var n := |c.disk|;
    var blockno := 0;
    while blockno < n
      invariant blockno <= n == |c.disk|
      invariant c.Coherent() && c.Img() == img
      invariant forall b: nat :: b < blockno ==> !IsFree(img, b)
    {
      BitmapFits(n, blockno);
      BitmapInUse(img, t, blockno);
      var words := c.Load(BitmapBlock(blockno));
      var w := words[BitmapWord(blockno)];
      if GetBit(w, blockno % 32) {
        words := words[BitmapWord(blockno) := SetWordBit(w, blockno % 32, false)];
        c.Store(BitmapBlock(blockno), words);
        assert c.Img() == Mark(img, blockno, false);
        c.FlushBlock(BitmapBlock(blockno));
        return blockno;
      }
      blockno := blockno + 1;
    }
    return -E_NO_DISK;
  }

  lemma BitmapInUse(img: Image, t: Tree, b: nat)
    requires FsOk(img, t) && Roomy(img) && b < |img|
    ensures 0 < BitmapBlock(b) < |img| && !IsFree(img, BitmapBlock(b))
  {
    hide PtrsOk;
    BitmapFits(|img|, b);
  }

  /** Allocate a block, clear it and put it in an empty pointer p, whose place is word w of block h. */
  method AttachNew(c: Cache, h: nat, w: nat, ghost p: Ptr, ghost t: Tree) returns (r: int)
    requires c.Coherent() && FsOk(c.Img(), t) && HasHome(c.Img(), t, p) && Val(c.Img(), p) == 0
    requires h == HomeBlock(c.Img(), p) && w == HomeWord(p)
    modifies c
    ensures c.Coherent()
    ensures r >= 0 ==> CanAttach(old(c.Img()), t, p, r) && LowestFree(old(c.Img()), r)
    ensures r >= 0 ==> Grown(old(c.Img()), c.Img(), t, p) && Val(c.Img(), p) == r
    ensures r >= 0 ==> r > 0 && forall q: Ptr :: IsPtr(t, q) && q != p ==> Val(c.Img(), q) == Val(old(c.Img()), q)
    ensures r < 0 ==> r == -E_NO_DISK && c.Img() == old(c.Img()) && DiskFull(c.Img())
  {
    ghost var img := c.Img();
    r := AllocBlock(c, t);
    if r < 0 {
      return;
    }
    AttachFits(img, t, p, r);
    AttachKeeps(img, t, p, r);
    AttachUnseen(img, t, p, r);
    forall q: Ptr | IsPtr(t, q) ensures Val(Attach(img, p, r), q) == if q == p then r else Val(img, q) {
      AttachVal(img, t, p, r, q);
    }
    HomeInUse(img, t, p, r);
    hide FsOk, HasHome, CanAttach, IsFree, HomeBlock, HomeWord, Val;
    c.Store(r, ZeroBlock());
    c.FlushBlock(r);
    var blk := c.Load(h);
    c.Store(h, blk[w := r]);
    assert c.Img() == Attach(img, p, r);
  }

  /** The blocks touched while attaching are in use at that time. */
  lemma HomeInUse(img: Image, t: Tree, p: Ptr, b: nat)
    requires CanAttach(img, t, p, b)
    ensures Roomy(img) && Reserved(|img|) <= b < |img| && 0 < HomeBlock(img, p) < |img|
    ensures var u := Mark(img, b, false);
      && !IsFree(u, b)
      && Roomy(u[b := ZeroBlock()]) && !IsFree(u[b := ZeroBlock()], HomeBlock(img, p))
  {
    AttachFits(img, t, p, b);
    HomeFits(img, t, p);
    HostInUse(img, t, p.f);
    if p.Entry? {
      OwnedInUse(img, t, Indirect(p.f));
    }
    BitsUnmoved(Mark(img, b, false), b, ZeroBlock(), HomeBlock(img, p));
  }

  lemma GrownRefl(img: Image, t: Tree, p: Ptr)
    requires FsOk(img, t)
    ensures Grown(img, img, t, p)
  {
  }

  lemma GrownTrans(a: Image, b: Image, c: Image, t: Tree, p: Ptr, q: Ptr)
    requires Grown(a, b, t, p) && Grown(b, c, t, q) && p.f == q.f && (p == q || p.Indirect?)
    ensures Grown(a, c, t, q)
  {
    hide FsOk, SizeOf, ByteAt, Val;
  }

  /** Filling pointers below the size keeps every file's blocks below its size. */
  lemma GrownSized(img: Image, img': Image, t: Tree, f: Loc, bno: nat)
    requires Grown(img, img', t, DataPtr(f, bno)) && Sized(img, t) && f in t.files && bno * 4096 < SizeOf(img, f)
    ensures Sized(img', t)
  {
    hide FsOk, SizeOf, ByteAt, Val;
    forall g: Loc | g in t.files ensures SizedFile(img', g) {
      assert SizedFile(img, g);
      forall k: nat | BlockNo(img', g, k) != 0 ensures k * 4096 < SizeOf(img', g) {
        DataPtrs(t, g, k);
        assert BlockNo(img, g, k) != 0 || (g == f && k == bno);
      }
    }
  }

  /** file_block_walk: on success, word w of block h is where the number of block filebno of f is kept. */
  method FileBlockWalk(c: Cache, f: Loc, filebno: nat, alloc: bool, ghost t: Tree) returns (r: int, h: nat, w: nat)
    requires c.Coherent() && FsOk(c.Img(), t) && f in t.files
    modifies c
    ensures c.Coherent() && Grown(old(c.Img()), c.Img(), t, Indirect(f))
    ensures r == 0 ==> filebno < 1034 && HasHome(c.Img(), t, DataPtr(f, filebno))
                       && h == HomeBlock(c.Img(), DataPtr(f, filebno)) && w == HomeWord(DataPtr(f, filebno))
    ensures r != 0 ==> c.Img() == old(c.Img())
    ensures r != 0 <==> filebno >= 1034
                        || (filebno >= 10 && Val(old(c.Img()), Indirect(f)) == 0 && (!alloc || DiskFull(old(c.Img()))))
    ensures r == if r == 0 then 0 else if filebno >= 1034 then -E_INVAL else if !alloc then -E_NOT_FOUND else -E_NO_DISK
    ensures !alloc || filebno < 10 || Val(old(c.Img()), Indirect(f)) != 0 ==> c.Img() == old(c.Img())
    ensures !alloc ==> c.disk == old(c.disk)
  {
    hide IsFree, SameFiles;
    ghost var img := c.Img();
    GrownRefl(img, t, Indirect(f));
    h, w := 0, 0;
    if filebno >= 1034 {
      return -E_INVAL, h, w;
    }
    if filebno < 10 {
      return 0, f.blk, f.base + 34 + filebno;
    }
    HostInUse(img, t, f);
    var node := c.Load(f.blk);
    var indirect := node[f.base + 44];
    if indirect == 0 {
      if !alloc {
        return -E_NOT_FOUND, h, w;
      }
      var b := AttachNew(c, f.blk, f.base + 44, Indirect(f), t);
      if b < 0 {
        return -E_NO_DISK, h, w;
      }
      indirect := b;
    }
    return 0, indirect, filebno - 10;
  }

  /** file_get_block: the number of block filebno of f, allocated if need be. */
  method FileGetBlock(c: Cache, f: Loc, filebno: nat, ghost t: Tree) returns (r: int, b: nat)
    requires c.Coherent() && FsOk(c.Img(), t) && f in t.files
    modifies c
    ensures c.Coherent() && Grown(old(c.Img()), c.Img(), t, DataPtr(f, filebno))
    ensures r == 0 ==> filebno < 1034 && b == BlockNo(c.Img(), f, filebno) != 0
    ensures BlockNo(old(c.Img()), f, filebno) != 0 ==> r == 0 && c.Img() == old(c.Img())
    ensures filebno < 10 ==> Val(c.Img(), Indirect(f)) == Val(old(c.Img()), Indirect(f))
    ensures r != 0 ==> r == if filebno >= 1034 then -E_INVAL else -E_NO_DISK
    ensures r == -E_INVAL ==> filebno >= 1034 && c.Img() == old(c.Img())
    ensures r == -E_NO_DISK ==> DiskFull(c.Img()) && BlockNo(c.Img(), f, filebno) == 0
  {
    hide FsOk, SameFiles, DiskFull, IsFree, Val, BlockNo;
    ghost var img := c.Img();
    b := 0;
    var h, w;
    r, h, w := FileBlockWalk(c, f, filebno, true, t);
    ghost var mid := c.Img();
    ghost var p := DataPtr(f, filebno);
    WalkedTo(img, mid, t, f, filebno);
    if r < 0 {
      return;
    }
    SlotUsable(mid, t, p);
    DataPtrs(t, f, filebno);
    var blk := c.Load(h);
    if blk[w] == 0 {
      var blockno := AttachNew(c, h, w, p, t);
      if blockno < 0 {
        return -E_NO_DISK, 0;
      }
      GrownTrans(img, mid, c.Img(), t, Indirect(f), p);
      BlockIs(c.Img(), f, filebno);
      return 0, blockno;
    }
    return 0, blk[w];
  }

  lemma BlockIs(img: Image, f: Loc, bno: nat)
    ensures bno < 1034 ==> BlockNo(img, f, bno) == Val(img, DataPtr(f, bno))
    ensures bno >= 1034 || (bno >= 10 && Val(img, Indirect(f)) == 0) ==> BlockNo(img, f, bno) == 0
  {
  }

  /** Finding a block's place, with or without a new indirect block, changes no data pointer. */
  lemma WalkedTo(img: Image, mid: Image, t: Tree, f: Loc, bno: nat)
    requires FsOk(img, t) && f in t.files && Grown(img, mid, t, Indirect(f))
    ensures Grown(img, mid, t, DataPtr(f, bno)) && Grown(mid, mid, t, DataPtr(f, bno)) && IsPtr(t, Indirect(f))
    ensures bno < 1034 ==> BlockNo(img, f, bno) == Val(img, DataPtr(f, bno))
    ensures bno < 1034 ==> BlockNo(mid, f, bno) == Val(mid, DataPtr(f, bno))
    ensures bno < 1034 ==> BlockNo(mid, f, bno) == BlockNo(img, f, bno)
    ensures bno >= 1034 || (bno >= 10 && Val(img, Indirect(f)) == 0) ==> BlockNo(img, f, bno) == 0
    ensures Indirect(f) != DataPtr(f, bno)
  {
    hide FsOk, SameFiles, Val;
    GrownRefl(mid, t, DataPtr(f, bno));
    GrownTrans(img, mid, mid, t, Indirect(f), DataPtr(f, bno));
    BlockIs(img, f, bno);
    BlockIs(mid, f, bno);
    if bno < 1034 {
      DataPtrs(t, f, bno);
    }
  }

  lemma SlotUsable(img: Image, t: Tree, p: Ptr)
    requires FsOk(img, t) && HasHome(img, t, p)
    ensures 0 < HomeBlock(img, p) < |img| && HomeWord(p) < 1024 && Roomy(img) && !IsFree(img, HomeBlock(img, p))
    ensures img[HomeBlock(img, p)][HomeWord(p)] == Val(img, p)
  {
    HomeFits(img, t, p);
    HostInUse(img, t, p.f);
    if p.Entry? {
      OwnedInUse(img, t, Indirect(p.f));
    }
  }

  // ---------------------------------------------------------------- reading

  /** n bytes of a file from position from. */
  function BytesOf(img: Image, f: Loc, from: nat, n: nat): (s: seq<Byte>)
    ensures |s| == n && forall k: nat :: k < n ==> s[k] == ByteAt(img, f, from + k)
  {
    if n == 0 then [] else BytesOf(img, f, from, n - 1) + [ByteAt(img, f, from + n - 1)]
  }

  /** The bytes of one block of a file, at the positions they have in the file. */
  lemma BlockBytes(img: Image, f: Loc, pos: nat, bn: nat)
    requires 0 < BlockNo(img, f, pos / 4096) < |img| && pos % 4096 + bn <= 4096
    ensures Unpack(img[BlockNo(img, f, pos / 4096)])[pos % 4096..pos % 4096 + bn] == BytesOf(img, f, pos, bn)
  {
    var bytes := Unpack(img[BlockNo(img, f, pos / 4096)]);
    forall k: nat | k < bn ensures bytes[pos % 4096..pos % 4096 + bn][k] == BytesOf(img, f, pos, bn)[k] {
      SameBlock(pos, k);
    }
  }

  lemma SameBlock(pos: nat, k: nat)
    requires pos % 4096 + k < 4096
    ensures (pos + k) / 4096 == pos / 4096 && (pos + k) % 4096 == pos % 4096 + k
  {
  }

  lemma BytesJoin(img: Image, f: Loc, from: nat, m: nat, n: nat)
    ensures BytesOf(img, f, from, m) + BytesOf(img, f, from + m, n) == BytesOf(img, f, from, m + n)
    ensures BytesOf(img, f, from, 0) == []
  {
    hide ByteAt;
  }

  lemma SameView(img: Image, img': Image, t: Tree, f: Loc, from: nat, n: nat)
    requires SameFiles(img, img', t) && Regular(t, f)
    ensures BytesOf(img', f, from, n) == BytesOf(img, f, from, n)
  {
    hide ByteAt;
  }

  lemma DataUsable(img: Image, t: Tree, f: Loc, bno: nat)
    requires FsOk(img, t) && f in t.files && bno < 1034 && BlockNo(img, f, bno) != 0
    ensures 0 < BlockNo(img, f, bno) < |img| && Roomy(img) && !IsFree(img, BlockNo(img, f, bno))
  {
    DataPtrs(t, f, bno);
    OwnedInUse(img, t, DataPtr(f, bno));
  }

  function Min(a: nat, b: nat): nat {
    if a < b then a else b
  }

  /** One turn of file_read's loop: bn bytes of one block. */
  method ReadChunk(c: Cache, f: Loc, pos: nat, bn: nat, ghost t: Tree) returns (r: int, part: seq<Byte>)
    requires c.Coherent() && FsOk(c.Img(), t) && Sized(c.Img(), t) && f in t.files
    requires pos < SizeOf(c.Img(), f) && pos % 4096 + bn <= 4096
    modifies c
    ensures c.Coherent() && FsOk(c.Img(), t) && Sized(c.Img(), t) && SameFiles(old(c.Img()), c.Img(), t)
    ensures r == 0 ==> |part| == bn && (Regular(t, f) ==> part == BytesOf(old(c.Img()), f, pos, bn))
    ensures r == 0 || (r == -E_INVAL && pos >= 1034 * 4096)
            || (r == -E_NO_DISK && DiskFull(c.Img()) && BlockNo(c.Img(), f, pos / 4096) == 0)
  {
    hide PtrsOk, BitsExact, Sized, DiskFull, BlockNo, SizeOf, IsFree, ByteAt;
    ghost var img := c.Img();
    part := [];
    var b;
    r, b := FileGetBlock(c, f, pos / 4096, t);
    ghost var now := c.Img();
    GrownSized(img, now, t, f, pos / 4096);
    if r == 0 {
      DataUsable(now, t, f, pos / 4096);
      var blk := c.Load(b);
      BlockBytes(now, f, pos, bn);
      if Regular(t, f) {
        SameView(img, now, t, f, pos, bn);
      }
      part := Unpack(blk)[pos % 4096..pos % 4096 + bn];
    }
  }

  /** file_read: the bytes of the file as they were; a read may allocate holes, but no reader can tell. */
  method FileRead(c: Cache, f: Loc, count: nat, offset: nat, ghost t: Tree) returns (r: int, buf: seq<Byte>)
    requires c.Coherent() && FsOk(c.Img(), t) && Sized(c.Img(), t) && f in t.files
    modifies c
    ensures c.Coherent() && FsOk(c.Img(), t) && Sized(c.Img(), t) && SameFiles(old(c.Img()), c.Img(), t)
    ensures Regular(t, f) ==> buf == BytesOf(old(c.Img()), f, offset, |buf|)
    ensures r >= 0 ==> r == |buf| == if offset >= SizeOf(old(c.Img()), f) then 0
            else Min(count, SizeOf(old(c.Img()), f) - offset)
    ensures r >= 0 || (r == -E_INVAL && offset + |buf| >= 1034 * 4096)
            || (r == -E_NO_DISK && DiskFull(c.Img()) && BlockNo(c.Img(), f, (offset + |buf|) / 4096) == 0)
  {
    hide PtrsOk, BitsExact, Sized, DiskFull, BlockNo, SizeOf, IsFree, ByteAt, BytesOf;
    ghost var img := c.Img();
    buf := [];
    HostInUse(img, t, f);
    SizeField(img, t, f);
    var node := c.Load(f.blk);
    var size := node[f.base + 32];
    if offset >= size {
      BytesJoin(img, f, offset, 0, 0);
      return 0, buf;
    }
    var n := Min(count, size - offset);
    var pos := offset;
    BytesJoin(img, f, offset, 0, 0);
    while pos < offset + n
      invariant offset <= pos <= offset + n && |buf| == pos - offset
      invariant c.Coherent() && FsOk(c.Img(), t) && Sized(c.Img(), t) && SameFiles(img, c.Img(), t)
      invariant Regular(t, f) ==> buf == BytesOf(img, f, offset, |buf|)
    {
      var bn := Min(4096 - pos % 4096, offset + n - pos);
      if Regular(t, f) {
        SameView(img, c.Img(), t, f, pos, bn);
      }
      var part;
      r, part := ReadChunk(c, f, pos, bn, t);
      if r < 0 {
        return;
      }
      BytesJoin(img, f, offset, pos - offset, bn);
      buf := buf + part;
      pos := pos + bn;
    }
    return n, buf;
  }

  lemma SizeField(img: Image, t: Tree, f: Loc)
    requires PtrsOk(img, t) && f in t.files
    ensures 0 < f.blk < |img| && f.base + 64 <= 1024 && Roomy(img) && img[f.blk][f.base + 32] == SizeOf(img, f)
  {
  }

  // ---------------------------------------------------------------- truncation

  predicate InCut(q: Ptr, f: Loc, lo: nat, hi: nat, indirect: bool) {
    q.f == f && match q
    case Direct(_, i) => lo <= i < hi
    case Entry(_, i) => lo <= i + 10 < hi
    case Indirect(_) => indirect
  }

  /** Blocks lo to hi of f, and its indirect block if asked, have been given back; nothing else has changed. */
  ghost predicate Trimmed(img: Image, img': Image, t: Tree, f: Loc, lo: nat, hi: nat, indirect: bool) {
    && |img'| == |img| && FsOk(img', t)
    && (forall g: Loc :: g in t.files ==> SizeOf(img', g) == SizeOf(img, g))
    && (forall q: Ptr :: IsPtr(t, q) ==> Val(img', q) == if InCut(q, f, lo, hi, indirect) then 0 else Val(img, q))
    && (forall g: Loc, pos: nat :: Regular(t, g) ==>
          ByteAt(img', g, pos) == if g == f && lo <= pos / 4096 < hi then 0 else ByteAt(img, g, pos))
  }

  /** free_block. */
  method FreeBlock(c: Cache, b: nat, ghost t: Tree)
    requires c.Coherent() && FsOk(c.Img(), t) && 0 < b < |c.Img()|
    modifies c
    ensures c.Coherent() && c.Img() == Mark(old(c.Img()), b, true)
  {
    hide PtrsOk;
    ghost var img := c.Img();
    PtrsRoomy(img, t);
    BitmapFits(|c.disk|, b);
    var words := c.Load(BitmapBlock(b));
    c.Store(BitmapBlock(b), words[BitmapWord(b) := SetWordBit(words[BitmapWord(b)], b % 32, true)]);
    assert c.Img() == Mark(img, b, true);
  }

  predicate IsDetach(img: Image, p: Ptr, img': Image) {
    && Roomy(img) && Val(img, p) < |img|
    && HomeWord(p) < 1024 && HomeBlock(Mark(img, Val(img, p), true), p) < |img|
    && img' == Detach(img, p)
  }

  /** Give back the block that pointer p holds, and clear p, whose place is word w of block h. */
  method DetachOld(c: Cache, h: nat, w: nat, ghost p: Ptr, ghost t: Tree)
    requires c.Coherent() && CanDetach(c.Img(), t, p) && h == HomeBlock(c.Img(), p) && w == HomeWord(p)
    modifies c
    ensures c.Coherent() && IsDetach(old(c.Img()), p, c.Img())
  {
    ghost var img := c.Img();
    DetachFits(img, t, p);
    SlotUsable(img, t, p);
    HomeStays(img, t, p);
    DetachIs(img, p);
    hide CanDetach, FsOk, HasHome, IsFree, Val, HomeBlock, HomeWord, Mark, Detach;
    var blk := c.Load(h);
    FreeBlock(c, blk[w], t);
    blk := c.Load(h);
    c.Store(h, blk[w := 0]);
  }

  lemma DetachIs(img: Image, p: Ptr)
    requires Roomy(img) && Val(img, p) < |img| && HomeWord(p) < 1024
    requires HomeBlock(Mark(img, Val(img, p), true), p) < |img|
    ensures var m, h := Mark(img, Val(img, p), true), HomeBlock(Mark(img, Val(img, p), true), p);
      Detach(img, p) == m[h := m[h][HomeWord(p) := 0]]
  {
    hide Mark, Val;
  }

  /** The block that holds pointer p is not the one p names. */
  lemma HomeStays(img: Image, t: Tree, p: Ptr)
    requires CanDetach(img, t, p)
    ensures Roomy(img) && Val(img, p) < |img| && HomeBlock(img, p) < |img|
    ensures !IsFree(Mark(img, Val(img, p), true), HomeBlock(img, p))
  {
    DetachFits(img, t, p);
    SlotUsable(img, t, p);
    NotHost(img, t, p, p.f);
    assert IsPtr(t, Indirect(p.f));
  }

  lemma DetachTrims(img: Image, t: Tree, f: Loc, bno: nat)
    requires f in t.files && bno < 1034 && CanDetach(img, t, DataPtr(f, bno))
    requires Roomy(img) && Val(img, DataPtr(f, bno)) < |img| && HomeWord(DataPtr(f, bno)) < 1024
    requires HomeBlock(Mark(img, Val(img, DataPtr(f, bno)), true), DataPtr(f, bno)) < |img|
    ensures Trimmed(img, Detach(img, DataPtr(f, bno)), t, f, bno, bno + 1, false)
  {
    hide CanDetach, Detach, Val, ByteAt, SizeOf, FsOk, DataPtr, HomeBlock, HomeWord, InCut;
    var p := DataPtr(f, bno);
    DataPtrs(t, f, bno);
    DetachKeeps(img, t, p);
    var img' := Detach(img, p);
    forall g: Loc | g in t.files ensures SizeOf(img', g) == SizeOf(img, g) {
      DetachSize(img, t, p, g);
    }
    CutOne(t, f, bno);
    forall q: Ptr | IsPtr(t, q) ensures Val(img', q) == if InCut(q, f, bno, bno + 1, false) then 0 else Val(img, q) {
      DetachVal(img, t, p, q);
    }
    forall g: Loc, pos: nat | Regular(t, g)
      ensures ByteAt(img', g, pos) == if g == f && bno <= pos / 4096 < bno + 1 then 0 else ByteAt(img, g, pos)
    {
      DetachByte(img, t, p, g, pos);
    }
  }

  lemma CutOne(t: Tree, f: Loc, bno: nat)
    requires bno < 1034
    ensures forall q: Ptr :: IsPtr(t, q) ==> (InCut(q, f, bno, bno + 1, false) <==> q == DataPtr(f, bno))
  {
  }

  lemma DetachIndirectTrims(img: Image, t: Tree, f: Loc, lo: nat)
    requires f in t.files && CanDetach(img, t, Indirect(f))
    requires Roomy(img) && Val(img, Indirect(f)) < |img| && HomeWord(Indirect(f)) < 1024
    requires HomeBlock(Mark(img, Val(img, Indirect(f)), true), Indirect(f)) < |img|
    ensures Trimmed(img, Detach(img, Indirect(f)), t, f, lo, lo, true)
  {
    var p := Indirect(f);
    DetachKeeps(img, t, p);
    var img' := Detach(img, p);
    forall g: Loc | g in t.files ensures SizeOf(img', g) == SizeOf(img, g) {
      DetachSize(img, t, p, g);
    }
    forall q: Ptr | IsPtr(t, q) ensures Val(img', q) == if InCut(q, f, lo, lo, true) then 0 else Val(img, q) {
      DetachVal(img, t, p, q);
    }
    forall g: Loc, pos: nat | Regular(t, g)
      ensures ByteAt(img', g, pos) == if g == f && lo <= pos / 4096 < lo then 0 else ByteAt(img, g, pos)
    {
      DetachByte(img, t, p, g, pos);
    }
  }

  lemma TrimRefl(img: Image, t: Tree, f: Loc, lo: nat)
    requires FsOk(img, t)
    ensures Trimmed(img, img, t, f, lo, lo, false)
  {
  }

  /** A block that is not there is as good as given back. */
  lemma TrimHole(img: Image, t: Tree, f: Loc, bno: nat)
    requires FsOk(img, t) && f in t.files && BlockNo(img, f, bno) == 0
    ensures Trimmed(img, img, t, f, bno, bno + 1, false)
  {
    forall q: Ptr | IsPtr(t, q) && InCut(q, f, bno, bno + 1, false) ensures Val(img, q) == 0 {
      assert q == DataPtr(f, bno);
    }
  }

  lemma TrimTrans(a: Image, b: Image, c: Image, t: Tree, f: Loc, lo: nat, mid: nat, hi: nat, indirect: bool)
    requires Trimmed(a, b, t, f, lo, mid, false) && Trimmed(b, c, t, f, mid, hi, indirect) && lo <= mid <= hi
    ensures Trimmed(a, c, t, f, lo, hi, indirect)
  {
    hide FsOk, SizeOf, ByteAt, Val;
  }

  /** file_free_block: an error means there was no such block. */
  method FileFreeBlock(c: Cache, f: Loc, filebno: nat, ghost t: Tree) returns (r: int)
    requires c.Coherent() && FsOk(c.Img(), t) && Regular(t, f)
    modifies c
    ensures c.Coherent() && Trimmed(old(c.Img()), c.Img(), t, f, filebno, filebno + 1, false)
    ensures r < 0 ==> c.Img() == old(c.Img())
  {
    hide FsOk, Val, IsFree, ByteAt, SizeOf, Grown;
    ghost var img := c.Img();
    var h, w;
    r, h, w := FileBlockWalk(c, f, filebno, false, t);
    if r < 0 {
      NotThere(img, t, f, filebno);
      TrimHole(img, t, f, filebno);
      return;
    }
    ghost var p := DataPtr(f, filebno);
    SlotUsable(img, t, p);
    var blk := c.Load(h);
    if blk[w] != 0 {
      DetachOld(c, h, w, p, t);
      DetachTrims(img, t, f, filebno);
    } else {
      TrimHole(img, t, f, filebno);
    }
  }

  lemma NotThere(img: Image, t: Tree, f: Loc, bno: nat)
    requires bno >= 1034 || (bno >= 10 && Val(img, Indirect(f)) == 0)
    ensures BlockNo(img, f, bno) == 0
  {
  }
}
