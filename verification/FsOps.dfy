/** The four ways fs.c changes an image: it attaches a new block, detaches one, writes data, or sets a size. Each keeps
    ownership exact, and what each does to the bytes of every regular file is stated for all positions. */
module FsOps {
  import opened FsImage
  import opened FsOwn

  /** A regular file: its blocks hold no File structures. */
  predicate Regular(t: Tree, f: Loc) {
    f in t.files && f !in t.dirs
  }

  /** No regular file's bytes and no file's size has changed. */
  ghost predicate SameFiles(img: Image, img': Image, t: Tree) {
    && (forall g: Loc :: g in t.files ==> SizeOf(img', g) == SizeOf(img, g))
    && (forall g: Loc, pos: nat :: Regular(t, g) ==> ByteAt(img', g, pos) == ByteAt(img, g, pos))
  }

  /** The bitmap lies outside every block that holds a pointer, a size or data. */
  lemma BitsUnmoved(img: Image, b: nat, blk: Block, c: nat)
    requires Roomy(img) && b < |img| && c < |img| && (b == 1 || Reserved(|img|) <= b)
    ensures IsFree(img[b := blk], c) == IsFree(img, c)
  {
    BitmapFits(|img|, c);
  }

  /** Bytes depend on the pointer to their block and on that block. */
  lemma SameBytes(img: Image, img': Image, t: Tree, g: Loc, pos: nat)
    requires PtrsOk(img, t) && |img'| == |img| && g in t.files
    requires BlockNo(img', g, pos / 4096) == BlockNo(img, g, pos / 4096)
    requires BlockNo(img, g, pos / 4096) != 0 ==>
      && Reserved(|img|) <= BlockNo(img, g, pos / 4096) < |img|
      && img'[BlockNo(img, g, pos / 4096)] == img[BlockNo(img, g, pos / 4096)]
    ensures ByteAt(img', g, pos) == ByteAt(img, g, pos)
  {
  }

  lemma DataPtrs(t: Tree, f: Loc, bno: nat)
    requires f in t.files && bno < 1034
    ensures IsPtr(t, DataPtr(f, bno)) && DataPtr(f, bno).f == f && !DataPtr(f, bno).Indirect?
    ensures forall g: Loc, c: nat :: c < 1034 && DataPtr(g, c) == DataPtr(f, bno) ==> g == f && c == bno
  {
  }

  /** A regular file's data block holds neither File structures nor block pointers. */
  lemma DataBlock(img: Image, t: Tree, f: Loc, bno: nat, q: Ptr)
    requires PtrsOk(img, t) && Regular(t, f) && bno < 1034 && BlockNo(img, f, bno) != 0 && IsPtr(t, q)
    ensures var b := BlockNo(img, f, bno);
      && Reserved(|img|) <= b < |img| && b != q.f.blk && b != Val(img, Indirect(q.f))
      && (q != DataPtr(f, bno) ==> b != Val(img, q))
  {
    DataPtrs(t, f, bno);
    assert IsPtr(t, Indirect(q.f));
  }

  // ---------------------------------------------------------------- attach

  lemma AttachFits(img: Image, t: Tree, p: Ptr, b: nat)
    requires CanAttach(img, t, p, b)
    ensures Roomy(img) && |img| < 0x1_0000_0000 && Reserved(|img|) <= b
    ensures HomeWord(p) < 1024 && HomeBlock(Mark(img, b, false)[b := ZeroBlock()], p) < |img|
    ensures var h := HomeBlock(Mark(img, b, false)[b := ZeroBlock()], p);
      && h == HomeBlock(img, p) && h != b && (h == 1 || Reserved(|img|) <= h)
      && Attach(img, p, b)[b] == ZeroBlock()
      && (forall c :: 0 <= c < |img| && c != b && c != h && Reserved(|img|) <= c ==> Attach(img, p, b)[c] == img[c])
  {
    AttachVal(img, t, p, b, p);
    HomeFits(img, t, p);
    TakeVal(img, t, b, Indirect(p.f));
    HostInUse(img, t, p.f);
    if Val(img, Indirect(p.f)) != 0 {
      OwnedInUse(img, t, Indirect(p.f));
    }
    BitmapFits(|img|, b);
  }

  lemma AttachFree(img: Image, t: Tree, p: Ptr, b: nat, c: nat)
    requires CanAttach(img, t, p, b) && c < |img|
    requires HomeWord(p) < 1024 && HomeBlock(Mark(img, b, false)[b := ZeroBlock()], p) < |img|
    ensures IsFree(Attach(img, p, b), c) == (IsFree(img, c) && c != b)
  {
    AttachFits(img, t, p, b);
    var u := Mark(img, b, false);
    BitsUnmoved(u, b, ZeroBlock(), c);
    var v := u[b := ZeroBlock()];
    var h := HomeBlock(v, p);
    BitsUnmoved(v, h, v[h][HomeWord(p) := b], c);
  }

  /** Attaching a block keeps the bitmap and the pointers exact. */
  lemma AttachKeeps(img: Image, t: Tree, p: Ptr, b: nat)
    requires CanAttach(img, t, p, b)
    ensures HomeWord(p) < 1024 && HomeBlock(Mark(img, b, false)[b := ZeroBlock()], p) < |img|
    ensures FsOk(Attach(img, p, b), t)
  {
    AttachFits(img, t, p, b);
    var img' := Attach(img, p, b);
    forall q: Ptr | IsPtr(t, q) ensures Val(img', q) == if q == p then b else Val(img, q) {
      AttachVal(img, t, p, b, q);
    }
    FreshBlock(img, t, b);
    AttachPtrs(img, img', t, p, b);
    forall c: nat | c < |img| ensures IsFree(img', c) == (IsFree(img, c) && c != b) {
      AttachFree(img, t, p, b, c);
    }
    hide Attach, PtrsOk;
    forall c: nat | c < |img| ensures IsFree(img', c) <==> Reserved(|img|) <= c && !IsOwned(img', t, c) {
      if Reserved(|img|) <= c {
        AttachOwned(img, img', t, p, b, c);
      }
    }
  }

  lemma AttachPtrs(img: Image, img': Image, t: Tree, p: Ptr, b: nat)
    requires PtrsOk(img, t) && |img'| == |img| && Reserved(|img|) <= b < |img|
    requires forall q: Ptr :: IsPtr(t, q) ==> Val(img, q) != b
    requires forall g: Loc :: g in t.files ==> g.blk != b
    requires forall q: Ptr :: IsPtr(t, q) ==> Val(img', q) == if q == p then b else Val(img, q)
    ensures PtrsOk(img', t)
  {
    hide Val, IsPtr;
  }

  lemma FreshBlock(img: Image, t: Tree, b: nat)
    requires FsOk(img, t) && b < |img| && IsFree(img, b)
    ensures Reserved(|img|) <= b
    ensures forall q: Ptr :: IsPtr(t, q) ==> Val(img, q) != b
    ensures forall g: Loc :: g in t.files ==> g.blk != b
  {
    forall q: Ptr | IsPtr(t, q) ensures Val(img, q) != b {
      assert Val(img, q) == b ==> IsOwned(img, t, b);
    }
  }

  lemma AttachOwned(img: Image, img': Image, t: Tree, p: Ptr, b: nat, c: nat)
    requires CanAttach(img, t, p, b) && 0 < c < |img|
    requires forall q: Ptr :: IsPtr(t, q) ==> Val(img', q) == if q == p then b else Val(img, q)
    ensures IsOwned(img', t, c) <==> IsOwned(img, t, c) || c == b
  {
    hide FsOk;
    if IsOwned(img, t, c) {
      var q :| IsPtr(t, q) && Val(img, q) == c;
      assert Val(img', q) == c;
    } else if c == b {
      assert Val(img', p) == c;
    }
  }

  /** No reader can tell that a block has been attached: it replaces zeros by zeros. */
  lemma AttachUnseen(img: Image, t: Tree, p: Ptr, b: nat)
    requires CanAttach(img, t, p, b)
    ensures HomeWord(p) < 1024 && HomeBlock(Mark(img, b, false)[b := ZeroBlock()], p) < |img|
    ensures SameFiles(img, Attach(img, p, b), t)
  {
    AttachFits(img, t, p, b);
    hide Attach;
    forall g: Loc | g in t.files ensures SizeOf(Attach(img, p, b), g) == SizeOf(img, g) {
      AttachSize(img, t, p, b, g);
    }
    forall g: Loc, pos: nat | Regular(t, g) ensures ByteAt(Attach(img, p, b), g, pos) == ByteAt(img, g, pos) {
      AttachByte(img, t, p, b, g, pos);
    }
  }

  lemma AttachSize(img: Image, t: Tree, p: Ptr, b: nat, g: Loc)
    requires CanAttach(img, t, p, b) && g in t.files
    requires HomeWord(p) < 1024 && HomeBlock(Mark(img, b, false)[b := ZeroBlock()], p) < |img|
    ensures SizeOf(Attach(img, p, b), g) == SizeOf(img, g)
  {
    AttachFits(img, t, p, b);
    HostInUse(img, t, g);
    BitmapFits(|img|, b);
    TakeKeepsPtrs(img, t, b);
    TakeVal(img, t, b, Indirect(p.f));
    hide FsOk;
    SetPtrSize(Mark(img, b, false)[b := ZeroBlock()], t, p, b, g);
  }

  lemma SetPtrSize(img: Image, t: Tree, p: Ptr, v: Word32, g: Loc)
    requires PtrsOk(img, t) && HasHome(img, t, p) && g in t.files
    requires HomeBlock(img, p) < |img| && HomeWord(p) < 1024
    ensures SizeOf(SetPtr(img, p, v), g) == SizeOf(img, g)
  {
    if p.Entry? {
      IndirectApart(img, t, p.f, g);
    }
    assert g != p.f ==> Apart(g, p.f);
  }

  lemma AttachByte(img: Image, t: Tree, p: Ptr, b: nat, g: Loc, pos: nat)
    requires CanAttach(img, t, p, b) && Regular(t, g)
    requires HomeWord(p) < 1024 && HomeBlock(Mark(img, b, false)[b := ZeroBlock()], p) < |img|
    ensures ByteAt(Attach(img, p, b), g, pos) == ByteAt(img, g, pos)
  {
    AttachFits(img, t, p, b);
    var bno := pos / 4096;
    if bno < 1034 {
      DataPtrs(t, g, bno);
      AttachVal(img, t, p, b, DataPtr(g, bno));
      if DataPtr(g, bno) == p {
        UnpackZero(pos % 4096);
      } else if BlockNo(img, g, bno) != 0 {
        DataBlock(img, t, g, bno, p);
        OwnedInUse(img, t, DataPtr(g, bno));
      }
    }
  }

  // ---------------------------------------------------------------- data

  /** Writing a block of a regular file moves no pointer and no bit. */
  lemma PutKeeps(img: Image, t: Tree, f: Loc, bno: nat, blk: Block)
    requires FsOk(img, t) && Regular(t, f) && bno < 1034 && BlockNo(img, f, bno) != 0
    ensures BlockNo(img, f, bno) < |img| && FsOk(img[BlockNo(img, f, bno) := blk], t)
    ensures forall q: Ptr :: IsPtr(t, q) ==> Val(img[BlockNo(img, f, bno) := blk], q) == Val(img, q)
  {
    DataPtrs(t, f, bno);
    DataBlock(img, t, f, bno, DataPtr(f, bno));
    var b := BlockNo(img, f, bno);
    var img' := img[b := blk];
    forall q: Ptr | IsPtr(t, q) ensures Val(img', q) == Val(img, q) {
      DataBlock(img, t, f, bno, q);
      BlockVal(img, b, blk, q);
    }
    SamePtrs(img, img', t);
    forall c: nat | c < |img| ensures IsFree(img', c) == IsFree(img, c) {
      BitsUnmoved(img, b, blk, c);
    }
    SameBits(img, img', t);
  }

  lemma SameBits(img: Image, img': Image, t: Tree)
    requires FsOk(img, t) && |img'| == |img|
    requires forall q: Ptr :: IsPtr(t, q) ==> Val(img', q) == Val(img, q)
    requires forall c: nat :: c < |img| ==> IsFree(img', c) == IsFree(img, c)
    ensures BitsExact(img', t)
  {
    forall c: nat | c < |img| ensures IsOwned(img', t, c) <==> IsOwned(img, t, c) {
      SameOwned(img, img', t, c);
    }
  }

  lemma SameOwned(img: Image, img': Image, t: Tree, c: nat)
    requires forall q: Ptr :: IsPtr(t, q) ==> Val(img', q) == Val(img, q)
    ensures IsOwned(img', t, c) <==> IsOwned(img, t, c)
  {
    if IsOwned(img, t, c) {
      var q :| IsPtr(t, q) && Val(img, q) == c;
      assert Val(img', q) == c;
    }
    if IsOwned(img', t, c) {
      var q :| IsPtr(t, q) && Val(img', q) == c;
      assert Val(img, q) == c;
    }
  }

  /** Writing a block of f changes just the bytes of that block, and those to what was written. */
  lemma PutBytes(img: Image, t: Tree, f: Loc, bno: nat, blk: Block, g: Loc, pos: nat)
    requires FsOk(img, t) && Regular(t, f) && bno < 1034 && BlockNo(img, f, bno) != 0 && Regular(t, g)
    ensures BlockNo(img, f, bno) < |img|
    ensures ByteAt(img[BlockNo(img, f, bno) := blk], g, pos) ==
            if g == f && pos / 4096 == bno then Unpack(blk)[pos % 4096] else ByteAt(img, g, pos)
  {
    PutKeeps(img, t, f, bno, blk);
    var c := pos / 4096;
    DataPtrs(t, f, bno);
    if c < 1034 {
      DataPtrs(t, g, c);
      if DataPtr(g, c) != DataPtr(f, bno) && BlockNo(img, g, c) != 0 {
        DataBlock(img, t, f, bno, DataPtr(g, c));
        OwnedInUse(img, t, DataPtr(g, c));
      }
    }
  }

  lemma PutSizes(img: Image, t: Tree, f: Loc, bno: nat, blk: Block, g: Loc)
    requires FsOk(img, t) && Regular(t, f) && bno < 1034 && BlockNo(img, f, bno) != 0 && g in t.files
    ensures BlockNo(img, f, bno) < |img|
    ensures SizeOf(img[BlockNo(img, f, bno) := blk], g) == SizeOf(img, g)
  {
    assert IsPtr(t, Indirect(g));
    DataBlock(img, t, f, bno, Indirect(g));
  }

  // ---------------------------------------------------------------- size

  function PutSize(img: Image, f: Loc, size: Word32): Image
    requires f.blk < |img| && f.base + 64 <= 1024
  {
    img[f.blk := img[f.blk][f.base + 32 := size]]
  }

  lemma PutSizeKeeps(img: Image, t: Tree, f: Loc, size: Word32)
    requires FsOk(img, t) && f in t.files
    ensures f.blk < |img| && f.base + 64 <= 1024 && FsOk(PutSize(img, f, size), t)
    ensures forall q: Ptr :: IsPtr(t, q) ==> Val(PutSize(img, f, size), q) == Val(img, q)
  {
    var img' := PutSize(img, f, size);
    forall q: Ptr | IsPtr(t, q) ensures Val(img', q) == Val(img, q) {
      SizeWordApart(img, t, f, size, q);
    }
    SamePtrs(img, img', t);
    forall c: nat | c < |img| ensures IsFree(img', c) == IsFree(img, c) {
      BitsUnmoved(img, f.blk, img[f.blk][f.base + 32 := size], c);
    }
    SameBits(img, img', t);
  }

  lemma SizeWordApart(img: Image, t: Tree, f: Loc, size: Word32, q: Ptr)
    requires PtrsOk(img, t) && f in t.files && IsPtr(t, q)
    ensures Val(PutSize(img, f, size), q) == Val(img, q)
  {
    if Val(img, Indirect(q.f)) != 0 {
      IndirectApart(img, t, q.f, f);
    }
    assert f != q.f ==> Apart(f, q.f);
  }

  lemma PutSizeSeen(img: Image, t: Tree, f: Loc, size: Word32, g: Loc, pos: nat)
    requires FsOk(img, t) && f in t.files && g in t.files
    ensures f.blk < |img| && f.base + 64 <= 1024
    ensures SizeOf(PutSize(img, f, size), g) == if g == f then size else SizeOf(img, g)
    ensures Regular(t, g) ==> ByteAt(PutSize(img, f, size), g, pos) == ByteAt(img, g, pos)
  {
    PutSizeKeeps(img, t, f, size);
    assert f != g ==> Apart(f, g);
    if Regular(t, g) {
      PutSizeByte(img, t, f, size, g, pos);
    }
  }

  lemma PutSizeByte(img: Image, t: Tree, f: Loc, size: Word32, g: Loc, pos: nat)
    requires FsOk(img, t) && f in t.files && Regular(t, g)
    ensures f.blk < |img| && f.base + 64 <= 1024
    ensures ByteAt(PutSize(img, f, size), g, pos) == ByteAt(img, g, pos)
  {
    PutSizeKeeps(img, t, f, size);
    var c := pos / 4096;
    if c < 1034 {
      DataPtrs(t, g, c);
      if BlockNo(img, g, c) != 0 {
        DataBlock(img, t, g, c, Indirect(f));
      }
      hide FsOk, Val;
      SameBytes(img, PutSize(img, f, size), t, g, pos);
    }
  }

  // ---------------------------------------------------------------- detach

  /** A block given back to the bitmap and its pointer cleared. */
  function Detach(img: Image, p: Ptr): (r: Image)
    requires Roomy(img) && Val(img, p) < |img|
    requires HomeWord(p) < 1024 && HomeBlock(Mark(img, Val(img, p), true), p) < |img|
    ensures |r| == |img|
  {
    SetPtr(Mark(img, Val(img, p), true), p, 0)
  }

  /** An indirect block is detached only when its entries are empty, and no block with File structures is. */
  ghost predicate CanDetach(img: Image, t: Tree, p: Ptr) {
    && FsOk(img, t) && IsPtr(t, p) && p.f !in t.dirs && Val(img, p) != 0
    && (p.Indirect? ==> forall i: nat :: i < 1024 ==> Val(img, Entry(p.f, i)) == 0)
  }

  lemma DetachFits(img: Image, t: Tree, p: Ptr)
    requires CanDetach(img, t, p)
    ensures HasHome(img, t, p) && Roomy(img) && Reserved(|img|) <= Val(img, p) < |img|
    ensures HomeWord(p) < 1024 && HomeBlock(Mark(img, Val(img, p), true), p) < |img|
    ensures var h := HomeBlock(Mark(img, Val(img, p), true), p);
      && h == HomeBlock(img, p) && (h == 1 || Reserved(|img|) <= h)
      && (forall c :: 0 <= c < |img| && c != h && Reserved(|img|) <= c ==> Detach(img, p)[c] == img[c])
  {
    OwnedInUse(img, t, p);
    HomeFits(img, t, p);
    MarkVal(img, t, Val(img, p), true, Indirect(p.f));
    BitmapFits(|img|, Val(img, p));
  }

  lemma DetachVal(img: Image, t: Tree, p: Ptr, q: Ptr)
    requires CanDetach(img, t, p) && IsPtr(t, q)
    requires Roomy(img) && Val(img, p) < |img| && HomeWord(p) < 1024
    requires HomeBlock(Mark(img, Val(img, p), true), p) < |img|
    ensures Val(Detach(img, p), q) == if q == p then 0 else Val(img, q)
  {
    DetachFits(img, t, p);
    var u := Mark(img, Val(img, p), true);
    MarkKeepsPtrs(img, t, Val(img, p), true);
    MarkVal(img, t, Val(img, p), true, q);
    MarkVal(img, t, Val(img, p), true, Indirect(p.f));
    SetPtrVal(u, t, p, 0, q);
    if p.Indirect? && q.Entry? && p.f == q.f {
      SetPtrVal(u, t, p, 0, p);
      assert Val(img, Entry(p.f, q.i)) == 0;
    }
  }

  lemma DetachFree(img: Image, t: Tree, p: Ptr, c: nat)
    requires CanDetach(img, t, p) && c < |img|
    requires Roomy(img) && Val(img, p) < |img| && HomeWord(p) < 1024
    requires HomeBlock(Mark(img, Val(img, p), true), p) < |img|
    ensures IsFree(Detach(img, p), c) == (IsFree(img, c) || c == Val(img, p))
  {
    DetachFits(img, t, p);
    var u := Mark(img, Val(img, p), true);
    var h := HomeBlock(u, p);
    BitsUnmoved(u, h, u[h][HomeWord(p) := 0], c);
  }

  /** Detaching keeps the bitmap exact: the block is free afterwards and nothing else is. */
  lemma DetachKeeps(img: Image, t: Tree, p: Ptr)
    requires CanDetach(img, t, p)
    ensures Roomy(img) && Val(img, p) < |img|
    ensures HomeWord(p) < 1024 && HomeBlock(Mark(img, Val(img, p), true), p) < |img|
    ensures FsOk(Detach(img, p), t)
  {
    DetachFits(img, t, p);
    var img' := Detach(img, p);
    forall q: Ptr | IsPtr(t, q) ensures Val(img', q) == if q == p then 0 else Val(img, q) {
      DetachVal(img, t, p, q);
    }
    DetachPtrs(img, img', t, p);
    forall c: nat | c < |img| ensures IsFree(img', c) == (IsFree(img, c) || c == Val(img, p)) {
      DetachFree(img, t, p, c);
    }
    hide Detach, PtrsOk;
    forall c: nat | c < |img| ensures IsFree(img', c) <==> Reserved(|img|) <= c && !IsOwned(img', t, c) {
      if Reserved(|img|) <= c {
        DetachOwned(img, img', t, p, c);
      }
    }
    forall g | g in t.files ensures !IsFree(img', g.blk) {
      HostInUse(img, t, g);
      NotHost(img, t, p, g);
    }
  }

  lemma NotHost(img: Image, t: Tree, p: Ptr, g: Loc)
    requires PtrsOk(img, t) && IsPtr(t, p) && p.f !in t.dirs && g in t.files
    ensures Val(img, p) != g.blk
  {
  }

  lemma DetachPtrs(img: Image, img': Image, t: Tree, p: Ptr)
    requires PtrsOk(img, t) && |img'| == |img| && IsPtr(t, p)
    requires forall q: Ptr :: IsPtr(t, q) ==> Val(img', q) == if q == p then 0 else Val(img, q)
    ensures PtrsOk(img', t)
  {
  }

  lemma DetachOwned(img: Image, img': Image, t: Tree, p: Ptr, c: nat)
    requires CanDetach(img, t, p) && 0 < c < |img|
    requires forall q: Ptr :: IsPtr(t, q) ==> Val(img', q) == if q == p then 0 else Val(img, q)
    ensures IsOwned(img', t, c) <==> IsOwned(img, t, c) && c != Val(img, p)
  {
    assert Distinct(img, t);
    hide FsOk;
    if IsOwned(img', t, c) {
      var q :| IsPtr(t, q) && Val(img', q) == c;
      assert Val(img, q) == c && q != p;
    }
  }

  /** After a detach the block's bytes read as zero; every other byte of every regular file, and every size, is
      as before. */
  lemma DetachByte(img: Image, t: Tree, p: Ptr, g: Loc, pos: nat)
    requires CanDetach(img, t, p) && Regular(t, g)
    requires Roomy(img) && Val(img, p) < |img| && HomeWord(p) < 1024
    requires HomeBlock(Mark(img, Val(img, p), true), p) < |img|
    ensures ByteAt(Detach(img, p), g, pos) ==
            if pos / 4096 < 1034 && DataPtr(g, pos / 4096) == p then 0 else ByteAt(img, g, pos)
  {
    DetachFits(img, t, p);
    var bno := pos / 4096;
    if bno < 1034 {
      DataPtrs(t, g, bno);
      DetachVal(img, t, p, DataPtr(g, bno));
      if DataPtr(g, bno) != p && BlockNo(img, g, bno) != 0 {
        DataBlock(img, t, g, bno, p);
      }
    }
  }

  lemma DetachSize(img: Image, t: Tree, p: Ptr, g: Loc)
    requires CanDetach(img, t, p) && g in t.files
    requires Roomy(img) && Val(img, p) < |img| && HomeWord(p) < 1024
    requires HomeBlock(Mark(img, Val(img, p), true), p) < |img|
    ensures SizeOf(Detach(img, p), g) == SizeOf(img, g)
  {
    DetachFits(img, t, p);
    BitmapFits(|img|, Val(img, p));
    MarkKeepsPtrs(img, t, Val(img, p), true);
    MarkVal(img, t, Val(img, p), true, Indirect(p.f));
    SetPtrSize(Mark(img, Val(img, p), true), t, p, 0, g);
  }
}
