/** Who owns which block: File structures, their block pointers and the bitmap. */
module FsOwn {
  import opened FsImage

  /** Where a File structure lies: a block and the first of its 64 words. */
  datatype Loc = Loc(blk: nat, base: nat)

  /** A place that holds a block number. */
  datatype Ptr = Direct(f: Loc, i: nat) | Indirect(f: Loc) | Entry(f: Loc, i: nat)

  /** The File structures on the disk, and which of them are directories. Only directories have File structures
      in their blocks. */
  datatype Tree = Tree(files: set<Loc>, dirs: set<Loc>)

  predicate IsPtr(t: Tree, p: Ptr) {
    p.f in t.files && (p.Direct? ==> p.i < 10) && (p.Entry? ==> p.i < 1024)
  }

  function FileWord(img: Image, f: Loc, k: nat): nat {
    if f.blk < |img| && f.base + k < 1024 then img[f.blk][f.base + k] else 0
  }

  function SizeOf(img: Image, f: Loc): nat {
    FileWord(img, f, 32)
  }

  /** The block number in a pointer; 0 is none. */
  function Val(img: Image, p: Ptr): nat {
    match p
    case Direct(f, i) => FileWord(img, f, 34 + i)
    case Indirect(f) => FileWord(img, f, 44)
    case Entry(f, i) =>
      var b := FileWord(img, f, 44);
      if b != 0 && b < |img| && i < 1024 then img[b][i] else 0
  }

  function HomeBlock(img: Image, p: Ptr): nat {
    if p.Entry? then Val(img, Indirect(p.f)) else p.f.blk
  }

  function HomeWord(p: Ptr): nat {
    match p
    case Direct(f, i) => f.base + 34 + i
    case Indirect(f) => f.base + 44
    case Entry(f, i) => i
  }

  /** The pointer to block bno of a file. */
  function DataPtr(f: Loc, bno: nat): Ptr {
    if bno < 10 then Direct(f, bno) else Entry(f, bno - 10)
  }

  function BlockNo(img: Image, f: Loc, bno: nat): nat {
    if bno < 1034 then Val(img, DataPtr(f, bno)) else 0
  }

  /** The byte a reader of f sees at pos: what is not allocated reads as zero. */
  function ByteAt(img: Image, f: Loc, pos: nat): Byte {
    var b := BlockNo(img, f, pos / 4096);
    if b == 0 || b >= |img| then 0 else Unpack(img[b])[pos % 4096]
  }

  // ---------------------------------------------------------------- the invariant

  predicate Apart(f: Loc, g: Loc) {
    f.blk != g.blk || f.base + 64 <= g.base || g.base + 64 <= f.base
  }

  /** File structures are in the super-block or past the bitmap, and do not overlap. */
  ghost predicate Placed(img: Image, t: Tree) {
    && Roomy(img) && |img| < 0x1_0000_0000 && t.dirs <= t.files
    && (forall f :: f in t.files ==> 1 <= f.blk < |img| && f.base + 64 <= 1024)
    && (forall f :: f in t.files ==> f.blk == 1 || Reserved(|img|) <= f.blk)
    && (forall f, g :: f in t.files && g in t.files && f != g ==> Apart(f, g))
  }

  ghost predicate InRange(img: Image, t: Tree) {
    forall p: Ptr :: IsPtr(t, p) && Val(img, p) != 0 ==> Reserved(|img|) <= Val(img, p) < |img|
  }

  ghost predicate Distinct(img: Image, t: Tree) {
    forall p: Ptr, q: Ptr :: IsPtr(t, p) && IsPtr(t, q) && p != q && Val(img, p) != 0 ==> Val(img, p) != Val(img, q)
  }

  /** A block with File structures in it belongs to a directory. */
  ghost predicate Hosted(img: Image, t: Tree) {
    forall g: Loc, p: Ptr :: g in t.files && IsPtr(t, p) && Val(img, p) == g.blk ==> p.f in t.dirs && !p.Indirect?
  }

  /** The pointers alone. */
  ghost predicate PtrsOk(img: Image, t: Tree) {
    Placed(img, t) && InRange(img, t) && Distinct(img, t) && Hosted(img, t)
  }

  ghost predicate IsOwned(img: Image, t: Tree, b: nat) {
    exists p: Ptr :: IsPtr(t, p) && Val(img, p) == b
  }

  /** The bitmap is exact: free are the blocks past the bitmap that no pointer names. */
  ghost predicate BitsExact(img: Image, t: Tree)
    requires Roomy(img)
  {
    && (forall b: nat :: b < |img| ==> (IsFree(img, b) <==> Reserved(|img|) <= b && !IsOwned(img, t, b)))
    && (forall f :: f in t.files && f.blk < |img| ==> !IsFree(img, f.blk))
  }

  ghost predicate FsOk(img: Image, t: Tree) {
    PtrsOk(img, t) && BitsExact(img, t)
  }

  /** No file has blocks past its size. */
  ghost predicate Sized(img: Image, t: Tree) {
    forall f: Loc :: f in t.files ==> SizedFile(img, f)
  }

  ghost predicate SizedFile(img: Image, f: Loc) {
    && SizeOf(img, f) <= 0x7FFF_F000
    && (forall bno: nat :: BlockNo(img, f, bno) != 0 ==> bno * 4096 < SizeOf(img, f))
  }

  // ---------------------------------------------------------------- facts about a good image

  lemma OwnedInUse(img: Image, t: Tree, p: Ptr)
    requires FsOk(img, t) && IsPtr(t, p) && Val(img, p) != 0
    ensures Reserved(|img|) <= Val(img, p) < |img| && !IsFree(img, Val(img, p))
  {
    assert IsOwned(img, t, Val(img, p));
  }

  lemma IndirectApart(img: Image, t: Tree, f: Loc, g: Loc)
    requires PtrsOk(img, t) && f in t.files && g in t.files && Val(img, Indirect(f)) != 0
    ensures Val(img, Indirect(f)) != g.blk && Reserved(|img|) <= Val(img, Indirect(f)) < |img|
    ensures f != g ==> Val(img, Indirect(f)) != Val(img, Indirect(g))
  {
    assert IsPtr(t, Indirect(f)) && IsPtr(t, Indirect(g));
  }

  // ---------------------------------------------------------------- changing a pointer

  function SetPtr(img: Image, p: Ptr, v: Word32): Image
    requires HomeBlock(img, p) < |img| && HomeWord(p) < 1024
  {
    var b := HomeBlock(img, p);
    img[b := img[b][HomeWord(p) := v]]
  }

  ghost predicate HasHome(img: Image, t: Tree, p: Ptr) {
    IsPtr(t, p) && (p.Entry? ==> Val(img, Indirect(p.f)) != 0)
  }

  lemma HomeFits(img: Image, t: Tree, p: Ptr)
    requires PtrsOk(img, t) && HasHome(img, t, p)
    ensures 1 <= HomeBlock(img, p) < |img| && HomeWord(p) < 1024
    ensures HomeBlock(img, p) == 1 || Reserved(|img|) <= HomeBlock(img, p)
  {
    if p.Entry? {
      IndirectApart(img, t, p.f, p.f);
    }
  }

  /** Setting a pointer changes no other, except that replacing an indirect block replaces its entries. */
  lemma SetPtrVal(img: Image, t: Tree, p: Ptr, v: Word32, q: Ptr)
    requires PtrsOk(img, t) && HasHome(img, t, p) && IsPtr(t, q)
    requires HomeBlock(img, p) < |img| && HomeWord(p) < 1024
    ensures q == p ==> Val(SetPtr(img, p, v), q) == v
    ensures q != p && !(p.Indirect? && q.Entry? && p.f == q.f) ==> Val(SetPtr(img, p, v), q) == Val(img, q)
  {
    if p.Entry? {
      IndirectApart(img, t, p.f, q.f);
    }
    if q.Entry? && Val(img, Indirect(q.f)) != 0 {
      IndirectApart(img, t, q.f, p.f);
    }
  }

  /** Changing a block that holds no pointers changes none. */
  lemma BlockVal(img: Image, b: nat, blk: Block, q: Ptr)
    requires b < |img| && b != q.f.blk && (Val(img, Indirect(q.f)) != 0 ==> b != Val(img, Indirect(q.f)))
    ensures Val(img[b := blk], q) == Val(img, q)
  {
  }

  lemma MarkVal(img: Image, t: Tree, b: nat, free: bool, q: Ptr)
    requires PtrsOk(img, t) && IsPtr(t, q) && b < |img|
    ensures Val(Mark(img, b, free), q) == Val(img, q)
  {
    BitmapFits(|img|, b);
    if Val(img, Indirect(q.f)) != 0 {
      IndirectApart(img, t, q.f, q.f);
    }
    assert Mark(img, b, free)[q.f.blk] == img[q.f.blk];
  }

  /** The pointers are as good in an image with the same pointers and size. */
  lemma SamePtrs(img: Image, img': Image, t: Tree)
    requires PtrsOk(img, t) && |img'| == |img|
    requires forall q: Ptr :: IsPtr(t, q) ==> Val(img', q) == Val(img, q)
    ensures PtrsOk(img', t)
  {
  }

  lemma MarkKeepsPtrs(img: Image, t: Tree, b: nat, free: bool)
    requires PtrsOk(img, t) && b < |img|
    ensures PtrsOk(Mark(img, b, free), t)
  {
    hide PtrsOk;
    assert Roomy(img) by {
      PtrsRoomy(img, t);
    }
    forall q: Ptr | IsPtr(t, q) ensures Val(Mark(img, b, free), q) == Val(img, q) {
      MarkVal(img, t, b, free, q);
    }
    SamePtrs(img, Mark(img, b, free), t);
  }

  lemma PtrsRoomy(img: Image, t: Tree)
    requires PtrsOk(img, t)
    ensures Roomy(img) && |img| < 0x1_0000_0000
  {
  }

  // ---------------------------------------------------------------- attaching a new block

  /** A free block taken out of the bitmap, cleared, and put in an empty pointer. */
  function Attach(img: Image, p: Ptr, b: nat): Image
    requires Roomy(img) && b < |img| < 0x1_0000_0000
    requires HomeWord(p) < 1024 && HomeBlock(Mark(img, b, false)[b := ZeroBlock()], p) < |img|
  {
    SetPtr(Mark(img, b, false)[b := ZeroBlock()], p, b)
  }

  ghost predicate CanAttach(img: Image, t: Tree, p: Ptr, b: nat) {
    FsOk(img, t) && HasHome(img, t, p) && Val(img, p) == 0 && b < |img| && IsFree(img, b)
  }

  /** Taking and clearing a free block changes no pointer. */
  lemma TakeVal(img: Image, t: Tree, b: nat, q: Ptr)
    requires FsOk(img, t) && IsPtr(t, q) && b < |img| && IsFree(img, b)
    ensures Val(Mark(img, b, false)[b := ZeroBlock()], q) == Val(img, q)
  {
    MarkVal(img, t, b, false, q);
    MarkVal(img, t, b, false, Indirect(q.f));
    if Val(img, Indirect(q.f)) != 0 {
      OwnedInUse(img, t, Indirect(q.f));
    }
    hide FsOk;
    assert !IsFree(img, q.f.blk) by {
      HostInUse(img, t, q.f);
    }
    BlockVal(Mark(img, b, false), b, ZeroBlock(), q);
  }

  lemma HostInUse(img: Image, t: Tree, f: Loc)
    requires FsOk(img, t) && f in t.files
    ensures f.blk < |img| && !IsFree(img, f.blk)
  {
  }

  lemma TakeKeepsPtrs(img: Image, t: Tree, b: nat)
    requires FsOk(img, t) && b < |img| && IsFree(img, b)
    ensures PtrsOk(Mark(img, b, false)[b := ZeroBlock()], t)
  {
    forall q: Ptr | IsPtr(t, q) ensures Val(Mark(img, b, false)[b := ZeroBlock()], q) == Val(img, q) {
      TakeVal(img, t, b, q);
    }
    SamePtrs(img, Mark(img, b, false)[b := ZeroBlock()], t);
  }

  lemma AttachVal(img: Image, t: Tree, p: Ptr, b: nat, q: Ptr)
    requires CanAttach(img, t, p, b) && IsPtr(t, q)
    ensures HomeWord(p) < 1024 && HomeBlock(Mark(img, b, false)[b := ZeroBlock()], p) < |img|
    ensures Val(Attach(img, p, b), q) == if q == p then b else Val(img, q)
  {
    var u := Mark(img, b, false)[b := ZeroBlock()];
    TakeKeepsPtrs(img, t, b);
    TakeVal(img, t, b, q);
    TakeVal(img, t, b, Indirect(p.f));
    HomeFits(u, t, p);
    SetPtrVal(u, t, p, b, q);
    if p.Indirect? && q.Entry? && p.f == q.f {
      SetPtrVal(u, t, p, b, p);
      AttachedEntries(u, t, p, b, q);
    }
  }

  /** A new indirect block has no entries, like none at all. */
  lemma AttachedEntries(u: Image, t: Tree, p: Ptr, b: nat, q: Ptr)
    requires PtrsOk(u, t) && IsPtr(t, p) && p.Indirect? && q.Entry? && p.f == q.f && q.i < 1024
    requires b < |u| && u[b] == ZeroBlock() && p.f.blk != b && Val(u, p) == 0
    ensures Val(SetPtr(u, p, b), q) == 0 == Val(u, q)
  {
  }
}
