/** fs/fsformat.c: the image it builds from a list of host files satisfies the invariants of the file server, and each
    file in it reads as the host file. */
module FsFormat {
  import opened FsImage
  import opened FsOwn
  import opened FsOps
  import opened FileServer
  import opened FileWrite

  /** A host file: its name as the 32 words of f_name, and its bytes. */
  datatype Host = Host(name: seq<Word32>, bytes: seq<Byte>)

  type Hosts = s: seq<Host> | forall h :: h in s ==> |h.name| == 32 witness []

  const FS_MAGIC: Word32 := 0x4A0530AE
  const MAX_DIR_ENTS: nat := 128

  /** The blocks alloc hands out for a file: its data, and an indirect block once the direct pointers are all used. */
  function Span(h: Host): nat {
    NBlocks(|h.bytes|) + if NBlocks(|h.bytes|) >= 10 then 1 else 0
  }

  /** Where the data of file k starts: files follow the super-block and the bitmap, one after the other. */
  function StartOf(hosts: Hosts, k: nat): nat
    requires k <= |hosts|
  {
    if k == 0 then 3 else StartOf(hosts, k - 1) + Span(hosts[k - 1])
  }

  function DirBlocks(hosts: Hosts): nat {
    NBlocks(256 * |hosts|)
  }

  /** C's remainder, which takes the sign of the dividend. */
  function Remainder(a: int, b: nat): int
    requires b > 0
  {
    if a >= 0 then a % b else -(-a % b)
  }

  /** The ROUNDUP macro of fsformat.c on an int, as finishdir uses it. */
  function RoundUpSigned(n: int): int {
    n - 1 + 4096 - Remainder(n - 1, 4096)
  }

  /** The same macro on a uint32_t, as alloc and finishfile use it. */
  function RoundUpUnsigned(n: Word32): Word32 {
    var m := (n + 0xFFFF_FFFF) % 0x1_0000_0000;
    (m + 4096 - m % 4096) % 0x1_0000_0000
  }

  /** The two agree except at 0, which the signed one rounds up to a whole block. */
  lemma RoundUps(n: Word32)
    requires n < 0x8000_0000
    ensures RoundUpUnsigned(n) == 4096 * NBlocks(n)
    ensures RoundUpSigned(n) == if n == 0 then 4096 else 4096 * NBlocks(n)
  {
    if n > 0 {
      assert (n + 0xFFFF_FFFF) % 0x1_0000_0000 == n - 1;
      BlocksUp(n);
    }
  }

  /** The last byte's block, and one more. */
  lemma BlocksUp(n: nat)
    requires n > 0
    ensures n - 1 + 4096 - (n - 1) % 4096 == 4096 * NBlocks(n)
  {
    var q := (n - 1) / 4096;
    assert n - 1 == 4096 * q + (n - 1) % 4096;
    assert (n + 4095) / 4096 == q + 1;
  }

  /** The size that finishdir gives the root directory. */
  function RootSize(hosts: Hosts): (size: nat)
    ensures |hosts| == 0 ==> size == 4096
    ensures |hosts| > 0 ==> size == 4096 * DirBlocks(hosts)
  {
    RoundUpSigned(256 * |hosts|)
  }

  /** The first block after everything. */
  function Used(hosts: Hosts): nat {
    StartOf(hosts, |hosts|) + DirBlocks(hosts)
  }

  // ---------------------------------------------------------------- what the blocks hold

  /** finishfile: a File structure for nb blocks from start on. */
  function FileWords(name: seq<Word32>, typ: Word32, size: nat, start: nat, nb: nat): (r: seq<Word32>)
    requires |name| == 32 && size < 0x8000_0000 && start + nb < 0x1_0000_0000
    ensures |r| == 64
  {
    seq(64, i requires 0 <= i < 64 => FileWordAt(name, typ, size, start, nb, i))
  }

  function FileWordAt(name: seq<Word32>, typ: Word32, size: nat, start: nat, nb: nat, i: nat): Word32
    requires |name| == 32 && size < 0x8000_0000 && start + nb < 0x1_0000_0000 && i < 64
  {
    if i < 32 then name[i]
    else if i == 32 then size
    else if i == 33 then typ
    else if i < 44 then (if i - 34 < nb then start + i - 34 else 0)
    else if i == 44 then (if nb >= 10 then start + nb else 0)
    else 0
  }

  function IndirectWords(start: nat, nb: nat): Block
    requires start + nb < 0x1_0000_0000
  {
    seq(1024, i requires 0 <= i < 1024 => IndirectWordAt(start, nb, i))
  }

  function IndirectWordAt(start: nat, nb: nat, i: nat): Word32
    requires start + nb < 0x1_0000_0000
  {
    if i + 10 < nb then start + 10 + i else 0
  }

  function DataByte(bytes: seq<Byte>, j: nat, k: nat): Byte {
    if 4096 * j + k < |bytes| then bytes[4096 * j + k] else 0
  }

  /** Block j of a host file; the rest of the last block is zero. */
  function DataBytes(bytes: seq<Byte>, j: nat): Bytes {
    seq(4096, k requires 0 <= k < 4096 => DataByte(bytes, j, k))
  }

  /** Data blocks and indirect block of one file are in place. */
  ghost predicate Laid(img: Image, h: Host, start: nat) {
    && start + Span(h) <= |img| < 0x1_0000_0000
    && (forall j: nat :: j < NBlocks(|h.bytes|) ==> img[start + j] == Pack(DataBytes(h.bytes, j)))
    && (NBlocks(|h.bytes|) >= 10 ==> img[start + NBlocks(|h.bytes|)] == IndirectWords(start, NBlocks(|h.bytes|)))
  }

  // ---------------------------------------------------------------- owners

  /** The files in the order of their blocks, with the root directory last. */
  function OwnerBlocks(hosts: Hosts, o: nat): nat
    requires o <= |hosts|
  {
    if o < |hosts| then NBlocks(|hosts[o].bytes|) else NBlocks(RootSize(hosts))
  }

  function OwnerSize(hosts: Hosts, o: nat): nat
    requires o <= |hosts|
  {
    if o < |hosts| then |hosts[o].bytes| else RootSize(hosts)
  }

  function RootName(): seq<Word32> {
    seq(32, i => if i == 0 then 0x2F else 0)
  }

  function OwnerName(hosts: Hosts, o: nat): (r: seq<Word32>)
    requires o <= |hosts|
    ensures |r| == 32
  {
    if o < |hosts| then assert hosts[o] in hosts; hosts[o].name else RootName()
  }

  function OwnerLoc(hosts: Hosts, o: nat): Loc
    requires o <= |hosts|
  {
    if o < |hosts| then Loc(StartOf(hosts, |hosts|) + o / 16, 64 * (o % 16)) else Loc(1, 2)
  }

  function OwnerEnd(hosts: Hosts, o: nat): nat
    requires o <= |hosts|
  {
    if o < |hosts| then StartOf(hosts, o + 1) else Used(hosts)
  }

  ghost function TreeOf(hosts: Hosts): Tree {
    Tree(set o: nat | o <= |hosts| :: OwnerLoc(hosts, o), {OwnerLoc(hosts, |hosts|)})
  }

  /** What fsformat accepts without panicking. */
  predicate Accepts(n: nat, hosts: Hosts) {
    && Used(hosts) < n <= 1024 && |hosts| <= MAX_DIR_ENTS
    && (forall h :: h in hosts ==> |h.bytes| < 1034 * 4096)
  }

  lemma AcceptedFile(n: nat, hosts: Hosts, o: nat)
    requires Accepts(n, hosts) && o <= |hosts|
    ensures OwnerSize(hosts, o) < 1034 * 4096 && OwnerBlocks(hosts, o) <= 1034
    ensures OwnerBlocks(hosts, o) == NBlocks(OwnerSize(hosts, o))
    ensures StartOf(hosts, o) + OwnerBlocks(hosts, o) <= n
    ensures (OwnerBlocks(hosts, o) >= 10 ==> StartOf(hosts, o) + OwnerBlocks(hosts, o) < n)
    ensures |hosts| > 0 ==>
      OwnerEnd(hosts, o) == StartOf(hosts, o) + OwnerBlocks(hosts, o) + if OwnerBlocks(hosts, o) >= 10 then 1 else 0
  {
    if o < |hosts| {
      assert hosts[o] in hosts;
      StartGrows(hosts, o + 1, |hosts|);
    }
  }

  lemma {:induction false} StartGrows(hosts: Hosts, a: nat, b: nat)
    requires a <= b <= |hosts|
    ensures 3 <= StartOf(hosts, a) <= StartOf(hosts, b)
    decreases b
  {
    if a < b {
      StartGrows(hosts, a, b - 1);
    } else if a > 0 {
      StartGrows(hosts, a - 1, a - 1);
    }
  }

  /** Blocks of different files do not overlap. */
  lemma OwnersApart(hosts: Hosts, a: nat, b: nat)
    requires a < b <= |hosts|
    ensures 3 <= StartOf(hosts, a) && OwnerEnd(hosts, a) <= StartOf(hosts, b)
  {
    StartGrows(hosts, a, a);
    StartGrows(hosts, a + 1, b);
  }

  /** Every block in use after the bitmap belongs to some file. */
  lemma {:induction false} FindOwner(hosts: Hosts, b: nat, m: nat) returns (o: nat)
    requires m <= |hosts| && 3 <= b < StartOf(hosts, m)
    ensures o < m && StartOf(hosts, o) <= b < StartOf(hosts, o + 1)
  {
    if b < StartOf(hosts, m - 1) {
      o := FindOwner(hosts, b, m - 1);
    } else {
      o := m - 1;
    }
  }

  lemma AnyOwner(hosts: Hosts, b: nat) returns (o: nat)
    requires 3 <= b < Used(hosts)
    ensures o <= |hosts| && StartOf(hosts, o) <= b < OwnerEnd(hosts, o)
  {
    if b < StartOf(hosts, |hosts|) {
      o := FindOwner(hosts, b, |hosts|);
    } else {
      o := |hosts|;
    }
  }

  // ---------------------------------------------------------------- pointers

  /** The value finishfile gives each pointer of a file with nb blocks from start on. */
  function Slot(p: Ptr, start: nat, nb: nat): nat {
    match p
    case Direct(_, i) => if i < nb then start + i else 0
    case Indirect(_) => if nb >= 10 then start + nb else 0
    case Entry(_, i) => if i + 10 < nb then start + 10 + i else 0
  }

  lemma SlotIn(p: Ptr, start: nat, nb: nat)
    requires Slot(p, start, nb) != 0
    ensures start <= Slot(p, start, nb) < start + nb + if nb >= 10 then 1 else 0
  {
  }

  lemma SlotDiffers(p: Ptr, q: Ptr, start: nat, nb: nat)
    requires p != q && p.f == q.f && Slot(p, start, nb) != 0
    requires (p.Direct? ==> p.i < 10) && (q.Direct? ==> q.i < 10)
    ensures Slot(p, start, nb) != Slot(q, start, nb)
  {
  }

  lemma SlotCovers(f: Loc, start: nat, nb: nat, b: nat) returns (p: Ptr)
    requires start <= b < start + nb + (if nb >= 10 then 1 else 0) && nb <= 1034
    ensures p.f == f && (p.Direct? ==> p.i < 10) && (p.Entry? ==> p.i < 1024) && Slot(p, start, nb) == b
  {
    var j := b - start;
    if j == nb {
      p := Indirect(f);
    } else if j < 10 {
      p := Direct(f, j);
    } else {
      p := Entry(f, j - 10);
    }
  }

  // ---------------------------------------------------------------- the layout satisfies the invariants

  /** File structure o is in place. */
  ghost predicate NodeLaid(img: Image, hosts: Hosts, o: nat)
    requires o <= |hosts|
  {
    var f := OwnerLoc(hosts, o);
    && f.blk < |img| && f.base + 64 <= 1024
    && OwnerSize(hosts, o) < 0x8000_0000 && StartOf(hosts, o) + OwnerBlocks(hosts, o) < 0x1_0000_0000
    && img[f.blk][f.base..f.base + 64] ==
       FileWords(OwnerName(hosts, o), OwnerType(hosts, o), OwnerSize(hosts, o), StartOf(hosts, o),
         OwnerBlocks(hosts, o))
  }

  /** FTYPE_REG or FTYPE_DIR. */
  function OwnerType(hosts: Hosts, o: nat): Word32 {
    if o < |hosts| then 0 else 1
  }

  ghost predicate AllNodes(img: Image, hosts: Hosts) {
    forall o: nat :: o <= |hosts| ==> NodeLaid(img, hosts, o)
  }

  ghost predicate AllFiles(img: Image, hosts: Hosts) {
    forall k: nat :: k < |hosts| ==> Laid(img, hosts[k], StartOf(hosts, k))
  }

  /** With fewer than 32768 blocks the bitmap is block 2. */
  predicate SameBitmap(img: Image, img': Image) {
    2 < |img| == |img'| && img'[2] == img[2]
  }

  ghost predicate Layout(img: Image, hosts: Hosts) {
    && Accepts(|img|, hosts) && Roomy(img)
    && AllNodes(img, hosts) && AllFiles(img, hosts)
    && (forall b: nat :: b < |img| ==> (IsFree(img, b) <==> Used(hosts) <= b))
  }

  lemma SmallDisk(n: nat)
    requires 3 <= n <= 1024
    ensures Reserved(n) == 3
  {
  }

  lemma NodeWord(img: Image, hosts: Hosts, o: nat, i: nat)
    requires o <= |hosts| && NodeLaid(img, hosts, o) && i < 64
    ensures FileWord(img, OwnerLoc(hosts, o), i) ==
            FileWordAt(OwnerName(hosts, o), OwnerType(hosts, o), OwnerSize(hosts, o), StartOf(hosts, o),
              OwnerBlocks(hosts, o), i)
  {
    hide OwnerLoc, FileWordAt, OwnerSize, OwnerBlocks, StartOf, OwnerName, OwnerType;
    var f := OwnerLoc(hosts, o);
    assert img[f.blk][f.base..f.base + 64][i] == img[f.blk][f.base + i];
  }

  /** A File structure and its indirect block give every pointer the value finishfile chose. */
  lemma NodeValue(img: Image, f: Loc, start: nat, nb: nat, p: Ptr)
    requires p.f == f && (p.Direct? ==> p.i < 10) && (p.Entry? ==> p.i < 1024)
    requires 0 < start && start + nb <= |img| < 0x1_0000_0000
    requires nb >= 10 ==> start + nb < |img| && img[start + nb] == IndirectWords(start, nb)
    requires p.Direct? ==> FileWord(img, f, 34 + p.i) == if p.i < nb then start + p.i else 0
    requires FileWord(img, f, 44) == if nb >= 10 then start + nb else 0
    ensures Val(img, p) == Slot(p, start, nb)
  {
    hide FileWord;
    if p.Entry? && nb >= 10 {
      assert IndirectWords(start, nb)[p.i] == IndirectWordAt(start, nb, p.i);
    }
  }

  lemma NodePtrs(img: Image, hosts: Hosts, o: nat, i: nat)
    requires o <= |hosts| && NodeLaid(img, hosts, o) && i < 10
    ensures var start, nb, f := StartOf(hosts, o), OwnerBlocks(hosts, o), OwnerLoc(hosts, o);
      && FileWord(img, f, 34 + i) == (if i < nb then start + i else 0)
      && FileWord(img, f, 44) == (if nb >= 10 then start + nb else 0)
      && SizeOf(img, f) == OwnerSize(hosts, o)
  {
    NodeWord(img, hosts, o, 32);
    NodeWord(img, hosts, o, 44);
    NodeWord(img, hosts, o, 34 + i);
    hide OwnerLoc, OwnerSize, OwnerBlocks, StartOf, OwnerName, OwnerType, FileWord, NodeLaid;
  }

  lemma IndirectLaid(img: Image, hosts: Hosts, o: nat)
    requires Layout(img, hosts) && o <= |hosts|
    ensures var start, nb := StartOf(hosts, o), OwnerBlocks(hosts, o);
      && 0 < start && start + nb <= |img| < 0x1_0000_0000
      && (nb >= 10 ==> start + nb < |img| && img[start + nb] == IndirectWords(start, nb))
  {
    hide StartOf, NodeLaid;
    AcceptedFile(|img|, hosts, o);
    StartGrows(hosts, o, o);
    if o < |hosts| {
      assert Laid(img, hosts[o], StartOf(hosts, o));
    } else {
      RootBlocks(hosts);
    }
  }

  /** Every pointer of file o has the value finishfile gave it. */
  lemma PtrValue(img: Image, hosts: Hosts, o: nat, p: Ptr)
    requires Layout(img, hosts) && o <= |hosts| && p.f == OwnerLoc(hosts, o)
    requires (p.Direct? ==> p.i < 10) && (p.Entry? ==> p.i < 1024)
    ensures Val(img, p) == Slot(p, StartOf(hosts, o), OwnerBlocks(hosts, o))
  {
    hide StartOf, OwnerLoc, OwnerBlocks, NodeLaid, Laid, Val, Slot, FileWord, IsFree;
    NodePtrs(img, hosts, o, if p.Direct? then p.i else 0);
    IndirectLaid(img, hosts, o);
    NodeValue(img, OwnerLoc(hosts, o), StartOf(hosts, o), OwnerBlocks(hosts, o), p);
  }

  lemma OwnerOf(hosts: Hosts, f: Loc) returns (o: nat)
    requires f in TreeOf(hosts).files
    ensures o <= |hosts| && f == OwnerLoc(hosts, o)
  {
    o :| o <= |hosts| && f == OwnerLoc(hosts, o);
  }

  /** The value of any pointer, with its owner. */
  lemma PtrOwner(img: Image, hosts: Hosts, p: Ptr) returns (o: nat)
    requires Layout(img, hosts) && |hosts| > 0 && IsPtr(TreeOf(hosts), p)
    ensures o <= |hosts| && p.f == OwnerLoc(hosts, o)
    ensures Val(img, p) == Slot(p, StartOf(hosts, o), OwnerBlocks(hosts, o))
    ensures Val(img, p) != 0 ==> StartOf(hosts, o) <= Val(img, p) < OwnerEnd(hosts, o) && 3 <= Val(img, p) < Used(hosts)
  {
    hide Layout, StartOf, OwnerLoc, OwnerBlocks, OwnerEnd, Val, Slot, Used;
    o := OwnerOf(hosts, p.f);
    PtrValue(img, hosts, o, p);
    if Val(img, p) != 0 {
      assert Accepts(|img|, hosts) by {
        LayoutAccepts(img, hosts);
      }
      OwnerRange(|img|, hosts, p, o);
    }
  }

  lemma LayoutAccepts(img: Image, hosts: Hosts)
    requires Layout(img, hosts)
    ensures Accepts(|img|, hosts)
  {
  }

  lemma OwnerRange(n: nat, hosts: Hosts, p: Ptr, o: nat)
    requires Accepts(n, hosts) && |hosts| > 0 && o <= |hosts| && Slot(p, StartOf(hosts, o), OwnerBlocks(hosts, o)) != 0
    ensures var v := Slot(p, StartOf(hosts, o), OwnerBlocks(hosts, o));
      StartOf(hosts, o) <= v < OwnerEnd(hosts, o) && 3 <= v < Used(hosts)
  {
    hide StartOf, OwnerBlocks, OwnerEnd, Used, Slot, Accepts;
    AcceptedFile(n, hosts, o);
    StartGrows(hosts, o, o);
    SlotIn(p, StartOf(hosts, o), OwnerBlocks(hosts, o));
    EndsBelow(hosts, o);
  }

  lemma EndsBelow(hosts: Hosts, o: nat)
    requires o <= |hosts|
    ensures OwnerEnd(hosts, o) <= Used(hosts)
  {
    hide StartOf, DirBlocks;
    if o < |hosts| {
      StartGrows(hosts, o + 1, |hosts|);
    }
  }

  lemma LocsApart(hosts: Hosts, a: nat, b: nat)
    requires a < b <= |hosts|
    ensures Apart(OwnerLoc(hosts, a), OwnerLoc(hosts, b))
  {
    StartGrows(hosts, |hosts|, |hosts|);
    if b < |hosts| && a / 16 == b / 16 {
      assert a % 16 < b % 16;
    }
  }

  /** With at least one file the image satisfies the ownership invariant. */
  lemma FormatOwns(img: Image, hosts: Hosts)
    requires Layout(img, hosts) && |hosts| > 0
    ensures FsOk(img, TreeOf(hosts))
  {
    hide OwnerLoc, StartOf, Slot, Val, NodeLaid, Laid, IsFree;
    var t := TreeOf(hosts);
    FormatPlaced(img, hosts);
    forall p: Ptr | IsPtr(t, p) && Val(img, p) != 0 ensures Reserved(|img|) <= Val(img, p) < |img| {
      var o := PtrOwner(img, hosts, p);
    }
    forall p: Ptr, q: Ptr | IsPtr(t, p) && IsPtr(t, q) && p != q && Val(img, p) != 0
           ensures Val(img, p) != Val(img, q) {
      FormatDistinct(img, hosts, p, q);
    }
    forall g: Loc, p: Ptr | g in t.files && IsPtr(t, p) && Val(img, p) == g.blk ensures p.f in t.dirs && !p.Indirect? {
      FormatHosted(img, hosts, g, p);
    }
    FormatBits(img, hosts);
  }

  lemma FormatPlaced(img: Image, hosts: Hosts)
    requires Layout(img, hosts)
    ensures Placed(img, TreeOf(hosts)) && Reserved(|img|) == 3
  {
    hide NodeLaid, Laid, IsFree;
    SmallDisk(|img|);
    StartGrows(hosts, |hosts|, |hosts|);
    var t := TreeOf(hosts);
    forall f | f in t.files
           ensures 1 <= f.blk < |img| && f.base + 64 <= 1024 && (f.blk == 1 || 3 <= f.blk < Used(hosts)) {
      var o := OwnerOf(hosts, f);
    }
    forall f, g | f in t.files && g in t.files && f != g ensures Apart(f, g) {
      var a := OwnerOf(hosts, f);
      var b := OwnerOf(hosts, g);
      if a < b {
        LocsApart(hosts, a, b);
      } else {
        LocsApart(hosts, b, a);
      }
    }
  }

  lemma FormatDistinct(img: Image, hosts: Hosts, p: Ptr, q: Ptr)
    requires Layout(img, hosts) && |hosts| > 0 && IsPtr(TreeOf(hosts), p) && IsPtr(TreeOf(hosts), q) && p != q
    requires Val(img, p) != 0
    ensures Val(img, p) != Val(img, q)
  {
    hide Layout, OwnerLoc, StartOf, Slot, Val;
    var a := PtrOwner(img, hosts, p);
    var b := PtrOwner(img, hosts, q);
    if a == b {
      SlotDiffers(p, q, StartOf(hosts, a), OwnerBlocks(hosts, a));
    } else if a < b {
      OwnersApart(hosts, a, b);
    } else {
      OwnersApart(hosts, b, a);
    }
  }

  lemma FormatHosted(img: Image, hosts: Hosts, g: Loc, p: Ptr)
    requires Layout(img, hosts) && |hosts| > 0 && g in TreeOf(hosts).files && IsPtr(TreeOf(hosts), p)
    requires Val(img, p) == g.blk
    ensures p.f in TreeOf(hosts).dirs && !p.Indirect?
  {
    hide NodeLaid, Laid, IsFree, Val;
    var o := PtrOwner(img, hosts, p);
    var k := OwnerOf(hosts, g);
    StartGrows(hosts, |hosts|, |hosts|);
    if o < |hosts| {
      OwnersApart(hosts, o, |hosts|);
    }
  }

  lemma FormatBits(img: Image, hosts: Hosts)
    requires Layout(img, hosts) && |hosts| > 0 && Reserved(|img|) == 3
    ensures BitsExact(img, TreeOf(hosts))
  {
    hide NodeLaid, Laid, Val, OwnerLoc, StartOf, Slot;
    var t := TreeOf(hosts);
    forall b: nat | b < |img| ensures IsFree(img, b) <==> 3 <= b && !IsOwned(img, t, b) {
      FormatBit(img, hosts, b);
    }
    forall f | f in t.files && f.blk < |img| ensures !IsFree(img, f.blk) {
      NodeUsed(hosts, f);
    }
  }

  lemma NodeUsed(hosts: Hosts, f: Loc)
    requires f in TreeOf(hosts).files
    ensures f.blk < Used(hosts)
  {
    var o := OwnerOf(hosts, f);
    StartGrows(hosts, |hosts|, |hosts|);
  }

  lemma FormatBit(img: Image, hosts: Hosts, b: nat)
    requires Layout(img, hosts) && |hosts| > 0 && b < |img|
    ensures IsFree(img, b) <==> 3 <= b && !IsOwned(img, TreeOf(hosts), b)
  {
    hide NodeLaid, Laid, Val, OwnerLoc, StartOf, Slot, IsFree;
    var t := TreeOf(hosts);
    StartGrows(hosts, |hosts|, |hosts|);
    if b < Used(hosts) && 3 <= b {
      var o := AnyOwner(hosts, b);
      AcceptedFile(|img|, hosts, o);
      var p := SlotCovers(OwnerLoc(hosts, o), StartOf(hosts, o), OwnerBlocks(hosts, o), b);
      PtrValue(img, hosts, o, p);
      assert IsPtr(t, p) && Val(img, p) == b;
    } else if IsOwned(img, t, b) && 3 <= b {
      var p :| IsPtr(t, p) && Val(img, p) == b;
      var o := PtrOwner(img, hosts, p);
      assert false;
    }
  }

  /** No file has blocks past its size. */
  lemma FormatSized(img: Image, hosts: Hosts)
    requires Layout(img, hosts)
    ensures Sized(img, TreeOf(hosts))
  {
    hide NodeLaid, Laid, OwnerLoc, StartOf, IsFree, SizeOf, BlockNo;
    forall f: Loc | f in TreeOf(hosts).files ensures SizedFile(img, f) {
      var o := OwnerOf(hosts, f);
      AcceptedFile(|img|, hosts, o);
      NodePtrs(img, hosts, o, 0);
      forall bno: nat | BlockNo(img, f, bno) != 0 ensures bno * 4096 < SizeOf(img, f) {
        BlockValue(img, hosts, o, bno);
        LastBlock(OwnerSize(hosts, o), bno);
      }
    }
  }

  lemma BlockValue(img: Image, hosts: Hosts, o: nat, bno: nat)
    requires Layout(img, hosts) && o <= |hosts|
    ensures BlockNo(img, OwnerLoc(hosts, o), bno) == if bno < OwnerBlocks(hosts, o) then StartOf(hosts, o) + bno else 0
  {
    hide NodeLaid, Laid, OwnerLoc, StartOf, IsFree, Val, OwnerBlocks;
    AcceptedFile(|img|, hosts, o);
    if bno < 1034 {
      PtrValue(img, hosts, o, DataPtr(OwnerLoc(hosts, o), bno));
    }
  }

  /** Each file in the image reads as the host file. */
  lemma FormatReads(img: Image, hosts: Hosts, k: nat)
    requires Layout(img, hosts) && k < |hosts|
    ensures SizeOf(img, OwnerLoc(hosts, k)) == |hosts[k].bytes|
    ensures BytesOf(img, OwnerLoc(hosts, k), 0, |hosts[k].bytes|) == hosts[k].bytes
    ensures Regular(TreeOf(hosts), OwnerLoc(hosts, k))
  {
    var f := OwnerLoc(hosts, k);
    LocsApart(hosts, k, |hosts|);
    NodePtrs(img, hosts, k, 0);
    assert f in TreeOf(hosts).files;
    hide Layout, OwnerLoc, StartOf, SizeOf, ByteAt;
    forall pos: nat | pos < |hosts[k].bytes| ensures ByteAt(img, f, 0 + pos) == hosts[k].bytes[pos] {
      FormatByte(img, hosts, k, pos);
    }
  }

  lemma FormatByte(img: Image, hosts: Hosts, k: nat, pos: nat)
    requires Layout(img, hosts) && k < |hosts| && pos < |hosts[k].bytes|
    ensures ByteAt(img, OwnerLoc(hosts, k), pos) == hosts[k].bytes[pos]
  {
    hide *;
    BlockValue(img, hosts, k, pos / 4096);
    LaidBlock(img, hosts, k, pos);
    PackedByte(img, OwnerLoc(hosts, k), hosts[k].bytes, pos);
  }

  lemma LaidBlock(img: Image, hosts: Hosts, k: nat, pos: nat)
    requires Layout(img, hosts) && k < |hosts| && pos < |hosts[k].bytes|
    ensures pos / 4096 < OwnerBlocks(hosts, k) && 0 < StartOf(hosts, k) + pos / 4096 < |img|
    ensures img[StartOf(hosts, k) + pos / 4096] == Pack(DataBytes(hosts[k].bytes, pos / 4096))
  {
    hide NodeLaid, IsFree, StartOf, Pack, DataBytes;
    LastBlock(|hosts[k].bytes|, pos / 4096);
    StartGrows(hosts, k, k);
    assert Laid(img, hosts[k], StartOf(hosts, k));
  }

  lemma PackedByte(img: Image, f: Loc, bytes: seq<Byte>, pos: nat)
    requires pos < |bytes| && 0 < BlockNo(img, f, pos / 4096) < |img|
    requires img[BlockNo(img, f, pos / 4096)] == Pack(DataBytes(bytes, pos / 4096))
    ensures ByteAt(img, f, pos) == bytes[pos]
  {
    hide BlockNo, Unpack, Pack, DataBytes;
    UnpackPack(DataBytes(bytes, pos / 4096));
    DataAt(bytes, pos);
  }

  lemma DataAt(bytes: seq<Byte>, pos: nat)
    requires pos < |bytes|
    ensures DataBytes(bytes, pos / 4096)[pos % 4096] == bytes[pos]
  {
    assert DataByte(bytes, pos / 4096, pos % 4096) == bytes[pos];
  }

  // ---------------------------------------------------------------- building the image

  /** A block with the bytes of block j of a file copied over its beginning. */
  function Overlay(blk: Block, bytes: seq<Byte>, j: nat): Block {
    Pack(OverlayBytes(Unpack(blk), bytes, j))
  }

  function OverlayBytes(under: Bytes, bytes: seq<Byte>, j: nat): Bytes {
    seq(4096, k requires 0 <= k < 4096 => OverlayByte(under, bytes, j, k))
  }

  function OverlayByte(under: Bytes, bytes: seq<Byte>, j: nat, k: nat): Byte
    requires k < 4096
  {
    if 4096 * j + k < |bytes| then bytes[4096 * j + k] else under[k]
  }

  lemma OverlayZero(bytes: seq<Byte>, j: nat)
    ensures Overlay(ZeroBlock(), bytes, j) == Pack(DataBytes(bytes, j))
  {
    hide Pack, Unpack;
    forall k: nat | k < 4096 ensures OverlayBytes(Unpack(ZeroBlock()), bytes, j)[k] == DataBytes(bytes, j)[k] {
      UnpackZero(k);
    }
    assert OverlayBytes(Unpack(ZeroBlock()), bytes, j) == DataBytes(bytes, j);
  }

  /** Files are not disturbed by blocks that come after them. */
  lemma LaidStays(img: Image, img': Image, h: Host, start: nat)
    requires Laid(img, h, start) && |img'| == |img|
    requires forall b: nat :: 3 <= b < |img| && b < start + Span(h) ==> img'[b] == img[b]
    requires 3 <= start
    ensures Laid(img', h, start)
  {
    hide Pack, DataBytes, IndirectWords;
  }

  /** The first k files are in place, with their directory entries in memory, and nothing follows them on the disk. */
  ghost predicate Built(img: Image, pos: nat, ents: seq<seq<Word32>>, hosts: Hosts, k: nat) {
    && k <= |hosts| && pos == StartOf(hosts, k) < |img| <= 1024 && |ents| == k
    && (forall i: nat :: i < k ==> |hosts[i].bytes| < 1034 * 4096)
    && (forall i: nat :: i < k ==> Laid(img, hosts[i], StartOf(hosts, i)))
    && (forall i: nat :: i < k ==> ents[i] == Node(hosts, i))
    && ZeroFrom(img, pos)
  }

  /** The disk has not been written to from block pos on. */
  predicate ZeroFrom(img: Image, pos: nat) {
    forall b: nat :: pos <= b < |img| ==> img[b] == ZeroBlock()
  }

  predicate SameBelow(img: Image, img': Image, pos: nat) {
    |img'| == |img| && forall b: nat :: b < |img| && b < pos ==> img'[b] == img[b]
  }

  lemma StartStep(hosts: Hosts, i: nat)
    requires i < |hosts|
    ensures StartOf(hosts, i + 1) == StartOf(hosts, i) + Span(hosts[i])
  {
  }

  lemma BelowIsData(img: Image, img': Image, pos: nat)
    requires SameBelow(img, img', pos)
    ensures |img'| == |img| && SameData(img, img', pos)
  {
  }

  lemma BuiltNext(img: Image, img': Image, ents: seq<seq<Word32>>, hosts: Hosts, k: nat, node: seq<Word32>)
    requires k < |hosts| && Built(img, StartOf(hosts, k), ents, hosts, k) && StartOf(hosts, k + 1) < |img|
    requires SameBelow(img, img', StartOf(hosts, k)) && ZeroFrom(img', StartOf(hosts, k + 1))
    requires |hosts[k].bytes| < 1034 * 4096 && Laid(img', hosts[k], StartOf(hosts, k)) && node == Node(hosts, k)
    ensures Built(img', StartOf(hosts, k + 1), ents + [node], hosts, k + 1)
  {
    hide Laid, Node, ZeroFrom, StartOf, Span, SameBelow, SameData;
    BelowIsData(img, img', StartOf(hosts, k));
    forall i: nat | i < k ensures Laid(img', hosts[i], StartOf(hosts, i)) {
      FileStays(img, img', hosts, i, k);
    }
    OneEntryMore(ents, node, hosts, k);
    hide Laid, Node, StartOf;
  }

  lemma OneEntryMore(ents: seq<seq<Word32>>, node: seq<Word32>, hosts: Hosts, k: nat)
    requires k < |hosts| && |ents| == k && node == Node(hosts, k)
    requires forall i: nat :: i < k ==> ents[i] == Node(hosts, i)
    ensures forall i: nat :: i < k + 1 ==> (ents + [node])[i] == Node(hosts, i)
  {
    hide Node;
  }

  class Formatter {
    var img: Image
    var pos: nat
    var ents: seq<seq<Word32>>

    /** alloc: the blocks at the end of what is used; it panics when that reaches the end of the disk. */
    method Alloc(bytes: nat) returns (start: nat, ok: bool)
      modifies `pos
      ensures start == old(pos) && pos == old(pos) + NBlocks(bytes) && (ok <==> pos < |img|)
    {
      start := pos;
      pos := pos + (bytes + 4095) / 4096;
      ok := pos < |img|;
    }

    /** readn into freshly allocated blocks. */
    method CopyIn(bytes: seq<Byte>, start: nat)
      requires start + NBlocks(|bytes|) <= |img|
      requires ZeroFrom(img, start)
      modifies `img
      ensures |img| == old(|img|)
      ensures forall b: nat :: b < |img| && !(start <= b < start + NBlocks(|bytes|)) ==> img[b] == old(img)[b]
      ensures forall j: nat :: j < NBlocks(|bytes|) ==> img[start + j] == Pack(DataBytes(bytes, j))
    {
      hide Overlay, Pack, DataBytes, ZeroBlock;
      var j := 0;
      while j < NBlocks(|bytes|)
        invariant j <= NBlocks(|bytes|) && |img| == old(|img|)
        invariant forall b: nat :: b < |img| && !(start <= b < start + j) ==> img[b] == old(img)[b]
        invariant forall i: nat :: i < j ==> img[start + i] == Pack(DataBytes(bytes, i))
      {
        OverlayZero(bytes, j);
        img := img[start + j := Overlay(img[start + j], bytes, j)];
        j := j + 1;
      }
    }

    /** finishfile: the File structure for a file whose blocks have just been allocated, and its indirect block. */
    method FinishFile(name: seq<Word32>, typ: Word32, size: nat, start: nat) returns (node: seq<Word32>, ok: bool)
      requires |name| == 32 && size < 1034 * 4096 && pos < |img| <= 1024 && start <= pos
      requires NBlocks(size) >= 10 ==> start + NBlocks(size) == pos
      requires ZeroFrom(img, pos)
      modifies this
      ensures |img| == old(|img|) && ents == old(ents) && old(pos) <= pos
      ensures pos == old(pos) + if NBlocks(size) >= 10 then 1 else 0
      ensures ok <==> pos < |img|
      ensures ok ==> node == FileWords(name, typ, size, start, NBlocks(size))
      ensures ok && NBlocks(size) >= 10 ==> img[old(pos)] == IndirectWords(start, NBlocks(size))
      ensures forall b: nat :: b < |img| && (b < old(pos) || pos <= b) ==> img[b] == old(img)[b]
    {
      var nb := NBlocks(size);
      node := name + [size, typ] + seq(30, i => 0);
      ok := true;
      var i := 0;
      while i < nb && i < 10
        invariant i <= nb && i <= 10
        invariant |node| == 64 && NodeSoFar(node, name, typ, size, start, i)
      {
        node := node[34 + i := start + i];
        i := i + 1;
      }
      if i == 10 {
        var b;
        b, ok := Alloc(4096);
        if !ok {
          return;
        }
        node := node[44 := b];
        var ind := FillIndirect(img[b], start, nb);
        img := img[b := ind];
      }
      assert node == FileWords(name, typ, size, start, nb);
    }

    /** A host file's data and indirect block, and its File structure. */
    method StoreFile(h: Host) returns (node: seq<Word32>, ok: bool)
      requires |h.name| == 32 && |h.bytes| < 1034 * 4096 && 3 <= pos < |img| <= 1024 && ZeroFrom(img, pos)
      modifies this
      ensures |img| == old(|img|) && ents == old(ents) && (ok <==> old(pos) + Span(h) < |img|)
      ensures ok ==> pos == old(pos) + Span(h) && SameBelow(old(img), img, old(pos)) && ZeroFrom(img, pos)
      ensures ok ==> Laid(img, h, old(pos)) && node == FileWords(h.name, 0, |h.bytes|, old(pos), NBlocks(|h.bytes|))
    {
      hide Laid, Pack, DataBytes, IndirectWords, ZeroBlock, FileWords;
      node := [];
      var start;
      start, ok := Alloc(|h.bytes|);
      if !ok {
        return;
      }
      CopyIn(h.bytes, start);
      ghost var copied := img;
      node, ok := FinishFile(h.name, 0, |h.bytes|, start);
      if ok {
        LaidNow(img, copied, h, start);
      }
    }

    /** writefile: the next file and its directory entry. */
    method WriteFile(hosts: Hosts, k: nat) returns (ok: bool)
      requires Built(img, pos, ents, hosts, k) && k < |hosts|
      modifies this
      ensures |img| == old(|img|)
      ensures ok ==> Built(img, pos, ents, hosts, k + 1) && k < MAX_DIR_ENTS && SameBelow(old(img), img, 3)
      ensures !ok ==> !Accepts(|img|, hosts)
    {
      hide Laid, ZeroBlock, FileWords, Span;
      assert hosts[k] in hosts;
      var h := hosts[k];
      StartGrows(hosts, k, k);
      StartGrows(hosts, k + 1, |hosts|);
      if |h.bytes| >= 1034 * 4096 || |ents| >= MAX_DIR_ENTS {
        return false;
      }
      var node;
      node, ok := StoreFile(h);
      if ok {
        BuiltNext(old(img), img, ents, hosts, k, node);
        ents := ents + [node];
      }
    }

    constructor (n: nat)
      ensures img == Blank(n) && pos == 0 && ents == []
    {
      img := Blank(n);
      pos := 0;
      ents := [];
    }

    /** opendisk: block 0, the super-block and a bitmap with every block free. */
    method OpenDisk(hosts: Hosts) returns (ok: bool)
      requires pos == 0 && ents == [] && |img| <= 1024 && ZeroFrom(img, 0)
      modifies this
      ensures |img| == old(|img|) && (ok <==> 3 < |img|)
      ensures ok ==> Built(img, pos, ents, hosts, 0) && SuperOk(img) && img[2] == AllOnes()
    {
      var b;
      b, ok := Alloc(4096);
      if !ok {
        return;
      }
      b, ok := Alloc(4096);
      if !ok {
        return;
      }
      img := img[b := NewSuper(|img|)];
      b, ok := Alloc(4096 * ((|img| + 32767) / 32768));
      assert (|img| + 32767) / 32768 == 1;
      if !ok {
        return;
      }
      img := img[b := AllOnes()];
    }

    /** finishdir: the directory entries and the root's File structure. */
    method FinishDir(hosts: Hosts) returns (ok: bool)
      requires Built(img, pos, ents, hosts, |hosts|) && |hosts| <= MAX_DIR_ENTS && SuperOk(img)
      modifies this
      ensures |img| == old(|img|) && (ok <==> Used(hosts) < |img|)
      ensures ok ==> pos == Used(hosts) && SameBitmap(old(img), img) && AllNodes(img, hosts) && AllFiles(img, hosts)
    {
      hide Built, FileWords, StartOf, AllNodes, AllFiles, HoldsEntry, DirBlocks, NewSuper, ZeroFrom, Used;
      ghost var before := img;
      StartGrows(hosts, |hosts|, |hosts|);
      BuiltRange(img, pos, ents, hosts);
      EntsShape(img, pos, ents, hosts);
      UsedIs(hosts);
      BuiltZero(img, pos, ents, hosts);
      var start;
      start, ok := Alloc(256 * |ents|);
      if !ok {
        return;
      }
      CopyEnts(start);
      ghost var copied := img;
      SuperStays(before, copied, start);
      RootBlocks(hosts);
      var node;
      node, ok := FinishFile(img[1][2..34], img[1][35], RoundUpSigned(256 * |ents|), start);
      assert img == copied;
      var super := img[1];
      img := img[1 := super[..2] + node + super[66..]];
      DirLaid(before, copied, img, ents, hosts, node);
    }

    /** memmove of the entries into the directory's blocks, sixteen to a block. */
    method CopyEnts(start: nat)
      requires 3 <= start && start + NBlocks(256 * |ents|) <= |img| && ZeroFrom(img, start)
      requires forall e :: e in ents ==> |e| == 64
      modifies `img
      ensures SameBelow(old(img), img, start) && ZeroFrom(img, start + NBlocks(256 * |ents|))
      ensures forall k: nat :: k < |ents| ==> HoldsEntry(img, start, k, ents[k])
    {
      hide HoldsEntry, ZeroFrom, SameBelow;
      var k := 0;
      SameRefl(img, start, start + NBlocks(256 * |ents|));
      while k < |ents|
        invariant k <= |ents| && |img| == old(|img|) && SameBelow(old(img), img, start)
                  && ZeroFrom(img, start + NBlocks(256 * |ents|))
        invariant forall i: nat :: i < k ==> HoldsEntry(img, start, i, ents[i])
      {
        EntryFits(|ents|, k);
        assert ents[k] in ents;
        ghost var before := img;
        img := PutEntry(img, start, k, ents[k]);
        PutEntryFrame(old(img), before, start, k, ents[k], start + NBlocks(256 * |ents|));
        forall i: nat | i < k + 1 ensures HoldsEntry(img, start, i, ents[i]) {
          EntryKept(before, start, i, ents[i], k, ents[k]);
        }
        k := k + 1;
      }
    }

    /** finishdisk: the bits of all blocks handed out are cleared. */
    method FinishDisk()
      requires Roomy(img) && pos <= |img| && forall b: nat :: b < |img| ==> IsFree(img, b)
      requires forall b: nat :: b < pos ==> BitmapBlock(b) == 2
      modifies `img
      ensures |img| == old(|img|) && forall b: nat :: b < |img| && b != 2 ==> img[b] == old(img)[b]
      ensures Roomy(img) && forall b: nat :: b < |img| ==> (IsFree(img, b) <==> pos <= b)
    {
      hide IsFree;
      var i := 0;
      while i < pos
        invariant i <= pos && |img| == old(|img|) && Roomy(img)
        invariant forall b: nat :: b < |img| && b != 2 ==> img[b] == old(img)[b]
        invariant forall b: nat :: b < |img| ==> (IsFree(img, b) <==> i <= b)
      {
        img := Mark(img, i, false);
        i := i + 1;
      }
    }

    /** fsformat, for a disk of at most 1024 blocks. It panics exactly when the files do not fit; otherwise the image
        has the layout from which the file server's invariants follow. */
    method Format(hosts: Hosts) returns (ok: bool)
      requires img == Blank(|img|) && pos == 0 && ents == [] && |img| <= 1024
      modifies this
      ensures |img| == old(|img|) && (ok <==> Accepts(|img|, hosts))
      ensures ok ==> Layout(img, hosts)
    {
      hide Built, StartOf, Laid, NodeLaid, AllOnes, NewSuper, AllNodes, AllFiles, Used;
      BlankZero(|img|);
      ok := OpenDisk(hosts);
      if !ok {
        UsedAtLeast(hosts);
        return;
      }
      var k := 0;
      while k < |hosts|
        invariant k <= |hosts| && k <= MAX_DIR_ENTS && |img| == old(|img|) > 3
        invariant Built(img, pos, ents, hosts, k) && SuperOk(img) && img[2] == AllOnes()
      {
        ok := WriteFile(hosts, k);
        if !ok {
          return;
        }
        k := k + 1;
      }
      BuiltSmall(img, pos, ents, hosts);
      ok := FinishDir(hosts);
      if !ok {
        return;
      }
      AllFree(img);
      ghost var done := img;
      FinishDisk();
      Finished(done, img, hosts);
    }
  }

  lemma BlankZero(n: nat)
    ensures ZeroFrom(Blank(n), 0)
  {
  }

  lemma UsedAtLeast(hosts: Hosts)
    ensures Used(hosts) >= 3
  {
    StartGrows(hosts, |hosts|, |hosts|);
  }

  lemma BuiltSmall(img: Image, pos: nat, ents: seq<seq<Word32>>, hosts: Hosts)
    requires Built(img, pos, ents, hosts, |hosts|)
    ensures forall h :: h in hosts ==> |h.bytes| < 1034 * 4096
  {
    hide Laid, Node, StartOf, ZeroFrom;
  }

  lemma {:induction false} OnesBit(n: nat, k: nat)
    requires k < n
    ensures GetBit(Pow2(n) - 1, k)
  {
    if k > 0 {
      OnesBit(n - 1, k - 1);
      assert (Pow2(n) - 1) / 2 == Pow2(n - 1) - 1;
    }
  }

  lemma AllFree(img: Image)
    requires 3 < |img| <= 1024 && img[2] == AllOnes()
    ensures Roomy(img) && forall b: nat :: b < |img| ==> IsFree(img, b) && BitmapBlock(b) == 2
  {
    WordBits();
    forall b: nat | b < |img| ensures IsFree(img, b) && BitmapBlock(b) == 2 {
      OnesBit(32, b % 32);
    }
  }

  /** Clearing the bits of the bitmap leaves the rest of the layout. */
  lemma Finished(done: Image, img: Image, hosts: Hosts)
    requires Accepts(|done|, hosts) && |img| == |done| && Roomy(img) && AllNodes(done, hosts) && AllFiles(done, hosts)
    requires forall b: nat :: b < |img| && b != 2 ==> img[b] == done[b]
    requires forall b: nat :: b < |img| ==> (IsFree(img, b) <==> Used(hosts) <= b)
    ensures Layout(img, hosts)
  {
    hide IsFree, StartOf, Laid, NodeLaid, Used;
    StartGrows(hosts, |hosts|, |hosts|);
    forall k: nat | k < |hosts| ensures Laid(img, hosts[k], StartOf(hosts, k)) {
      StartGrows(hosts, k, k);
      LaidStays(done, img, hosts[k], StartOf(hosts, k));
    }
    forall o: nat | o <= |hosts| ensures NodeLaid(img, hosts, o) {
      NodeStays(done, img, hosts, o);
    }
  }

  lemma NodeStays(done: Image, img: Image, hosts: Hosts, o: nat)
    requires o <= |hosts| && NodeLaid(done, hosts, o) && |img| == |done| && 3 <= StartOf(hosts, |hosts|)
    requires forall b: nat :: b < |img| && b != 2 ==> img[b] == done[b]
    ensures NodeLaid(img, hosts, o)
  {
    hide StartOf, FileWords;
  }

  /** Without files the root directory has size 4096 and names block 3, which was never allocated. */
  lemma FormatEmpty(img: Image, hosts: Hosts)
    requires Layout(img, hosts) && |hosts| == 0
    ensures SizeOf(img, OwnerLoc(hosts, 0)) == 4096
    ensures Val(img, Direct(OwnerLoc(hosts, 0), 0)) == 3 && IsFree(img, 3)
    ensures !FsOk(img, TreeOf(hosts))
  {
    hide NodeLaid, Laid, IsFree, Val;
    var p := Direct(OwnerLoc(hosts, 0), 0);
    NodePtrs(img, hosts, 0, 0);
    RootBlocks(hosts);
    PtrValue(img, hosts, 0, p);
    assert IsPtr(TreeOf(hosts), p);
    assert IsOwned(img, TreeOf(hosts), 3);
  }

  /** What fsformat builds, the file server can serve if and only if there is a file in it: then the bitmap and the
      pointers agree exactly. In any case no file has blocks past its size, and every file reads as the host file. */
  lemma FormatServes(img: Image, hosts: Hosts)
    requires Layout(img, hosts)
    ensures FsOk(img, TreeOf(hosts)) <==> |hosts| > 0
    ensures Sized(img, TreeOf(hosts))
    ensures forall k: nat :: k < |hosts| ==>
              Regular(TreeOf(hosts), OwnerLoc(hosts, k)) && SizeOf(img, OwnerLoc(hosts, k)) == |hosts[k].bytes|
    ensures forall k: nat :: k < |hosts| ==> BytesOf(img, OwnerLoc(hosts, k), 0, |hosts[k].bytes|) == hosts[k].bytes
  {
    hide Layout, FsOk, Sized, OwnerLoc, BytesOf, TreeOf, SizeOf, IsFree, Val;
    if |hosts| > 0 {
      FormatOwns(img, hosts);
    } else {
      FormatEmpty(img, hosts);
    }
    FormatSized(img, hosts);
    forall k: nat | k < |hosts|
      ensures Regular(TreeOf(hosts), OwnerLoc(hosts, k)) && SizeOf(img, OwnerLoc(hosts, k)) == |hosts[k].bytes|
              && BytesOf(img, OwnerLoc(hosts, k), 0, |hosts[k].bytes|) == hosts[k].bytes
    {
      FormatReads(img, hosts, k);
    }
  }

  function Blank(n: nat): Image {
    seq(n, i => ZeroBlock())
  }

  function NewSuper(n: Word32): Block {
    ZeroBlock()[0 := FS_MAGIC][1 := n][2 := 0x2F][35 := 1]
  }

  predicate SuperOk(img: Image) {
    1 < |img| && |img| < 0x1_0000_0000 && img[1] == NewSuper(|img|)
  }

  function AllOnes(): Block {
    seq(1024, i => 0xFFFF_FFFF)
  }

  /** Entry k of a directory that starts at block start. */
  predicate HoldsEntry(img: Image, start: nat, k: nat, e: seq<Word32>) {
    start + k / 16 < |img| && img[start + k / 16][64 * (k % 16)..64 * (k % 16) + 64] == e
  }

  lemma EntryFits(n: nat, k: nat)
    requires k < n
    ensures k / 16 < NBlocks(256 * n) && 64 * (k % 16) + 64 <= 1024
  {
  }

  function PutEntry(img: Image, start: nat, k: nat, e: seq<Word32>): (r: Image)
    requires start + k / 16 < |img| && |e| == 64
    ensures |r| == |img|
  {
    var b, base := start + k / 16, 64 * (k % 16);
    img[b := img[b][..base] + e + img[b][base + 64..]]
  }

  lemma PutEntryFrame(before: Image, img: Image, start: nat, k: nat, e: seq<Word32>, end: nat)
    requires start + k / 16 < |img| && start + k / 16 < end && |e| == 64 && SameBelow(before, img, start)
    requires ZeroFrom(img, end)
    ensures SameBelow(before, PutEntry(img, start, k, e), start) && ZeroFrom(PutEntry(img, start, k, e), end)
  {
    hide ZeroBlock;
  }

  lemma SameRefl(img: Image, start: nat, end: nat)
    requires ZeroFrom(img, start) && start <= end
    ensures SameBelow(img, img, start) && ZeroFrom(img, end)
  {
  }

  /** Storing an entry puts it there and leaves those before it. */
  lemma EntryKept(img: Image, start: nat, i: nat, d: seq<Word32>, k: nat, e: seq<Word32>)
    requires start + k / 16 < |img| && |e| == 64 && i <= k && (if i < k then HoldsEntry(img, start, i, d) else d == e)
    ensures HoldsEntry(PutEntry(img, start, k, e), start, i, d)
  {
    var b, base := start + k / 16, 64 * (k % 16);
    var blk := img[b][..base] + e + img[b][base + 64..];
    if i == k {
      assert blk[base..base + 64] == e;
    } else if i / 16 == k / 16 {
      assert 64 * (i % 16) + 64 <= base;
      assert blk[64 * (i % 16)..64 * (i % 16) + 64] == img[b][64 * (i % 16)..64 * (i % 16) + 64];
    }
  }

  lemma EntsShape(img: Image, pos: nat, ents: seq<seq<Word32>>, hosts: Hosts)
    requires Built(img, pos, ents, hosts, |hosts|)
    ensures forall e :: e in ents ==> |e| == 64
  {
    hide Laid, ZeroFrom, FileWords;
    forall i: nat | i < |ents| ensures |ents[i]| == 64 {
      StartGrows(hosts, i, |hosts|);
      assert ents[i] == Node(hosts, i);
    }
  }

  lemma RootBlocks(hosts: Hosts)
    requires |hosts| <= MAX_DIR_ENTS
    ensures DirBlocks(hosts) <= 8 && NBlocks(RootSize(hosts)) <= 8
    ensures RootSize(hosts) == RoundUpSigned(256 * |hosts|) <= 32768
    ensures NBlocks(RootSize(hosts)) == if |hosts| == 0 then 1 else DirBlocks(hosts)
  {
  }

  /** With the entries copied and the root's File structure set, every File structure is in place. */
  lemma DirLaid(before: Image, copied: Image, img: Image, ents: seq<seq<Word32>>, hosts: Hosts, node: seq<Word32>)
    requires Built(before, StartOf(hosts, |hosts|), ents, hosts, |hosts|) && |hosts| <= MAX_DIR_ENTS
    requires Used(hosts) < |before| && SameBelow(before, copied, StartOf(hosts, |hosts|))
    requires |node| == 64 && 3 <= StartOf(hosts, |hosts|) && RootSize(hosts) <= 32768
    requires forall k: nat :: k < |hosts| ==> HoldsEntry(copied, StartOf(hosts, |hosts|), k, ents[k])
    requires img == copied[1 := copied[1][..2] + node + copied[1][66..]]
    requires node == FileWords(RootName(), 1, RootSize(hosts), StartOf(hosts, |hosts|), NBlocks(RootSize(hosts)))
    ensures SameBitmap(before, img) && AllNodes(img, hosts) && AllFiles(img, hosts)
  {
    hide Built, Laid, NodeLaid, HoldsEntry, StartOf, FileWords, DirBlocks, SameBelow, Used;
    RootBlocks(hosts);
    BuiltRange(before, StartOf(hosts, |hosts|), ents, hosts);
    OnlySuper(before, copied, img, StartOf(hosts, |hosts|), node);
    RootLaid(copied, img, hosts, node);
    EntriesLaid(before, copied, img, ents, hosts);
    FilesStay(before, img, ents, hosts);
  }

  lemma BuiltRange(img: Image, pos: nat, ents: seq<seq<Word32>>, hosts: Hosts)
    requires Built(img, pos, ents, hosts, |hosts|)
    ensures pos == StartOf(hosts, |hosts|) < |img| <= 1024 && |ents| == |hosts|
  {
    hide Laid, Node, StartOf;
  }

  lemma BuiltZero(img: Image, pos: nat, ents: seq<seq<Word32>>, hosts: Hosts)
    requires Built(img, pos, ents, hosts, |hosts|)
    ensures ZeroFrom(img, pos)
  {
    hide Laid, Node, StartOf, ZeroFrom;
  }

  lemma UsedIs(hosts: Hosts)
    ensures Used(hosts) == StartOf(hosts, |hosts|) + DirBlocks(hosts) && DirBlocks(hosts) == NBlocks(256 * |hosts|)
  {
  }

  lemma SuperStays(before: Image, img: Image, start: nat)
    requires SuperOk(before) && SameBelow(before, img, start) && 3 <= start
    ensures 1 < |img| && img[1][2..34] == RootName() && img[1][35] == 1
  {
  }

  lemma OnlySuper(before: Image, copied: Image, img: Image, start: nat, node: seq<Word32>)
    requires SameBelow(before, copied, start) && 3 <= start < |before| && |node| == 64
    requires img == copied[1 := copied[1][..2] + node + copied[1][66..]]
    ensures |img| == |copied| == |before| && img[2] == before[2]
    ensures forall b: nat :: 3 <= b < start ==> img[b] == before[b]
    ensures forall b: nat :: b < |img| && b != 1 ==> img[b] == copied[b]
  {
  }

  lemma EntriesLaid(before: Image, copied: Image, img: Image, ents: seq<seq<Word32>>, hosts: Hosts)
    requires Built(before, StartOf(hosts, |hosts|), ents, hosts, |hosts|) && |hosts| <= MAX_DIR_ENTS
    requires forall k: nat :: k < |hosts| ==> HoldsEntry(copied, StartOf(hosts, |hosts|), k, ents[k])
    requires |img| == |copied| == |before| && forall b: nat :: b < |img| && b != 1 ==> img[b] == copied[b]
    ensures forall o: nat :: o < |hosts| ==> NodeLaid(img, hosts, o)
  {
    hide Laid, NodeLaid, HoldsEntry, StartOf, ZeroFrom, Node;
    forall o: nat | o < |hosts| ensures NodeLaid(img, hosts, o) {
      StartGrows(hosts, o, |hosts|);
      assert HoldsEntry(copied, StartOf(hosts, |hosts|), o, ents[o]);
      EntryLaid(copied, img, hosts, o);
    }
  }

  lemma FileStays(before: Image, img: Image, hosts: Hosts, k: nat, m: nat)
    requires k < m <= |hosts| && Laid(before, hosts[k], StartOf(hosts, k)) && SameData(before, img, StartOf(hosts, m))
    ensures Laid(img, hosts[k], StartOf(hosts, k))
  {
    hide Laid, StartOf, Span;
    StartGrows(hosts, k, m);
    StartGrows(hosts, k + 1, m);
    StartStep(hosts, k);
    LaidStays(before, img, hosts[k], StartOf(hosts, k));
  }

  /** The blocks after the bitmap and before end are the same. */
  predicate SameData(img: Image, img': Image, end: nat) {
    |img'| == |img| && forall b: nat :: 3 <= b < |img| && b < end ==> img'[b] == img[b]
  }

  lemma FilesStay(before: Image, img: Image, ents: seq<seq<Word32>>, hosts: Hosts)
    requires Built(before, StartOf(hosts, |hosts|), ents, hosts, |hosts|)
    requires SameData(before, img, StartOf(hosts, |hosts|))
    ensures AllFiles(img, hosts)
  {
    hide Laid, StartOf, ZeroFrom, Node, SameData;
    forall k: nat | k < |hosts| ensures Laid(img, hosts[k], StartOf(hosts, k)) {
      FileStays(before, img, hosts, k, |hosts|);
    }
  }

  lemma EntryLaid(copied: Image, img: Image, hosts: Hosts, o: nat)
    requires o < |hosts| <= MAX_DIR_ENTS && HoldsEntry(copied, StartOf(hosts, |hosts|), o, Node(hosts, o))
    requires 3 <= StartOf(hosts, o) <= StartOf(hosts, |hosts|) < 1024 && |hosts[o].bytes| < 1034 * 4096
    requires |img| == |copied| && forall b: nat :: b < |img| && b != 1 ==> img[b] == copied[b]
    ensures NodeLaid(img, hosts, o)
  {
    hide FileWords, StartOf;
    assert hosts[o] in hosts;
    assert NBlocks(|hosts[o].bytes|) <= 1034;
  }

  lemma RootLaid(copied: Image, img: Image, hosts: Hosts, node: seq<Word32>)
    requires |hosts| <= MAX_DIR_ENTS && 1 < |copied| && |node| == 64 && StartOf(hosts, |hosts|) < 1024
    requires RootSize(hosts) <= 32768
    requires img == copied[1 := copied[1][..2] + node + copied[1][66..]]
    requires node == FileWords(RootName(), 1, RootSize(hosts), StartOf(hosts, |hosts|), NBlocks(RootSize(hosts)))
    ensures NodeLaid(img, hosts, |hosts|)
  {
    hide FileWords, StartOf, DirBlocks;
    assert img[1][2..66] == node;
  }

  lemma LaidNow(img: Image, copied: Image, h: Host, start: nat)
    requires start + Span(h) <= |img| < 0x1_0000_0000 && |copied| == |img|
    requires forall j: nat :: j < NBlocks(|h.bytes|) ==> copied[start + j] == Pack(DataBytes(h.bytes, j))
    requires forall b: nat :: b < start + NBlocks(|h.bytes|) ==> img[b] == copied[b]
    requires NBlocks(|h.bytes|) >= 10 ==> img[start + NBlocks(|h.bytes|)] == IndirectWords(start, NBlocks(|h.bytes|))
    ensures Laid(img, h, start)
  {
    hide Pack, DataBytes, IndirectWords;
  }

  /** A File structure with i direct pointers filled in. */
  predicate NodeSoFar(node: seq<Word32>, name: seq<Word32>, typ: Word32, size: nat, start: nat, i: nat)
    requires |name| == 32 && |node| == 64
  {
    forall w: nat :: w < 64 ==>
      node[w] == if w < 32 then name[w] else if w == 32 then size else if w == 33 then typ
                 else if w < 34 + i then start + w - 34 else 0
  }

  /** finishfile's loop over the indirect block. */
  method FillIndirect(blank: Block, start: nat, nb: nat) returns (ind: Block)
    requires blank == ZeroBlock() && 10 <= nb <= 1034 && start + nb < 0x1_0000_0000
    ensures ind == IndirectWords(start, nb)
  {
    ind := blank;
    var i := 10;
    while i < nb
      invariant 10 <= i <= nb
      invariant forall w: nat :: w < 1024 ==> ind[w] == if w < i - 10 then start + 10 + w else 0
    {
      ind := ind[i - 10 := start + i];
      i := i + 1;
    }
  }

  /** The File structure of host file i. */
  function Node(hosts: Hosts, i: nat): seq<Word32>
    requires i < |hosts|
  {
    assert hosts[i] in hosts;
    if |hosts[i].bytes| < 1034 * 4096 && StartOf(hosts, i) < 0x8000_0000 then
      FileWords(hosts[i].name, 0, |hosts[i].bytes|, StartOf(hosts, i), NBlocks(|hosts[i].bytes|))
    else []
  }
}
