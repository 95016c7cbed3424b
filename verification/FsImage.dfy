/** A file-system image: blocks of words, the bytes in them, and the free-block bitmap. */
module FsImage {
  type Word32 = x: nat | x < 0x1_0000_0000

  type Byte = x: nat | x < 256

  type Block = s: seq<Word32> | |s| == 1024 witness seq(1024, i => 0)

  /** The bytes of a block. */
  type Bytes = s: seq<Byte> | |s| == 4096 witness seq(4096, i => 0)

  type Image = seq<Block>

  function ZeroBlock(): Block {
    seq(1024, i => 0)
  }

  // ---------------------------------------------------------------- bytes and words

  function ByteOf(w: Word32, k: nat): Byte
    requires k < 4
  {
    if k == 0 then w % 256 else if k == 1 then w / 256 % 256 else if k == 2 then w / 65536 % 256 else w / 16777216
  }

  /** Words are little-endian. */
  function WordOf(a: nat, b: nat, c: nat, d: nat): Word32
    requires a < 256 && b < 256 && c < 256 && d < 256
  {
    a + 256 * b + 65536 * c + 16777216 * d
  }

  function Unpack(b: Block): Bytes {
    seq(4096, k requires 0 <= k < 4096 => ByteOf(b[k / 4], k % 4))
  }

  function Pack(s: Bytes): Block {
    seq(1024, i requires 0 <= i < 1024 => WordOf(s[4 * i], s[4 * i + 1], s[4 * i + 2], s[4 * i + 3]))
  }

  lemma UnpackPack(s: Bytes)
    ensures Unpack(Pack(s)) == s
  {
    forall k | 0 <= k < 4096 ensures Unpack(Pack(s))[k] == s[k] {
      var i := k / 4;
      assert 4 * i <= k < 4 * i + 4;
      BytesOfWord(s[4 * i], s[4 * i + 1], s[4 * i + 2], s[4 * i + 3]);
    }
  }

  lemma BytesOfWord(a: nat, b: nat, c: nat, d: nat)
    requires a < 256 && b < 256 && c < 256 && d < 256
    ensures var w := WordOf(a, b, c, d);
      ByteOf(w, 0) == a && ByteOf(w, 1) == b && ByteOf(w, 2) == c && ByteOf(w, 3) == d
  {
    var w := WordOf(a, b, c, d);
    assert w / 256 == b + 256 * c + 65536 * d;
    assert w / 65536 == c + 256 * d;
  }

  lemma UnpackZero(k: nat)
    requires k < 4096
    ensures Unpack(ZeroBlock())[k] == 0
  {
  }

  // ---------------------------------------------------------------- bits

  predicate GetBit(w: nat, k: nat) {
    if k == 0 then w % 2 == 1 else GetBit(w / 2, k - 1)
  }

  function SetBit(w: nat, k: nat, v: bool): nat {
    if k == 0 then w / 2 * 2 + (if v then 1 else 0) else 2 * SetBit(w / 2, k - 1, v) + w % 2
  }

  lemma {:induction false} GetSetBit(w: nat, k: nat, v: bool, j: nat)
    ensures GetBit(SetBit(w, k, v), j) == if j == k then v else GetBit(w, j)
  {
    if k > 0 && j > 0 {
      GetSetBit(w / 2, k - 1, v, j - 1);
      assert SetBit(w, k, v) / 2 == SetBit(w / 2, k - 1, v);
    } else if k == 0 && j > 0 {
      assert SetBit(w, k, v) / 2 == w / 2;
    }
  }

  function Pow2(n: nat): (r: nat)
    ensures r > 0
  {
    if n == 0 then 1 else 2 * Pow2(n - 1)
  }

  lemma {:induction false} SetBitFits(w: nat, k: nat, v: bool, n: nat)
    requires w < Pow2(n) && k < n
    ensures SetBit(w, k, v) < Pow2(n)
  {
    var half := Pow2(n - 1);
    assert Pow2(n) == 2 * half && w / 2 < half;
    if k > 0 {
      SetBitFits(w / 2, k - 1, v, n - 1);
      assert SetBit(w / 2, k - 1, v) + 1 <= half;
    }
    hide Pow2;
  }

  lemma Pow2Byte(n: nat)
    ensures Pow2(n + 8) == 256 * Pow2(n)
  {
    assert Pow2(n + 2) == 4 * Pow2(n);
    assert Pow2(n + 4) == 4 * Pow2(n + 2);
    assert Pow2(n + 6) == 4 * Pow2(n + 4);
  }

  lemma WordBits()
    ensures Pow2(32) == 0x1_0000_0000
  {
    Pow2Byte(0);
    Pow2Byte(8);
    Pow2Byte(16);
    Pow2Byte(24);
  }

  function SetWordBit(w: Word32, k: nat, v: bool): (r: Word32)
    requires k < 32
    ensures forall j: nat :: GetBit(r, j) == if j == k then v else GetBit(w, j)
  {
    WordBits();
    SetBitFits(w, k, v, 32);
    assert forall j: nat :: GetBit(SetBit(w, k, v), j) == (if j == k then v else GetBit(w, j)) by {
      forall j: nat ensures GetBit(SetBit(w, k, v), j) == if j == k then v else GetBit(w, j) {
        GetSetBit(w, k, v, j);
      }
    }
    SetBit(w, k, v)
  }

  // ---------------------------------------------------------------- the free-block bitmap

  /** The bitmap starts in block 2; bit b of it is set when block b is free. */
  function BitmapBlock(b: nat): nat {
    2 + b / 32768
  }

  function BitmapWord(b: nat): nat {
    b / 32 % 1024
  }

  /** The first block after the bitmap: block 0, the super-block and the bitmap are reserved. */
  function Reserved(n: nat): nat {
    2 + (n + 32767) / 32768
  }

  predicate Roomy(img: Image) {
    Reserved(|img|) <= |img|
  }

  lemma BitmapFits(n: nat, b: nat)
    requires b < n
    ensures 2 <= BitmapBlock(b) < Reserved(n) && BitmapWord(b) < 1024
  {
  }

  predicate IsFree(img: Image, b: nat)
    requires Roomy(img) && b < |img|
  {
    BitmapFits(|img|, b);
    GetBit(img[BitmapBlock(b)][BitmapWord(b)], b % 32)
  }

  /** The image with the bit of block b set or cleared. */
  function Mark(img: Image, b: nat, free: bool): (r: Image)
    requires Roomy(img) && b < |img|
    ensures |r| == |img|
    ensures forall c :: 0 <= c < |img| && c != BitmapBlock(b) ==> r[c] == img[c]
    ensures forall c: nat :: c < |img| ==> IsFree(r, c) == if c == b then free else IsFree(img, c)
  {
    BitmapFits(|img|, b);
    var blk := img[BitmapBlock(b)];
    var r := img[BitmapBlock(b) := blk[BitmapWord(b) := SetWordBit(blk[BitmapWord(b)], b % 32, free)]];
    assert forall c: nat :: c < |img| ==> IsFree(r, c) == (if c == b then free else IsFree(img, c)) by {
      forall c: nat | c < |img| ensures IsFree(r, c) == if c == b then free else IsFree(img, c) {
        SameBit(b, c);
        BitmapFits(|img|, c);
      }
    }
    r
  }

  lemma SameBit(b: nat, c: nat)
    ensures BitmapBlock(b) == BitmapBlock(c) && BitmapWord(b) == BitmapWord(c) && b % 32 == c % 32 ==> b == c
  {
    assert b / 32 / 1024 == b / 32768 && c / 32 / 1024 == c / 32768;
  }

  /** alloc_block looks for the lowest free block. */
  ghost predicate LowestFree(img: Image, b: nat)
    requires Roomy(img)
  {
    b < |img| && IsFree(img, b) && forall c: nat :: c < b ==> !IsFree(img, c)
  }

  ghost predicate DiskFull(img: Image)
    requires Roomy(img)
  {
    forall c: nat :: c < |img| ==> !IsFree(img, c)
  }
}
