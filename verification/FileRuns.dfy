/** Runs of the file server: every answer is the one that plain byte arrays give. */
module FileRuns {
  import opened FsImage
  import opened FsOwn
  import opened FsOps
  import opened BlockCache
  import opened FileServer
  import opened FileWrite

  datatype Request =
    | Read(f: Loc, count: nat, offset: nat)
    | Write(f: Loc, data: seq<Byte>, offset: nat)
    | SetSize(f: Loc, size: nat)
    | Flush(f: Loc)
    | Sync

  /** What file_read and file_write return, with the bytes read. */
  datatype Response = Bytes(r: int, buf: seq<Byte>) | Result(r: int) | Done

  /** Requests are for regular files, with sizes that fit a signed 32-bit off_t after rounding. */
  ghost predicate Proper(t: Tree, q: Request) {
    match q
    case Read(f, count, offset) => Regular(t, f)
    case Write(f, data, offset) => Regular(t, f) && offset + |data| <= 0x7FFF_F000
    case SetSize(f, size) => Regular(t, f) && size <= 0x7FFF_F000
    case Flush(f) => Regular(t, f)
    case Sync => true
  }

  // ---------------------------------------------------------------- plain files

  /** A file without blocks: a size, and a byte for every position. */
  datatype Plain = Plain(size: nat, bytes: nat -> Byte)

  type Plains = map<Loc, Plain>

  ghost function PlainsOf(img: Image, t: Tree): Plains {
    map g | g in t.files && Regular(t, g) :: Plain(SizeOf(img, g), (pos: nat) => ByteAt(img, g, pos))
  }

  function WrittenByte(was: Byte, data: seq<Byte>, offset: nat, done: nat, pos: nat): Byte {
    if offset <= pos < offset + done && pos < offset + |data| then data[pos - offset] else was
  }

  /** A write of which done bytes were written; the file grows for all of them. */
  ghost function PlainWrite(p: Plain, data: seq<Byte>, offset: nat, done: nat): Plain {
    Plain(Max(p.size, offset + |data|), (pos: nat) => WrittenByte(p.bytes(pos), data, offset, done, pos))
  }

  function KeptByte(was: Byte, size: nat, size': nat, pos: nat): Byte {
    if NBlocks(size') <= pos / 4096 < NBlocks(size) then 0 else was
  }

  /** Shrinking clears what lies past the last block that is kept. */
  ghost function PlainResize(p: Plain, size: nat): Plain {
    Plain(size, (pos: nat) => KeptByte(p.bytes(pos), p.size, size, pos))
  }

  ghost function PlainStep(ps: Plains, q: Request, done: nat): Plains {
    match q
    case Write(f, data, offset) => if f in ps then ps[f := PlainWrite(ps[f], data, offset, done)] else ps
    case SetSize(f, size) => if f in ps then ps[f := PlainResize(ps[f], size)] else ps
    case _ => ps
  }

  /** The plain files after the first k requests. */
  ghost function PlainRun(ps: Plains, requests: seq<Request>, done: seq<nat>, k: nat): Plains
    requires k <= |requests| && k <= |done|
  {
    if k == 0 then ps else PlainStep(PlainRun(ps, requests, done, k - 1), requests[k - 1], done[k - 1])
  }

  /** buf is what the file holds at offset. */
  ghost predicate Holds(p: Plain, offset: nat, buf: seq<Byte>) {
    forall k: nat :: k < |buf| ==> buf[k] == p.bytes(offset + k)
  }

  /** An operation stopped after done bytes, at the largest size a file can have or for lack of a free block. */
  predicate Stopped(r: int, offset: nat, done: nat) {
    (r == -E_INVAL && offset + done >= 1034 * 4096) || r == -E_NO_DISK
  }

  /** The answer that plain files give. */
  ghost predicate Answers(ps: Plains, q: Request, a: Response, done: nat) {
    match q
    case Read(f, count, offset) =>
      && f in ps && a.Bytes? && Holds(ps[f], offset, a.buf)
      && (if a.r < 0 then Stopped(a.r, offset, |a.buf|)
          else a.r == |a.buf| == if offset >= ps[f].size then 0 else Min(count, ps[f].size - offset))
    case Write(f, data, offset) =>
      f in ps && a.Result? && done <= |data| && if a.r < 0 then Stopped(a.r, offset, done) else a.r == done == |data|
    case SetSize(f, size) => a == Result(0)
    case _ => a == Done
  }

  // ---------------------------------------------------------------- the server's files and the plain ones

  /** The files in the image are the plain ones. */
  ghost predicate Shows(img: Image, t: Tree, ps: Plains) {
    && (forall g: Loc :: g in ps <==> Regular(t, g))
    && (forall g: Loc :: g in ps ==> ps[g].size == SizeOf(img, g))
    && (forall g: Loc, pos: nat :: g in ps ==> ps[g].bytes(pos) == ByteAt(img, g, pos))
  }

  lemma ShowsStart(img: Image, t: Tree)
    ensures Shows(img, t, PlainsOf(img, t))
  {
    hide SizeOf, ByteAt;
  }

  lemma ShowsSame(img: Image, img': Image, t: Tree, ps: Plains)
    requires Shows(img, t, ps) && SameFiles(img, img', t)
    ensures Shows(img', t, ps)
  {
    hide SizeOf, ByteAt;
  }

  lemma ShowsWrite(img: Image, img': Image, t: Tree, ps: Plains, f: Loc, data: seq<Byte>, offset: nat, done: nat)
    requires Shows(img, t, ps) && Regular(t, f) && done <= |data| && Wrote(img, img', t, f, offset, data[..done])
    requires forall g: Loc :: g in t.files ==>
               SizeOf(img', g) == if g == f then Max(SizeOf(img, g), offset + |data|) else SizeOf(img, g)
    ensures Shows(img', t, PlainStep(ps, Write(f, data, offset), done))
  {
    hide SizeOf, ByteAt, Max;
    var ps' := PlainStep(ps, Write(f, data, offset), done);
    forall g: Loc, pos: nat | g in ps' ensures ps'[g].bytes(pos) == ByteAt(img', g, pos) {
      assert ps[g].bytes(pos) == ByteAt(img, g, pos);
    }
  }

  lemma ShowsResize(img: Image, img': Image, t: Tree, ps: Plains, f: Loc, size: nat)
    requires Shows(img, t, ps) && Regular(t, f) && Resized(img, img', t, f, size)
    ensures Shows(img', t, PlainStep(ps, SetSize(f, size), 0))
  {
    hide SizeOf, ByteAt, NBlocks, FsOk, Val, InCut;
    var ps' := PlainStep(ps, SetSize(f, size), 0);
    MoreBlocks(SizeOf(img, f), size);
    forall g: Loc, pos: nat | g in ps' ensures ps'[g].bytes(pos) == ByteAt(img', g, pos) {
      assert ps[g].bytes(pos) == ByteAt(img, g, pos);
    }
  }

  lemma MoreBlocks(a: nat, b: nat)
    ensures a <= b ==> NBlocks(a) <= NBlocks(b)
  {
  }

  lemma ReadHolds(img: Image, t: Tree, ps: Plains, f: Loc, offset: nat, buf: seq<Byte>)
    requires Shows(img, t, ps) && Regular(t, f) && buf == BytesOf(img, f, offset, |buf|)
    ensures f in ps && Holds(ps[f], offset, buf) && ps[f].size == SizeOf(img, f)
  {
    hide SizeOf, ByteAt;
    forall k: nat | k < |buf| ensures buf[k] == ps[f].bytes(offset + k) {
      assert buf[k] == ByteAt(img, f, offset + k);
    }
  }

  /** One request. */
  method ServeOne(c: Cache, q: Request, ghost t: Tree, ghost ps: Plains) returns (a: Response, ghost done: nat)
    requires c.Coherent() && FsOk(c.Img(), t) && Sized(c.Img(), t) && Proper(t, q) && Shows(c.Img(), t, ps)
    modifies c
    ensures c.Coherent() && FsOk(c.Img(), t) && Sized(c.Img(), t)
    ensures Answers(ps, q, a, done) && Shows(c.Img(), t, PlainStep(ps, q, done))
  {
    hide FsOk, Sized, SizeOf, ByteAt, BytesOf, Wrote, BlockNo, Val, SameFiles, DiskFull, Shows, Resized, Holds;
    ghost var img := c.Img();
    done := 0;
    match q {
      case Read(f, count, offset) =>
        var r, buf := FileRead(c, f, count, offset, t);
        ReadHolds(img, t, ps, f, offset, buf);
        ShowsSame(img, c.Img(), t, ps);
        a := Bytes(r, buf);
      case Write(f, data, offset) =>
        var r;
        r, done := FileWrite.FileWrite(c, f, data, offset, t);
        ShowsWrite(img, c.Img(), t, ps, f, data, offset, done);
        InPlains(img, t, ps, f);
        a := Result(r);
      case SetSize(f, size) =>
        var r := FileSetSize(c, f, size, t);
        ShowsResize(img, c.Img(), t, ps, f, size);
        ResizedOk(img, c.Img(), t, f, size);
        a := Result(r);
      case Flush(f) =>
        FileFlush(c, f, t);
        a := Done;
      case Sync =>
        c.Sync();
        a := Done;
    }
  }

  lemma InPlains(img: Image, t: Tree, ps: Plains, f: Loc)
    requires Shows(img, t, ps) && Regular(t, f)
    ensures f in ps
  {
  }

  lemma ResizedOk(img: Image, img': Image, t: Tree, f: Loc, size: nat)
    requires Resized(img, img', t, f, size)
    ensures FsOk(img', t)
  {
  }

  /** Each of the answers so far is the one that plain files give after the requests before it. */
  ghost predicate AllAnswered(ps: Plains, requests: seq<Request>, answers: seq<Response>, done: seq<nat>) {
    && |answers| == |done| <= |requests|
    && forall k: nat :: k < |answers| ==> Answers(PlainRun(ps, requests, done, k), requests[k], answers[k], done[k])
  }

  /** Any sequence of requests: each answer is the one that plain files give after the requests before it, done saying
      how much of a write that fails was written. In every state the cache is coherent, the bitmap and the pointers
      agree exactly, and no file has blocks past its size. */
  method Serve(c: Cache, requests: seq<Request>, ghost t: Tree) returns (answers: seq<Response>, ghost done: seq<nat>)
    requires c.Coherent() && FsOk(c.Img(), t) && Sized(c.Img(), t)
    requires forall q :: q in requests ==> Proper(t, q)
    modifies c
    ensures c.Coherent() && FsOk(c.Img(), t) && Sized(c.Img(), t)
    ensures |answers| == |done| == |requests|
    ensures AllAnswered(PlainsOf(old(c.Img()), t), requests, answers, done)
    ensures Shows(c.Img(), t, PlainRun(PlainsOf(old(c.Img()), t), requests, done, |requests|))
  {
    hide FsOk, Sized, Shows, AllAnswered, PlainRun, Proper, PlainsOf;
    ghost var ps := PlainsOf(c.Img(), t);
    ShowsStart(c.Img(), t);
    answers, done := [], [];
    NoneAnswered(ps, requests);
    var i := 0;
    while i < |requests|
      invariant i <= |requests| && |answers| == |done| == i
      invariant c.Coherent() && FsOk(c.Img(), t) && Sized(c.Img(), t)
      invariant AllAnswered(ps, requests, answers, done) && Shows(c.Img(), t, PlainRun(ps, requests, done, i))
    {
      assert requests[i] in requests;
      var a;
      ghost var n;
      a, n := ServeOne(c, requests[i], t, PlainRun(ps, requests, done, i));
      OneAnswered(ps, requests, answers, done, a, n);
      answers, done := answers + [a], done + [n];
      i := i + 1;
    }
  }

  lemma NoneAnswered(ps: Plains, requests: seq<Request>)
    ensures AllAnswered(ps, requests, [], []) && PlainRun(ps, requests, [], 0) == ps
  {
  }

  lemma OneAnswered(ps: Plains, requests: seq<Request>, answers: seq<Response>, done: seq<nat>, a: Response, n: nat)
    requires AllAnswered(ps, requests, answers, done) && |answers| < |requests|
    requires Answers(PlainRun(ps, requests, done, |done|), requests[|done|], a, n)
    ensures AllAnswered(ps, requests, answers + [a], done + [n])
    ensures PlainRun(ps, requests, done + [n], |done| + 1) ==
            PlainStep(PlainRun(ps, requests, done, |done|), requests[|done|], n)
  {
    hide Answers, PlainStep;
    forall k: nat | k <= |done| ensures PlainRun(ps, requests, done + [n], k) == PlainRun(ps, requests, done, k) {
      RunAgain(ps, requests, done, n, k);
    }
  }

  lemma {:induction false} RunAgain(ps: Plains, requests: seq<Request>, done: seq<nat>, n: nat, k: nat)
    requires k <= |requests| && k <= |done|
    ensures PlainRun(ps, requests, done + [n], k) == PlainRun(ps, requests, done, k)
  {
    hide PlainStep;
    if k > 0 {
      RunAgain(ps, requests, done, n, k - 1);
    }
  }
}
