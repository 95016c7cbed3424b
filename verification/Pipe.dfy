/** lib/pipe.c's buffer: one reader and one writer, interleaved at every access to the shared page. */
module Pipe {
  datatype WriterPc = CheckRoom | StoreByte | BumpWpos
  datatype ReaderPc = CheckData | TakeByte | BumpRpos

  /** The shared page, where each side is and the byte it has in hand, and what has been written and read so far. */
  datatype Pipe = Pipe(rpos: nat, wpos: nat, buf: seq<int>, wpc: WriterPc, rpc: ReaderPc, out: int, inp: int,
                       written: seq<int>, read: seq<int>)

  datatype Step = Writer(byte: int) | Reader

  function Empty(): Pipe {
    Pipe(0, 0, seq(32, i => 0), CheckRoom, CheckData, 0, 0, [], [])
  }

  /** One access by devpipe_write, whose next byte is b, or by devpipe_read. A side that finds the pipe full or empty
      looks again. */
  function Next(p: Pipe, s: Step): Pipe
    requires |p.buf| == 32
  {
    match s
    case Writer(b) =>
      (match p.wpc
       case CheckRoom => if p.wpos >= p.rpos + 32 then p else p.(wpc := StoreByte, out := b)
       case StoreByte => p.(wpc := BumpWpos, buf := p.buf[p.wpos % 32 := p.out])
       case BumpWpos => p.(wpc := CheckRoom, wpos := p.wpos + 1, written := p.written + [p.out]))
    case Reader =>
      (match p.rpc
       case CheckData => if p.rpos == p.wpos then p else p.(rpc := TakeByte)
       case TakeByte => p.(rpc := BumpRpos, inp := p.buf[p.rpos % 32])
       case BumpRpos => p.(rpc := CheckData, rpos := p.rpos + 1, read := p.read + [p.inp]))
  }

  function Run(p: Pipe, steps: seq<Step>): (r: Pipe)
    requires |p.buf| == 32
    ensures |r.buf| == 32
    decreases |steps|
  {
    if steps == [] then p else Next(Run(p, steps[..|steps| - 1]), steps[|steps| - 1])
  }

  ghost predicate Inv(p: Pipe) {
    && |p.buf| == 32 && |p.written| == p.wpos && |p.read| == p.rpos
    && p.rpos <= p.wpos <= p.rpos + 32
    && p.read == p.written[..p.rpos]
    && (forall k: nat :: p.rpos <= k < p.wpos ==> p.buf[k % 32] == p.written[k])
    && (!p.wpc.CheckRoom? ==> p.wpos < p.rpos + 32)
    && (p.wpc.BumpWpos? ==> p.buf[p.wpos % 32] == p.out)
    && (!p.rpc.CheckData? ==> p.rpos < p.wpos)
    && (p.rpc.BumpRpos? ==> p.inp == p.written[p.rpos])
  }

  /** Two positions less than a buffer apart have different places in it. */
  lemma Places(j: nat, k: nat)
    requires j < k < j + 32
    ensures j % 32 != k % 32
  {
  }

  lemma NextKeeps(p: Pipe, s: Step)
    requires Inv(p)
    ensures Inv(Next(p, s))
  {
    forall k: nat | p.rpos <= k < p.wpos && p.wpos < p.rpos + 32 ensures k % 32 != p.wpos % 32 {
      Places(k, p.wpos);
    }
  }

  lemma {:induction false} RunKeeps(steps: seq<Step>)
    ensures Inv(Run(Empty(), steps))
    decreases |steps|
  {
    if steps != [] {
      RunKeeps(steps[..|steps| - 1]);
      NextKeeps(Run(Empty(), steps[..|steps| - 1]), steps[|steps| - 1]);
    }
  }

  /** First in, first out, whatever the interleaving: what has been read is a prefix of what has been written, and
      at most 32 bytes are in between. */
  lemma Fifo(steps: seq<Step>)
    ensures var p := Run(Empty(), steps);
      && p.read <= p.written
      && 0 <= p.wpos - p.rpos <= 32
      && p.wpos == |p.written| && p.rpos == |p.read|
  {
    RunKeeps(steps);
  }

  // ---------------------------------------------------------------- positions in 32 bits

  /** A position in 32 bits, as an off_t, and its remainder by PIPEBUFSIZ, which has its sign. */
  function Low(pos: nat): (low: nat)
    ensures low < 0x1_0000_0000
  {
    pos % 0x1_0000_0000
  }

  function Off(low: nat): int {
    if low < 0x8000_0000 then low else low - 0x1_0000_0000
  }

  function Index(low: nat): int {
    if Off(low) >= 0 then Off(low) % 32 else -(-Off(low) % 32)
  }

  lemma LowPlace(pos: nat)
    ensures Low(pos) % 32 == pos % 32
  {
    var q := pos / 0x1_0000_0000;
    assert pos == 0x800_0000 * q * 32 + Low(pos);
    SamePlace(0x800_0000 * q, Low(pos));
  }

  lemma SamePlace(k: nat, d: nat)
    ensures (k * 32 + d) % 32 == d % 32
  {
  }

  lemma NegativeIndex(k: nat, d: nat)
    requires d < 32 && 32 * k >= d
    ensures (32 * k - d) % 32 == if d == 0 then 0 else 32 - d
  {
    if d > 0 {
      assert 32 * k - d == 32 * (k - 1) + (32 - d);
    }
  }

  /** The index into p_buf is the one of this model if and only if the position is not negative as an off_t or is a
      multiple of the buffer's size; otherwise it lies before the buffer. */
  lemma IndexExact(pos: nat)
    ensures Index(Low(pos)) == pos % 32 <==> Low(pos) < 0x8000_0000 || pos % 32 == 0
    ensures Index(Low(pos)) == pos % 32 || -32 < Index(Low(pos)) < 0
  {
    hide Low;
    LowPlace(pos);
    var low := Low(pos);
    if low >= 0x8000_0000 {
      var k: nat, d: nat := low / 32, low % 32;
      assert -Off(low) == 32 * (0x800_0000 - k) - d;
      NegativeIndex(0x800_0000 - k, d);
    }
  }

  lemma SmallLow(pos: nat)
    requires pos <= 0x8000_0000
    ensures Low(pos) == pos && Low(pos + 32) == pos + 32
    ensures Index(pos) == pos % 32
  {
  }

  /** So up to 2^31 bytes every access and both tests, the one for room in unsigned arithmetic, are those of this
      model. */
  lemma FitsInOff(steps: seq<Step>)
    ensures var p := Run(Empty(), steps);
      |p.written| <= 0x8000_0000 ==>
        && Index(Low(p.wpos)) == p.wpos % 32 && Index(Low(p.rpos)) == p.rpos % 32
        && (Off(Low(p.rpos)) == Off(Low(p.wpos)) <==> p.rpos == p.wpos)
        && (Low(p.wpos) >= Low(Low(p.rpos) + 32) <==> p.wpos >= p.rpos + 32)
  {
    hide Low, Index;
    RunKeeps(steps);
    var p := Run(Empty(), steps);
    if |p.written| <= 0x8000_0000 {
      SmallLow(p.wpos);
      SmallLow(p.rpos);
    }
  }

  /** n bytes written and read one after the other. */
  function Transfers(n: nat): seq<Step> {
    if n == 0 then [] else Thrice(Thrice(Transfers(n - 1), Writer(0)), Reader)
  }

  function Thrice(steps: seq<Step>, s: Step): seq<Step> {
    steps + [s] + [s] + [s]
  }

  lemma RunOn(p: Pipe, steps: seq<Step>, s: Step)
    requires |p.buf| == 32
    ensures Run(p, steps + [s]) == Next(Run(p, steps), s)
  {
    assert (steps + [s])[..|steps|] == steps;
  }

  /** An empty pipe that nobody is working on. */
  predicate AtRest(p: Pipe, n: nat) {
    |p.buf| == 32 && p.wpos == n && p.rpos == n && p.wpc.CheckRoom? && p.rpc.CheckData?
  }

  lemma Written(p: Pipe, n: nat)
    requires AtRest(p, n)
    ensures var p' := Next(Next(Next(p, Writer(0)), Writer(0)), Writer(0));
      |p'.buf| == 32 && p'.wpos == n + 1 && p'.rpos == n && p'.wpc.CheckRoom? && p'.rpc.CheckData?
  {
  }

  lemma ReadBack(p: Pipe, n: nat)
    requires |p.buf| == 32 && p.wpos == n + 1 && p.rpos == n && p.wpc.CheckRoom? && p.rpc.CheckData?
    ensures AtRest(Next(Next(Next(p, Reader), Reader), Reader), n + 1)
  {
  }

  lemma RunThree(p: Pipe, steps: seq<Step>, s: Step)
    requires |p.buf| == 32
    ensures Run(p, Thrice(steps, s)) == Next(Next(Next(Run(p, steps), s), s), s)
  {
    hide Run, Next;
    RunOn(p, steps, s);
    RunOn(p, steps + [s], s);
    RunOn(p, steps + [s] + [s], s);
  }

  /** Every position is reached. */
  lemma {:induction false} Reaches(n: nat)
    ensures AtRest(Run(Empty(), Transfers(n)), n)
  {
    hide Run, Next, AtRest, Thrice;
    if n == 0 {
      RestsFirst();
    } else {
      Reaches(n - 1);
      var a := Transfers(n - 1);
      RunThree(Empty(), a, Writer(0));
      RunThree(Empty(), Thrice(a, Writer(0)), Reader);
      AfterOne(Run(Empty(), a), n - 1);
    }
  }

  lemma RestsFirst()
    ensures AtRest(Run(Empty(), []), 0)
  {
  }

  lemma AfterOne(p: Pipe, n: nat)
    requires AtRest(p, n)
    ensures var q := Next(Next(Next(p, Writer(0)), Writer(0)), Writer(0));
      |q.buf| == 32 && AtRest(Next(Next(Next(q, Reader), Reader), Reader), n + 1)
  {
    Written(p, n);
    hide Next;
    ReadBack(Next(Next(Next(p, Writer(0)), Writer(0)), Writer(0)), n);
  }

  /** So for every n there is a run after which the next byte has position n, and goes to its place in the buffer
      exactly as IndexExact says: not after 2^31 + 1 bytes, for one. */
  lemma WritesAt(n: nat)
    ensures var p := Run(Empty(), Transfers(n));
      p.wpos == n && (Index(Low(p.wpos)) == p.wpos % 32 <==> Low(n) < 0x8000_0000 || n % 32 == 0)
    ensures !(Low(0x8000_0001) < 0x8000_0000 || 0x8000_0001 % 32 == 0)
  {
    hide Run, Transfers, Index;
    Reaches(n);
    IndexExact(n);
  }
}
