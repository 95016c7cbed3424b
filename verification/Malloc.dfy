/** lib/malloc.c: chunks laid out in page-sized runs, with a reference count in the last word of each run. */
module Malloc {
  /** Page numbers of mbegin and mend. */
  const FIRST: nat := 0x8000
  const END: nat := 0x10000

  const MAXMALLOC: nat := 0x100000

  datatype Block = Block(v: nat, n: nat) {
    function First(): nat { v / 4096 }

    /** The page whose last word counts this block: the block and a count word fit up to there. */
    function Last(): nat { (v + n + 3) / 4096 }
  }

  /** The pages that malloc has mapped, with their PTE_CONTINUED bits. */
  type Pages = map<nat, bool>

  type Live = map<nat, Block>

  /** The live blocks that are counted in page p. */
  function Ending(live: Live, p: nat): set<nat> {
    set id | id in live && live[id].Last() == p
  }

  /** A block's pages are mapped, all but the last are continued, and the last word of the last is not in the block. */
  ghost predicate BlockOk(b: Block, pages: Pages) {
    && b.Last() < END
    && b.v + b.n + 4 <= 4096 * (b.Last() + 1)
    && (b.First() < b.Last() ==> b.v % 4096 == 0)
    && (forall p: nat :: b.First() <= p <= b.Last() ==> p in pages && (pages[p] <==> p < b.Last()))
  }

  /** The bytes of two blocks do not overlap, and they have at most an end page in common. */
  predicate Separate(b: Block, c: Block) {
    && (b.v + b.n <= c.v || c.v + c.n <= b.v)
    && (b.Last() <= c.First() || c.Last() <= b.First())
  }

  /** The page that mptr points into the middle of. */
  predicate Open(mptr: nat, p: nat) {
    mptr % 4096 != 0 && mptr / 4096 == p
  }

  ghost predicate AllOk(live: Live, pages: Pages) {
    forall id :: id in live ==> BlockOk(live[id], pages)
  }

  ghost predicate AllSeparate(live: Live) {
    forall i, j :: i in live && j in live && i != j ==> Separate(live[i], live[j])
  }

  /** Each page that ends a run counts its live blocks, and one more while it is open. A run of whole pages leaves mptr
      at the start of its last page, where the next call does not look: such a page keeps that reference for good, and
      is in stuck. */
  ghost predicate CountsOk(live: Live, pages: Pages, refs: map<nat, nat>, mptr: nat, stuck: set<nat>) {
    && (forall p :: p in pages ==> p < END)
    && (forall p :: p in stuck ==> p in pages && !pages[p] && !Open(mptr, p))
    && (forall p :: p in pages && !pages[p] ==>
          p in refs && refs[p] > 0 && refs[p] == |Ending(live, p)| + if Open(mptr, p) || p in stuck then 1 else 0)
  }

  /** The open page is mapped, has room for its count, and its blocks lie below mptr. */
  ghost predicate OpenOk(live: Live, pages: Pages, mptr: nat) {
    mptr % 4096 != 0 ==>
      && mptr / 4096 in pages && !pages[mptr / 4096] && mptr + 4 <= 4096 * (mptr / 4096 + 1)
      && (forall id :: id in live && live[id].Last() == mptr / 4096 ==> live[id].v + live[id].n <= mptr)
  }

  /** One past the last address. */
  const TOP: nat := 0x1_0000_0000

  ghost predicate Sound(live: Live, pages: Pages, refs: map<nat, nat>, mptr: nat, stuck: set<nat>) {
    AllOk(live, pages) && AllSeparate(live) && CountsOk(live, pages, refs, mptr, stuck) && OpenOk(live, pages, mptr)
  }

  ghost predicate HeapOk(live: Live, pages: Pages, refs: map<nat, nat>, mptr: nat, stuck: set<nat>) {
    Sound(live, pages, refs, mptr, stuck) && mptr < TOP
  }

  /** From mbegin up to mend. */
  predicate Inside(a: nat) {
    4096 * FIRST <= a < 4096 * END
  }

  // ---------------------------------------------------------------- what the invariant means

  /** A byte of a live block is mapped, is in no other live block and in no count word; and every count is the number of
      live blocks counted there, and one more for the open page and the stuck ones. */
  lemma BlockSafe(live: Live, pages: Pages, refs: map<nat, nat>, mptr: nat, stuck: set<nat>, id: nat, a: nat)
    requires HeapOk(live, pages, refs, mptr, stuck) && id in live && live[id].v <= a < live[id].v + live[id].n
    ensures a / 4096 in pages
    ensures !pages[a / 4096] ==> a < 4096 * (a / 4096 + 1) - 4
    ensures forall j :: j in live && j != id ==> !(live[j].v <= a < live[j].v + live[j].n)
    ensures forall p :: p in pages && !pages[p] ==>
              p in refs && refs[p] == |Ending(live, p)| + if Open(mptr, p) || p in stuck then 1 else 0
  {
    var b := live[id];
    assert BlockOk(b, pages);
    assert b.First() <= a / 4096 <= b.Last();
  }

  // ---------------------------------------------------------------- single changes

  /** Adding a block to the counts of its last page. */
  lemma EndingAdd(live: Live, id: nat, b: Block, p: nat)
    requires id !in live
    ensures Ending(live[id := b], p) == if b.Last() == p then Ending(live, p) + {id} else Ending(live, p)
  {
  }

  lemma EndingDrop(live: Live, id: nat, p: nat)
    requires id in live
    ensures Ending(live - {id}, p) == Ending(live, p) - {id}
    ensures live[id].Last() == p ==> id in Ending(live, p)
  {
  }

  /** Dropping one reference of page p, and unmapping it with the last one. */
  function DropPages(pages: Pages, refs: map<nat, nat>, p: nat): Pages {
    if p in refs && refs[p] == 1 then pages - {p} else pages
  }

  function DropRefs(refs: map<nat, nat>, p: nat): map<nat, nat> {
    if p in refs && refs[p] > 0 then refs[p := refs[p] - 1] else refs
  }

  /** The reference of mptr's own page is dropped and mptr moves to the start of the next page. */
  lemma MoveOn(live: Live, pages: Pages, refs: map<nat, nat>, mptr: nat, stuck: set<nat>)
    requires Sound(live, pages, refs, mptr, stuck) && mptr % 4096 != 0
    ensures var p := mptr / 4096;
      Sound(live, DropPages(pages, refs, p), DropRefs(refs, p), 4096 * (p + 1), stuck)
  {
    var p := mptr / 4096;
    var pages' := DropPages(pages, refs, p);
    assert 4096 * (p + 1) % 4096 == 0;
    assert Open(mptr, p) && p in pages && !pages[p];
    MoveCounts(live, pages, refs, mptr, stuck, p);
    if refs[p] == 1 {
      assert |Ending(live, p)| == 0;
      hide CountsOk, OpenOk;
      forall id | id in live ensures BlockOk(live[id], pages') {
        assert BlockOk(live[id], pages);
        assert id !in Ending(live, p);
      }
    }
  }

  lemma MoveCounts(live: Live, pages: Pages, refs: map<nat, nat>, mptr: nat, stuck: set<nat>, p: nat)
    requires CountsOk(live, pages, refs, mptr, stuck) && Open(mptr, p) && p in pages && !pages[p]
    ensures CountsOk(live, DropPages(pages, refs, p), DropRefs(refs, p), 4096 * (p + 1), stuck)
  {
    assert 4096 * (p + 1) % 4096 == 0;
    hide Ending;
  }

  /** A block is taken out of the count of its last page. */
  lemma Forget(live: Live, pages: Pages, refs: map<nat, nat>, mptr: nat, stuck: set<nat>, id: nat)
    requires HeapOk(live, pages, refs, mptr, stuck) && id in live
    ensures var b := live[id];
      var p := b.Last();
      HeapOk(live - {id}, DropPages(WithoutRun(pages, b), refs, p), DropRefs(refs, p), mptr, stuck)
  {
    var b := live[id];
    var p := b.Last();
    var live' := live - {id};
    var run := WithoutRun(pages, b);
    var pages' := DropPages(run, refs, p);
    assert BlockOk(b, pages);
    EndingDrop(live, id, p);
    forall q ensures Ending(live', q) == Ending(live, q) - {id} {
      EndingDrop(live, id, q);
    }
    assert |Ending(live', p)| == |Ending(live, p)| - 1;
    forall i | i in live' ensures BlockOk(live'[i], pages') {
      StillOk(live, pages, refs, mptr, stuck, id, i);
    }
    ForgetCounts(live, pages, refs, mptr, stuck, id);
  }

  function Without(pages: Pages, s: nat, e: nat): Pages {
    map p | p in pages && !(s <= p < e) :: pages[p]
  }

  /** The pages without the continued pages of a block. */
  function WithoutRun(pages: Pages, b: Block): Pages {
    Without(pages, b.First(), b.Last())
  }

  lemma StillOk(live: Live, pages: Pages, refs: map<nat, nat>, mptr: nat, stuck: set<nat>, id: nat, i: nat)
    requires HeapOk(live, pages, refs, mptr, stuck) && id in live && i in live && i != id
    ensures BlockOk(live[i], DropPages(WithoutRun(pages, live[id]), refs, live[id].Last()))
  {
    var b, c := live[id], live[i];
    var p := b.Last();
    assert BlockOk(b, pages) && BlockOk(c, pages) && Separate(b, c);
    assert p in pages && !pages[p];
    assert b.First() < b.Last() ==> pages[b.First()] && !pages[c.Last()];
    if p in refs && refs[p] == 1 {
      OneLeft(live, p, id, i);
    }
    RunStays(c, b, pages, refs);
  }

  /** The page that counts a block goes with the last block counted there, unless it is open or stuck. */
  lemma GoesWithLast(live: Live, pages: Pages, refs: map<nat, nat>, mptr: nat, stuck: set<nat>, id: nat)
    requires HeapOk(live, pages, refs, mptr, stuck) && id in live
    ensures var p := live[id].Last();
      p !in DropPages(WithoutRun(pages, live[id]), refs, p) <==>
      Ending(live, p) == {id} && !Open(mptr, p) && p !in stuck
  {
    var p := live[id].Last();
    assert BlockOk(live[id], pages) && p in pages && !pages[p];
    assert id in Ending(live, p);
    assert |Ending(live, p) - {id}| == |Ending(live, p)| - 1;
    assert |Ending(live, p)| == 1 ==> Ending(live, p) - {id} == {};
  }

  lemma OneLeft(live: Live, p: nat, id: nat, i: nat)
    requires id in live && i in live && i != id && live[id].Last() == p && |Ending(live, p)| <= 1
    ensures live[i].Last() != p
  {
    assert id in Ending(live, p);
    assert |Ending(live, p) - {id}| == 0;
    assert i in Ending(live, p) ==> i in Ending(live, p) - {id};
  }

  lemma RunStays(c: Block, b: Block, pages: Pages, refs: map<nat, nat>)
    requires BlockOk(c, pages)
    requires b.First() < b.Last() ==> c.Last() < b.First() || b.Last() <= c.First()
    requires b.Last() in refs && refs[b.Last()] == 1 ==> !(c.First() <= b.Last() <= c.Last())
    ensures BlockOk(c, DropPages(WithoutRun(pages, b), refs, b.Last()))
  {
  }

  lemma ForgetCounts(live: Live, pages: Pages, refs: map<nat, nat>, mptr: nat, stuck: set<nat>, id: nat)
    requires HeapOk(live, pages, refs, mptr, stuck) && id in live
    ensures var b := live[id];
      var p := b.Last();
      var pages' := DropPages(WithoutRun(pages, b), refs, p);
      CountsOk(live - {id}, pages', DropRefs(refs, p), mptr, stuck) && OpenOk(live - {id}, pages', mptr)
  {
    var b := live[id];
    var p := b.Last();
    assert BlockOk(b, pages);
    assert p in pages && !pages[p];
    forall q ensures |Ending(live - {id}, q)| == |Ending(live, q)| - if q == p then 1 else 0 {
      EndingDrop(live, id, q);
    }
    var run := WithoutRun(pages, b);
    assert forall q :: q in run ==> q in pages && run[q] == pages[q];
    assert forall q :: q in pages && !pages[q] ==> q in run;
    hide WithoutRun, BlockOk, AllOk, AllSeparate, Ending;
    DropCounts(live, live - {id}, pages, run, refs, mptr, stuck, p);
    DropOpen(live, pages, run, refs, mptr, stuck, p, id);
  }

  lemma DropCounts(live: Live, live': Live, pages: Pages, run: Pages, refs: map<nat, nat>, mptr: nat, stuck: set<nat>,
                   p: nat)
    requires CountsOk(live, pages, refs, mptr, stuck) && p in pages && !pages[p]
    requires forall q :: q in run ==> q in pages && run[q] == pages[q]
    requires forall q :: q in pages && !pages[q] ==> q in run
    requires forall q :: |Ending(live', q)| == |Ending(live, q)| - if q == p then 1 else 0
    ensures CountsOk(live', DropPages(run, refs, p), DropRefs(refs, p), mptr, stuck)
  {
    hide Ending;
  }

  lemma DropOpen(live: Live, pages: Pages, run: Pages, refs: map<nat, nat>, mptr: nat, stuck: set<nat>, p: nat, id: nat)
    requires CountsOk(live, pages, refs, mptr, stuck) && OpenOk(live, pages, mptr) && p in pages && !pages[p]
    requires forall q :: q in pages && !pages[q] ==> q in run && !run[q]
    requires |Ending(live, p)| > 0
    ensures OpenOk(live - {id}, DropPages(run, refs, p), mptr)
  {
    hide Ending;
    if mptr % 4096 != 0 {
      assert Open(mptr, mptr / 4096);
    }
  }

  lemma AddBlock(live: Live, pages: Pages, pages': Pages, id: nat, b: Block)
    requires AllSeparate(live) && BlockOk(b, pages') && id !in live
    requires forall i :: i in live ==> BlockOk(live[i], pages') && Separate(live[i], b) && Separate(b, live[i])
    ensures AllOk(live[id := b], pages') && AllSeparate(live[id := b])
  {
    hide BlockOk, Separate;
  }

  lemma OpenEnds(live: Live, pages: Pages, mptr: nat, id: nat, n: nat)
    requires OpenOk(live, pages, mptr) && mptr % 4096 != 0 && (mptr + n + 3) / 4096 == mptr / 4096
    ensures OpenOk(live[id := Block(mptr, n)], pages, mptr + n)
  {
    OpenArith(mptr, n);
  }

  /** mptr is in the middle of a page that has room for n bytes and the count. */
  predicate Fits(mptr: nat, n: nat) {
    mptr % 4096 != 0 && (mptr + n + 3) / 4096 == mptr / 4096
  }

  function PageOf(a: nat): nat {
    a / 4096
  }

  /** A block at mptr that fits the open page with its count. */
  lemma AddOpen(live: Live, pages: Pages, refs: map<nat, nat>, mptr: nat, stuck: set<nat>, id: nat, n: nat)
    requires HeapOk(live, pages, refs, mptr, stuck) && Fits(mptr, n) && id !in live
    ensures mptr != 0 && PageOf(mptr) in refs
    ensures HeapOk(live[id := Block(mptr, n)], pages, refs[PageOf(mptr) := refs[PageOf(mptr)] + 1], mptr + n, stuck)
  {
    hide Block.First, Block.Last, BlockOk, Separate, AllOk, AllSeparate, CountsOk, Ending, Open, OpenOk;
    var p := mptr / 4096;
    var b := Block(mptr, n);
    var live' := live[id := b];
    OpenBelow(live, pages, refs, mptr, stuck);
    OpenBlock(live, pages, mptr, n);
    forall q ensures Ending(live', q) == if q == p then Ending(live, q) + {id} else Ending(live, q) {
      EndingAdd(live, id, b, q);
    }
    forall i | i in live ensures BlockOk(live[i], pages) && Separate(live[i], b) && Separate(b, live[i]) {
      OpenSeparate(live, pages, mptr, i, b);
    }
    AddBlock(live, pages, pages, id, b);
    OpenEnds(live, pages, mptr, id, n);
    AddOpenCounts(live, live', pages, refs, mptr, mptr + n, stuck, p, id);
    OpenArith(mptr, n);
  }

  lemma OpenBelow(live: Live, pages: Pages, refs: map<nat, nat>, mptr: nat, stuck: set<nat>)
    requires Sound(live, pages, refs, mptr, stuck) && mptr % 4096 != 0
    ensures mptr < 4096 * END
  {
  }

  lemma OpenBlock(live: Live, pages: Pages, mptr: nat, n: nat)
    requires OpenOk(live, pages, mptr) && mptr % 4096 != 0 && (mptr + n + 3) / 4096 == mptr / 4096
    requires mptr < 4096 * END
    ensures var b, p := Block(mptr, n), mptr / 4096;
      && b.First() == b.Last() == p && BlockOk(b, pages) && p in pages && !pages[p]
      && Open(mptr, p) && Open(mptr + n, p)
  {
    OpenArith(mptr, n);
  }

  lemma OpenArith(mptr: nat, n: nat)
    requires mptr % 4096 != 0 && (mptr + n + 3) / 4096 == mptr / 4096
    ensures (mptr + n) / 4096 == mptr / 4096 && (mptr + n) % 4096 != 0 && mptr + n + 4 <= 4096 * (mptr / 4096 + 1)
  {
  }

  lemma OpenStays(mptr: nat, n: nat)
    requires Fits(mptr, n)
    ensures 4096 * FIRST <= mptr < 4096 * END ==> 4096 * FIRST <= mptr + n < 4096 * END
  {
    OpenArith(mptr, n);
  }

  lemma OpenSeparate(live: Live, pages: Pages, mptr: nat, i: nat, b: Block)
    requires AllOk(live, pages) && OpenOk(live, pages, mptr) && mptr % 4096 != 0 && i in live
    requires b.v == mptr && b.First() == b.Last() == mptr / 4096
    ensures BlockOk(live[i], pages) && Separate(live[i], b) && Separate(b, live[i])
  {
    var c := live[i];
    var p := mptr / 4096;
    assert BlockOk(c, pages);
    assert c.First() <= p <= c.Last() ==> p == c.Last();
  }

  lemma AddOpenCounts(live: Live, live': Live, pages: Pages, refs: map<nat, nat>, mptr: nat, mptr': nat,
                      stuck: set<nat>, p: nat, id: nat)
    requires CountsOk(live, pages, refs, mptr, stuck) && id !in live && p in pages && !pages[p] && Open(mptr, p)
    requires Open(mptr', p)
    requires forall q :: Ending(live', q) == if q == p then Ending(live, q) + {id} else Ending(live, q)
    ensures p in refs && CountsOk(live', pages, refs[p := refs[p] + 1], mptr', stuck)
  {
  }

  // ---------------------------------------------------------------- a new run

  /** How many pages a chunk of n bytes and its count take. */
  function RunPages(n: nat): nat {
    (n + 4 + 4095) / 4096
  }

  /** k pages from s on are below mend and not malloc's. */
  predicate IsFree(pages: Pages, s: nat, k: nat) {
    forall q: nat :: s <= q < s + k ==> q < END && q !in pages
  }

  /** After i of the k pages of a run have been mapped. */
  function Mapped(pages: Pages, s: nat, k: nat, i: nat): Pages {
    if i == 0 then pages else Mapped(pages, s, k, i - 1)[s + i - 1 := i < k]
  }

  function WithRun(pages: Pages, s: nat, k: nat): (r: Pages)
    ensures forall p: nat :: p in r <==> p in pages || s <= p < s + k
    ensures forall p: nat :: p in r ==> r[p] == if s <= p < s + k then p + 1 < s + k else pages[p]
  {
    MappedIs(pages, s, k, k);
    Mapped(pages, s, k, k)
  }

  lemma {:induction false} MappedIs(pages: Pages, s: nat, k: nat, i: nat)
    ensures var r := Mapped(pages, s, k, i);
      && (forall p: nat :: p in r <==> p in pages || s <= p < s + i)
      && (forall p: nat :: p in r ==> r[p] == if s <= p < s + i then p + 1 < s + k else pages[p])
  {
    if i > 0 {
      MappedIs(pages, s, k, i - 1);
    }
  }

  /** The pages that have lost track of mptr's reference after a run of n bytes from page s. */
  function StuckAfter(stuck: set<nat>, s: nat, n: nat): set<nat> {
    if (4096 * s + n) % 4096 == 0 then stuck + {s + RunPages(n) - 1} else stuck
  }

  lemma AddRun(live: Live, pages: Pages, refs: map<nat, nat>, stuck: set<nat>, s: nat, id: nat, n: nat)
    requires HeapOk(live, pages, refs, 4096 * s, stuck) && id !in live && n % 4 == 0
    requires IsFree(pages, s, RunPages(n))
    ensures var k := RunPages(n);
      HeapOk(live[id := Block(4096 * s, n)], WithRun(pages, s, k), refs[s + k - 1 := 2], 4096 * s + n,
        StuckAfter(stuck, s, n))
  {
    hide BlockOk, Separate, Ending, WithRun, CountsOk, OpenOk, IsFree, StuckAfter, RunPages, Block.First, Block.Last;
    var k := RunPages(n);
    var b := Block(4096 * s, n);
    var live', pages', mptr' := live[id := b], WithRun(pages, s, k), 4096 * s + n;
    RunShape(s, n);
    RunBlock(pages, s, k, b);
    RunStuck(stuck, s, n);
    forall i | i in live ensures BlockOk(live[i], pages') && Separate(live[i], b) && Separate(b, live[i]) {
      RunSeparate(live[i], pages, s, k, b);
    }
    forall q ensures Ending(live', q) == if q == s + k - 1 then Ending(live, q) + {id} else Ending(live, q) {
      EndingAdd(live, id, b, q);
    }
    AddBlock(live, pages, pages', id, b);
    hide AllOk, AllSeparate;
    RunCounts(live, live', pages, refs, stuck, s, k, id, mptr');
    RunOpen(live, live', pages, s, k, id, b, mptr');
  }

  lemma RunStuck(stuck: set<nat>, s: nat, n: nat)
    ensures RunPages(n) >= 1
    ensures StuckAfter(stuck, s, n) == if (4096 * s + n) % 4096 == 0 then stuck + {s + RunPages(n) - 1} else stuck
  {
  }

  lemma RunBlock(pages: Pages, s: nat, k: nat, b: Block)
    requires IsFree(pages, s, k) && k >= 1 && b.v == 4096 * s && b.First() == s && b.Last() == s + k - 1
    requires b.v + b.n + 4 <= 4096 * (s + k)
    ensures BlockOk(b, WithRun(pages, s, k)) && s + k - 1 < END
  {
    assert s + k - 1 !in pages;
  }

  lemma RunShape(s: nat, n: nat)
    requires n % 4 == 0
    ensures var k, b := RunPages(n), Block(4096 * s, n);
      && k >= 1 && b.First() == s && b.Last() == s + k - 1 && b.v % 4096 == 0
      && 4096 * s + n + 4 <= 4096 * (s + k)
      && ((4096 * s + n) % 4096 != 0 ==> (4096 * s + n) / 4096 == s + k - 1)
  {
    var k := RunPages(n);
    assert (4096 * s + n + 3) / 4096 == s + (n + 3) / 4096;
    assert (n + 3) / 4096 + 1 == k;
  }

  lemma RunSeparate(c: Block, pages: Pages, s: nat, k: nat, b: Block)
    requires BlockOk(c, pages) && IsFree(pages, s, k) && k >= 1
    requires b.First() == s && b.Last() == s + k - 1 && b.v == 4096 * s && b.v + b.n + 4 <= 4096 * (s + k)
    ensures BlockOk(c, WithRun(pages, s, k)) && Separate(c, b) && Separate(b, c)
  {
    assert c.First() in pages && c.Last() in pages;
    assert s <= c.First() < s + k ==> c.First() !in pages;
    assert s <= c.Last() < s + k ==> c.Last() !in pages;
    assert c.First() <= s <= c.Last() ==> s in pages;
  }

  ghost predicate CountOk(live: Live, refs: map<nat, nat>, mptr: nat, stuck: set<nat>, p: nat) {
    p in refs && refs[p] > 0 && refs[p] == |Ending(live, p)| + if Open(mptr, p) || p in stuck then 1 else 0
  }

  lemma RunCounts(live: Live, live': Live, pages: Pages, refs: map<nat, nat>, stuck: set<nat>, s: nat, k: nat, id: nat,
                  mptr': nat)
    requires AllOk(live, pages) && CountsOk(live, pages, refs, 4096 * s, stuck) && id !in live
    requires IsFree(pages, s, k) && k >= 1
    requires forall q :: Ending(live', q) == if q == s + k - 1 then Ending(live, q) + {id} else Ending(live, q)
    requires mptr' % 4096 != 0 ==> mptr' / 4096 == s + k - 1
    ensures CountsOk(live', WithRun(pages, s, k), refs[s + k - 1 := 2], mptr',
                     if mptr' % 4096 == 0 then stuck + {s + k - 1} else stuck)
  {
    var last := s + k - 1;
    assert last !in pages && last < END;
    NewEnding(live, live', pages, last, id);
    var pages' := WithRun(pages, s, k);
    var stuck' := if mptr' % 4096 == 0 then stuck + {last} else stuck;
    hide Ending, IsFree, WithRun, AllOk;
    forall p | p in pages' && !pages'[p] ensures CountOk(live', refs[last := 2], mptr', stuck', p) {
      if p != last {
        assert p in pages && !pages[p];
        CountHere(live, pages, refs, 4096 * s, stuck, p);
      }
    }
    hide CountOk;
    CountsFrom(live', pages', refs[last := 2], mptr', stuck');
  }

  lemma CountHere(live: Live, pages: Pages, refs: map<nat, nat>, mptr: nat, stuck: set<nat>, p: nat)
    requires CountsOk(live, pages, refs, mptr, stuck) && p in pages && !pages[p]
    ensures CountOk(live, refs, mptr, stuck, p)
  {
  }

  lemma CountsFrom(live: Live, pages: Pages, refs: map<nat, nat>, mptr: nat, stuck: set<nat>)
    requires forall p :: p in pages ==> p < END
    requires forall p :: p in stuck ==> p in pages && !pages[p] && !Open(mptr, p)
    requires forall p :: p in pages && !pages[p] ==> CountOk(live, refs, mptr, stuck, p)
    ensures CountsOk(live, pages, refs, mptr, stuck)
  {
  }

  lemma NewEnding(live: Live, live': Live, pages: Pages, last: nat, id: nat)
    requires AllOk(live, pages) && last !in pages && id !in live
    requires Ending(live', last) == Ending(live, last) + {id}
    ensures |Ending(live', last)| == 1
  {
    forall i | i in live ensures live[i].Last() != last {
      assert BlockOk(live[i], pages);
      assert live[i].Last() in pages;
    }
    assert Ending(live, last) == {};
    assert Ending(live', last) == {id};
  }

  lemma RunOpen(live: Live, live': Live, pages: Pages, s: nat, k: nat, id: nat, b: Block, mptr': nat)
    requires AllOk(live, pages) && IsFree(pages, s, k) && k >= 1 && live' == live[id := b]
    requires mptr' == b.v + b.n && mptr' + 4 <= 4096 * (s + k) && (mptr' % 4096 != 0 ==> mptr' / 4096 == s + k - 1)
    ensures OpenOk(live', WithRun(pages, s, k), mptr')
  {
    var last := s + k - 1;
    assert last !in pages;
    forall i | i in live ensures live[i].Last() != last {
      assert BlockOk(live[i], pages);
      assert live[i].Last() in pages;
    }
  }

  // ---------------------------------------------------------------- the code

  /** mptr may be moved to any page boundary when no page is open. */
  lemma Aligned(live: Live, pages: Pages, refs: map<nat, nat>, stuck: set<nat>, m: nat, m': nat)
    requires Sound(live, pages, refs, m, stuck) && m % 4096 == 0 && m' % 4096 == 0
    ensures Sound(live, pages, refs, m', stuck)
  {
    hide AllOk, AllSeparate;
  }

  /** A size_t. */
  type Size = n: nat | n < 0x1_0000_0000

  /** ROUNDUP(n, 4), in 32 bits. */
  function Round4(n: Size): (r: Size)
    ensures r % 4 == 0
  {
    (n + 3) / 4 * 4 % 0x1_0000_0000
  }

  /** The rounded size covers the request, with less than a word to spare, except for the last three sizes, which
      wrap round to an empty chunk. */
  lemma RoundCovers(n: Size)
    ensures n <= Round4(n) < n + 4 <==> n <= 0xFFFF_FFFC
    ensures n > 0xFFFF_FFFC ==> Round4(n) == 0
  {
    if n <= 0xFFFF_FFFC {
      assert (n + 3) / 4 * 4 < 0x1_0000_0000;
    } else {
      assert (n + 3) / 4 * 4 == 0x1_0000_0000;
    }
  }

  // ---------------------------------------------------------------- where the search can end

  const UTOP_PAGE: nat := 0xEEC00       // sys_page_alloc refuses pages from here on

  /** Page q is mapped, by malloc or as part of the program. */
  predicate Used(pages: Pages, low: set<nat>, q: nat) {
    q in pages || q in low
  }

  /** The program is below the heap, and malloc's pages are not the program's. */
  ghost predicate Placed(pages: Pages, low: set<nat>) {
    (forall p :: p in pages ==> p < END && p !in low) && (forall q :: q in low ==> q < FIRST)
  }

  /** k pages from s on are below mend and not mapped. */
  predicate RunFree(pages: Pages, low: set<nat>, s: nat, k: nat) {
    (k == 0 || s + k <= END) && forall q: nat :: s <= q < s + k ==> !Used(pages, low, q)
  }

  /** What isfree answers for n bytes at v: when v + n passes the end of the address space the loop does not turn. */
  predicate SaysFree(pages: Pages, low: set<nat>, v: nat, n: nat) {
    v + n >= TOP || RunFree(pages, low, v / 4096, (n + 4095) / 4096)
  }

  predicate AllLow(pages: Pages, low: set<nat>) {
    forall q: nat :: q < FIRST ==> Used(pages, low, q)
  }

  /** q is the lowest page that is not mapped, and is below the heap. */
  predicate LowestFree(pages: Pages, low: set<nat>, q: nat) {
    q < FIRST && !Used(pages, low, q) && forall p: nat :: p < q ==> Used(pages, low, p)
  }

  /** No run for n bytes starts in a page from q on before q'. */
  ghost predicate NoRun(pages: Pages, low: set<nat>, q: nat, q': nat, n: nat) {
    forall s: nat :: q <= s < q' ==> !RunFree(pages, low, s, RunPages(n))
  }

  /** Where the search stops above the heap with a chunk of at least a page. */
  function TopStop(n: nat): int {
    TOP - 4096 * ((n + 4) / 4096)
  }

  /** The lowest page the search gets to from m without having been in the heap. */
  function From(m: nat): nat {
    if m < 4096 * FIRST then m / 4096 else 0
  }

  /** Where the search is, and what it has passed over since it started at m0. */
  ghost predicate Searching(pages: Pages, low: set<nat>, n: nat, m0: nat, nwrap: nat, m: nat) {
    && m % 4096 == 0 && m < TOP && nwrap < 2
    && if Inside(m0) then
         Inside(m) && (nwrap == 1 ==> NoRun(pages, low, FIRST, m / 4096, n))
       else if m >= 4096 * END then
         nwrap == 0 && 4096 * END <= m0 <= m && (m == m0 || m <= TopStop(n))
       else
         && (m0 >= 4096 * END ==> n + 4 < 4096)
         && if m < 4096 * FIRST then
              nwrap == 0 && From(m0) <= m / 4096 && NoRun(pages, low, From(m0), m / 4096, n)
            else
              NoRun(pages, low, From(m0), FIRST, n) && NoRun(pages, low, FIRST, m / 4096, n)
  }

  /** How a search from m0 for n bytes ends. From inside the heap it stays there. From above it, a chunk of a page or
      more makes it stop near the top of the address space; a smaller one makes it come round to page 0, and from below
      the heap it takes the first run that is free, there or in the heap. */
  ghost predicate Searched(pages: Pages, low: set<nat>, n: nat, m0: nat, m: nat, found: bool) {
    && m % 4096 == 0 && m < TOP
    && if m0 >= 4096 * END && n + 4 >= 4096 then
         found && m == if m0 < TopStop(n) then TopStop(n) else m0
       else if found && m < 4096 * FIRST then
         && !Inside(m0) && From(m0) <= m / 4096
         && RunFree(pages, low, m / 4096, RunPages(n)) && NoRun(pages, low, From(m0), m / 4096, n)
       else
         && Inside(m) && (!Inside(m0) ==> NoRun(pages, low, From(m0), FIRST, n))
         && if found then RunFree(pages, low, m / 4096, RunPages(n)) else NoRun(pages, low, FIRST, END, n)
  }

  lemma SaysFreeBelow(pages: Pages, low: set<nat>, m: nat, n: nat)
    requires m % 4096 == 0 && m < 4096 * END && n < MAXMALLOC
    ensures SaysFree(pages, low, m, n + 4) <==> RunFree(pages, low, m / 4096, RunPages(n))
  {
  }

  lemma NoneAbove(pages: Pages, low: set<nat>, m: nat, n: nat)
    requires m % 4096 == 0 && m >= 4096 * END
    ensures SaysFree(pages, low, m, n + 4) <==> m + n + 4 >= TOP
  {
    var q: nat := m / 4096;
    assert q >= END && q < q + (n + 4 + 4095) / 4096;
  }

  /** From the top m + n + 4 reaches the end of the address space exactly from TopStop on. */
  lemma TopArith(m: nat, n: nat)
    requires m % 4096 == 0 && m < TOP && n < MAXMALLOC
    ensures m + n + 4 >= TOP <==> m >= TopStop(n)
    ensures m < TopStop(n) ==> m + 4096 <= TopStop(n)
    ensures n + 4 < 4096 ==> TopStop(n) == TOP
    ensures n + 4 >= 4096 ==> 4096 * UTOP_PAGE <= TopStop(n) < TOP && TopStop(n) % 4096 == 0
  {
    var k, q: nat := (n + 4) / 4096, m / 4096;
    assert n + 4 == 4096 * k + (n + 4) % 4096;
    assert m == 4096 * q && TopStop(n) == 4096 * (0x10_0000 - k);
  }

  /** The search stops only where Searched says. */
  lemma SearchFound(pages: Pages, low: set<nat>, n: nat, m0: nat, nwrap: nat, m: nat)
    requires n < MAXMALLOC && m0 % 4096 == 0 && m0 < TOP
    requires Searching(pages, low, n, m0, nwrap, m) && SaysFree(pages, low, m, n + 4)
    ensures Searched(pages, low, n, m0, m, true)
  {
    hide SaysFree, RunFree, NoRun, TopStop, RunPages;
    TopArith(m, n);
    TopArith(m0, n);
    if m < 4096 * END {
      SaysFreeBelow(pages, low, m, n);
    } else {
      NoneAbove(pages, low, m, n);
    }
  }

  /** The next address, in 32 bits. */
  function Onward(m: nat): nat {
    if (m + 4096) % TOP == 4096 * END then 4096 * FIRST else (m + 4096) % TOP
  }

  function Wraps(m: nat): nat {
    if (m + 4096) % TOP == 4096 * END then 1 else 0
  }

  lemma NoRunOn(pages: Pages, low: set<nat>, q: nat, m: nat, n: nat)
    requires m % 4096 == 0 && m < 4096 * END && n < MAXMALLOC && !SaysFree(pages, low, m, n + 4)
    ensures NoRun(pages, low, q, m / 4096, n) ==> NoRun(pages, low, q, m / 4096 + 1, n)
    ensures NoRun(pages, low, FIRST, FIRST, n) && NoRun(pages, low, q, q, n)
  {
    SaysFreeBelow(pages, low, m, n);
    hide RunFree;
  }

  lemma NoRunNone(pages: Pages, low: set<nat>, q: nat, n: nat)
    ensures NoRun(pages, low, q, q, n)
  {
  }

  lemma SearchOn(pages: Pages, low: set<nat>, n: nat, m0: nat, nwrap: nat, m: nat)
    requires n < MAXMALLOC && m0 % 4096 == 0 && m0 < TOP
    requires Searching(pages, low, n, m0, nwrap, m) && !SaysFree(pages, low, m, n + 4)
    ensures var nwrap' := nwrap + Wraps(m);
      if nwrap' == 2 then
        Searched(pages, low, n, m0, Onward(m), false)
      else
        Searching(pages, low, n, m0, nwrap', Onward(m))
  {
    hide SaysFree, RunFree, NoRun, TopStop, RunPages;
    if m >= 4096 * END {
      NoneAbove(pages, low, m, n);
      TopArith(m, n);
      NoRunNone(pages, low, 0, n);
    } else {
      NoRunOn(pages, low, FIRST, m, n);
      NoRunOn(pages, low, From(m0), m, n);
    }
  }

  // ---------------------------------------------------------------- what malloc does with it

  /** malloc, asked for n bytes with mptr partway through a page below the heap that they do not fit, frees mptr, and
      free's assertion fails. */
  predicate Panics(mptr: nat, n: nat) {
    n < MAXMALLOC && mptr % 4096 != 0 && !Fits(mptr, n) && !Inside(mptr)
  }

  /** What comes of a search that started at m0: the address returned and where mptr is left. */
  ghost predicate Outcome(pages: Pages, low: set<nat>, n: nat, avail: nat, m0: nat, v: nat, mptr: nat, given: bool) {
    exists m: nat, found: bool :: Ended(pages, low, n, avail, m0, v, mptr, given, m, found)
  }

  ghost predicate Ended(pages: Pages, low: set<nat>, n: nat, avail: nat, m0: nat, v: nat, mptr: nat, given: bool,
                        m: nat, found: bool) {
    && Searched(pages, low, n, m0, m, found)
    && (given <==> found && m / 4096 < UTOP_PAGE && RunPages(n) <= avail)
    && if given then v == m && mptr == m + n else v == 0 && mptr == m
  }

  /** When malloc, asked for n bytes after rounding, keeps mptr inside the heap: unless mptr is partway through the
      last page, the chunk does not fit there, and is not too large for malloc in the first place. Then it comes back
      only if it is less than a page and all memory below the heap is mapped. */
  predicate Stays(mptr: nat, n: nat, pages: Pages, low: set<nat>) {
    n >= MAXMALLOC || mptr % 4096 == 0 || Fits(mptr, n) || mptr / 4096 + 1 < END || (n + 4 < 4096 && AllLow(pages, low))
  }

  /** What malloc has done when it has left the heap. A chunk of a page or more makes the search stop at the top of the
      address space, where nothing can be mapped. A smaller one takes the lowest unmapped page: the null pointer is
      returned with page 0 mapped, or a pointer below the heap. */
  predicate Left(n: nat, avail: nat, pages: Pages, low: set<nat>, v: nat, mptr: nat) {
    if n + 4 >= 4096 then
      v == 0 && mptr == TopStop(n)
    else
      && LowestFree(pages, low, mptr / 4096)
      && if avail == 0 then v == 0 && mptr % 4096 == 0 else v == 4096 * (mptr / 4096) && mptr == v + n
  }

  /** Exactly how a search from just past the heap leaves it. */
  lemma LeavesAt(pages: Pages, low: set<nat>, n: nat, avail: nat, v: nat, mptr: nat, given: bool)
    requires n < MAXMALLOC && Outcome(pages, low, n, avail, 4096 * END, v, mptr, given)
    ensures Inside(mptr) <==> n + 4 < 4096 && AllLow(pages, low)
    ensures !Inside(mptr) ==> Left(n, avail, pages, low, v, mptr)
    ensures Inside(mptr) && given ==> Inside(v)
    ensures Inside(mptr) && !given ==> avail < RunPages(n) || NoRun(pages, low, FIRST, END, n)
  {
    var m: nat, found: bool :| Ended(pages, low, n, avail, 4096 * END, v, mptr, given, m, found);
    TopArith(m, n);
    if n + 4 < 4096 {
      OnePage(pages, low, n);
      if found && m < 4096 * FIRST {
        forall p: nat | p < m / 4096 ensures Used(pages, low, p) {
          assert !RunFree(pages, low, p, 1);
        }
        assert !Used(pages, low, m / 4096) && (m + n) / 4096 == m / 4096;
      } else {
        forall p: nat | p < FIRST ensures Used(pages, low, p) {
          assert !RunFree(pages, low, p, 1);
        }
        RunEnd(pages, low, n, m, found && given);
      }
    }
  }

  /** A chunk of less than a page takes one page. */
  lemma OnePage(pages: Pages, low: set<nat>, n: nat)
    requires n + 4 < 4096
    ensures RunPages(n) == 1
    ensures forall s: nat {:trigger RunFree(pages, low, s, 1)} ::
              s < END ==> (RunFree(pages, low, s, 1) <==> !Used(pages, low, s))
  {
  }

  /** mptr after a run in the heap is still in it. */
  lemma RunEnd(pages: Pages, low: set<nat>, n: nat, m: nat, taken: bool)
    requires m % 4096 == 0 && Inside(m) && (taken ==> RunFree(pages, low, m / 4096, RunPages(n)))
    ensures taken ==> Inside(m + n)
  {
    assert m == 4096 * (m / 4096);
  }

  /** From inside the heap the search does not leave it. */
  lemma StaysIn(pages: Pages, low: set<nat>, n: nat, avail: nat, m0: nat, v: nat, mptr: nat, given: bool)
    requires n < MAXMALLOC && Inside(m0) && Outcome(pages, low, n, avail, m0, v, mptr, given)
    ensures Inside(mptr) && (given ==> Inside(v))
    ensures !given ==> avail < RunPages(n) || NoRun(pages, low, FIRST, END, n)
  {
    var m: nat, found: bool :| Ended(pages, low, n, avail, m0, v, mptr, given, m, found);
    hide RunFree, NoRun, RunPages;
    RunEnd(pages, low, n, m, given);
  }

  /** With page 0 unmapped, as it is in every program at first, the last way is closed. */
  lemma StaysUsually(mptr: nat, n: nat, pages: Pages, low: set<nat>)
    requires !Used(pages, low, 0)
    ensures Stays(mptr, n, pages, low) <==>
            n >= MAXMALLOC || mptr % 4096 == 0 || Fits(mptr, n) || mptr / 4096 + 1 < END
  {
    assert !AllLow(pages, low);
  }

  /** A heap from which the next call leaves: 4000 bytes in its last page. */
  lemma LastPage()
    ensures var v := 4096 * (END - 1);
      var live, pages, refs := map[0 := Block(v, 4000)], map[END - 1 := false], map[END - 1 := 2];
      HeapOk(live, pages, refs, v + 4000, {}) && Inside(v + 4000) && !Stays(v + 4000, 200, pages, {})
  {
    var v := 4096 * (END - 1);
    var live: Live, pages: Pages := map[0 := Block(v, 4000)], map[END - 1 := false];
    var b := Block(v, 4000);
    assert b.First() == END - 1 && b.Last() == END - 1;
    assert BlockOk(b, pages);
    forall p: nat ensures Ending(live, p) == if p == END - 1 then {0} else {} {
    }
    assert (v + 4000) / 4096 == END - 1;
    StaysUsually(v + 4000, 200, pages, {});
  }

  /** The heap after that call, which mapped page 0; and the call after that, if it is for 4000 bytes. */
  lemma NextPanics()
    ensures var v := 4096 * (END - 1);
      var live, pages := map[0 := Block(v, 4000), 1 := Block(0, 200)], map[END - 1 := false, 0 := false];
      HeapOk(live, pages, map[END - 1 := 1, 0 := 2], 200, {}) && Panics(200, 4000)
  {
    var v := 4096 * (END - 1);
    var live: Live := map[0 := Block(v, 4000), 1 := Block(0, 200)];
    var pages: Pages := map[END - 1 := false, 0 := false];
    var b, c := Block(v, 4000), Block(0, 200);
    assert b.First() == END - 1 && b.Last() == END - 1 && c.First() == 0 && c.Last() == 0;
    assert BlockOk(b, pages) && BlockOk(c, pages) && Separate(b, c) && Separate(c, b);
    assert OpenOk(live, pages, 200);
    hide BlockOk, Separate, OpenOk;
    TwoCounts(live, pages, b, c);
  }

  lemma TwoCounts(live: Live, pages: Pages, b: Block, c: Block)
    requires live == map[0 := b, 1 := c] && pages == map[END - 1 := false, 0 := false]
    requires b.Last() == END - 1 && c.Last() == 0
    ensures CountsOk(live, pages, map[END - 1 := 1, 0 := 2], 200, {})
  {
    hide Block.First, Block.Last, CountsOk;
    assert Ending(live, END - 1) == {0} && Ending(live, 0) == {1};
    assert Open(200, 0) && !Open(200, END - 1);
    hide Ending, Open;
    CountsFrom(live, pages, map[END - 1 := 1, 0 := 2], 200, {});
  }

  class Heap {
    var mptr: nat
    var pages: Pages
    const low: set<nat>              // the pages of the program itself, below the heap
    var refs: map<nat, nat>
    ghost var live: Live
    ghost var stuck: set<nat>

    ghost predicate Valid()
      reads this
    {
      HeapOk(live, pages, refs, mptr, stuck) && Placed(pages, low)
    }

    constructor (program: set<nat>)
      requires forall q :: q in program ==> q < FIRST
      ensures Valid() && live == map[] && pages == map[] && stuck == {} && mptr == 0 && low == program
    {
      mptr := 0;
      pages := map[];
      low := program;
      refs := map[];
      live := map[];
      stuck := {};
    }

    /** isfree, at a page boundary, in 32 bits. */
    method IsFreeRun(v: nat, n: nat) returns (free: bool)
      requires v % 4096 == 0 && v < TOP && 0 < n < 0x1000_0000
      ensures free <==> SaysFree(pages, low, v, n)
    {
      ghost var s, k := v / 4096, (n + 4095) / 4096;
      var va, end := v, (v + n) % TOP;
      var i: nat := 0;
      if v + n >= TOP {
        assert end < v;
        return true;
      }
      while va < end
        invariant va == 4096 * (s + i) && i <= k && RunFree(pages, low, s, i)
        invariant va < TOP
        decreases end - va
      {
        assert i < k && va / 4096 == s + i;
        if va >= 4096 * END || Used(pages, low, va / 4096) {
          assert s + i < END ==> Used(pages, low, s + i);
          return false;
        }
        va := (va + 4096) % TOP;
        i := i + 1;
      }
      assert i == k;
      return true;
    }

    /** free: unmap the continued pages from v's on, and drop one reference of the page e that ends them. */
    method Release(v: nat, ghost e: nat)
      requires v / 4096 <= e && e in pages && !pages[e] && e in refs && refs[e] > 0
      requires forall p: nat :: v / 4096 <= p < e ==> p in pages && pages[p]
      modifies `pages, `refs
      ensures pages == DropPages(Without(old(pages), v / 4096, e), old(refs), e) && refs == DropRefs(old(refs), e)
    {
      var c: nat := v / 4096;
      while c in pages && pages[c]
        invariant v / 4096 <= c <= e && pages == Without(old(pages), v / 4096, c) && refs == old(refs)
        decreases e - c
      {
        pages := pages - {c};
        c := c + 1;
      }
      assert c == e;
      refs := refs[c := refs[c] - 1];
      if refs[c] == 0 {
        pages := pages - {c};
      }
    }

    /** free, of a live block or of the null pointer; its assertion fails on a block that starts below the heap. */
    method Free(v: nat, ghost id: nat) returns (panicked: bool)
      requires Valid() && (v != 0 ==> id in live && live[id].v == v)
      modifies `pages, `refs, `live
      ensures Valid() && mptr == old(mptr) && stuck == old(stuck)
      ensures panicked <==> v != 0 && !Inside(v)
      ensures panicked ==> pages == old(pages) && refs == old(refs)
      ensures live == if v == 0 || panicked then old(live) else old(live) - {id}
      ensures forall p :: p in old(stuck) ==> p in pages
      ensures Inside(v) ==> var p := old(live)[id].Last();
                p !in pages <==> Ending(old(live), p) == {id} && !Open(mptr, p) && p !in stuck
    {
      hide HeapOk, DropPages, DropRefs, Ending, Open;
      HeapParts(live, pages, refs, mptr, stuck);
      if v == 0 {
        return false;
      }
      if !Inside(v) {
        return true;
      }
      ghost var b := live[id];
      LiveBlock(live, pages, refs, mptr, stuck, id);
      Forget(live, pages, refs, mptr, stuck, id);
      GoesWithLast(live, pages, refs, mptr, stuck, id);
      Fewer(pages, refs, v / 4096, b.Last());
      hide Without;
      Release(v, b.Last());
      live := live - {id};
      HeapParts(live, pages, refs, mptr, stuck);
      return false;
    }

    /** malloc, wherever mptr is; avail is how many pages the kernel can give. */
    method Allocate(size: Size, avail: nat, ghost id: nat) returns (v: nat, panicked: bool, ghost given: bool)
      requires Valid() && id !in live
      modifies this
      ensures Valid()
      ensures panicked <==> Panics(old(mptr), Round4(size))
      ensures live == if given then old(live)[id := Block(v, Round4(size))] else old(live)
      ensures !given ==> v == 0 && pages.Keys <= old(pages.Keys)
      ensures panicked ==> !given && pages == old(pages) && mptr == old(mptr)
      ensures old(mptr) == 0 || Inside(old(mptr)) ==>
                && (Inside(mptr) <==> Stays(old(mptr), Round4(size), old(pages), low))
                && (Inside(mptr) && given ==> Inside(v))
                && (Inside(mptr) && !given ==> Round4(size) >= MAXMALLOC || avail < RunPages(Round4(size))
                                               || NoRun(pages, low, FIRST, END, Round4(size)))
                && (!Inside(mptr) ==> Left(Round4(size), avail, old(pages), low, v, mptr))
      ensures old(mptr) != 0 && !Inside(old(mptr)) && Round4(size) < MAXMALLOC && !panicked ==>
                if Fits(old(mptr), Round4(size)) then
                  given && v == old(mptr) && mptr == v + Round4(size)
                else
                  Outcome(old(pages), low, Round4(size), avail, old(mptr), v, mptr, given)
      ensures stuck == if given && !Fits(old(mptr), Round4(size)) && Round4(size) % 4096 == 0
                       then old(stuck) + {Block(v, Round4(size)).Last()} else old(stuck)
      ensures forall p :: p in old(stuck) ==> p in pages
    {
      hide HeapOk, Sound, RunPages, Left, NoRun, AllOk, AllSeparate, AllLow, Outcome, Placed, Block.Last;
      given := false;
      HeapParts(live, pages, refs, mptr, stuck);
      if mptr == 0 {
        Aligned(live, pages, refs, stuck, 0, 4096 * FIRST);
        mptr := 4096 * FIRST;
        HeapWhole(live, pages, refs, mptr, stuck);
      }
      var n := Round4(size);
      if n >= MAXMALLOC {
        return 0, false, false;
      }
      if mptr % 4096 != 0 {
        if (mptr + n + 3) / 4096 == mptr / 4096 {
          v := TakeOpen(n, id);
          return v, false, true;
        }
        if !Inside(mptr) {
          return 0, true, false;
        }
        LeaveOpen();
      }
      ghost var m0, before := mptr, pages;
      v, given := TakeFound(n, avail, id);
      SameLow(old(pages), before, low);
      if Inside(m0) {
        StaysIn(before, low, n, avail, m0, v, mptr, given);
      } else if m0 == 4096 * END {
        LeavesAt(before, low, n, avail, v, mptr, given);
      }
      return v, false, given;
    }

    /** Find space from an aligned mptr on, and take it. */
    method TakeFound(n: nat, avail: nat, ghost id: nat) returns (v: nat, ghost given: bool)
      requires Valid() && id !in live && n < MAXMALLOC && n % 4 == 0 && mptr % 4096 == 0
      modifies this
      ensures Valid() && Outcome(old(pages), low, n, avail, old(mptr), v, mptr, given)
      ensures live == if given then old(live)[id := Block(v, n)] else old(live)
      ensures !given ==> v == 0 && pages == old(pages)
      ensures stuck == if given && n % 4096 == 0 then old(stuck) + {Block(v, n).Last()} else old(stuck)
      ensures forall p :: p in old(stuck) ==> p in pages
    {
      hide HeapOk, Sound, RunPages, NoRun, RunFree, AllOk, AllSeparate, StuckAfter, Block.Last, TopStop, Placed;
      HeapParts(live, pages, refs, mptr, stuck);
      var found := FindRun(n);
      Aligned(live, pages, refs, stuck, old(mptr), mptr);
      HeapWhole(live, pages, refs, mptr, stuck);
      ghost var m := mptr;
      v, given := 0, false;
      TopArith(m, n);
      if found && mptr < 4096 * UTOP_PAGE {
        StuckIs(stuck, mptr / 4096, n);
        v, given := TakeRun(n, avail, id);
      }
      assert Ended(old(pages), low, n, avail, old(mptr), v, mptr, given, m, found);
    }

    /** A chunk that fits the open page. */
    method TakeOpen(n: nat, ghost id: nat) returns (v: nat)
      requires Valid() && id !in live && Fits(mptr, n)
      modifies this
      ensures Valid() && v == old(mptr) && mptr == v + n && live == old(live)[id := Block(v, n)]
      ensures Inside(v) ==> Inside(mptr)
      ensures stuck == old(stuck) && pages == old(pages)
    {
      hide HeapOk, Fits, PageOf, Placed;
      AddOpen(live, pages, refs, mptr, stuck, id, n);
      OpenStays(mptr, n);
      var p := PageOf(mptr);
      refs := refs[p := refs[p] + 1];
      live := live[id := Block(mptr, n)];
      v := mptr;
      mptr := mptr + n;
    }

    /** Stop working on the open page and move on. */
    method LeaveOpen()
      requires Valid() && mptr % 4096 != 0 && Inside(mptr)
      modifies this
      ensures Valid()
      ensures mptr == 4096 * (old(mptr) / 4096 + 1) && 4096 * FIRST <= mptr <= 4096 * END
      ensures live == old(live) && stuck == old(stuck) && pages.Keys <= old(pages.Keys)
      ensures forall q :: q in old(pages) && q < FIRST ==> q in pages
    {
      hide HeapOk, Sound, DropRefs, Without;
      HeapParts(live, pages, refs, mptr, stuck);
      MoveOn(live, pages, refs, mptr, stuck);
      OpenPage(live, pages, refs, mptr, stuck);
      var p: nat := mptr / 4096;
      Release(mptr, p);
      mptr := 4096 * (p + 1);
      HeapWhole(live, pages, refs, mptr, stuck);
    }

    /** The search for address space, in 32 bits. */
    method FindRun(n: nat) returns (found: bool)
      requires n < MAXMALLOC && mptr % 4096 == 0 && mptr < TOP
      modifies `mptr
      ensures Searched(pages, low, n, old(mptr), mptr, found)
    {
      hide Searched, SaysFree, NoRun, TopStop;
      var nwrap: nat := 0;
      NoRunNone(pages, low, From(mptr), n);
      NoRunNone(pages, low, FIRST, n);
      while true
        invariant Searching(pages, low, n, old(mptr), nwrap, mptr)
        decreases 2 - nwrap, mptr >= 4096 * END, TOP - mptr
      {
        var free := IsFreeRun(mptr, n + 4);
        if free {
          SearchFound(pages, low, n, old(mptr), nwrap, mptr);
          return true;
        }
        SearchOn(pages, low, n, old(mptr), nwrap, mptr);
        mptr := (mptr + 4096) % TOP;
        if mptr == 4096 * END {
          mptr := 4096 * FIRST;
          nwrap := nwrap + 1;
          if nwrap == 2 {
            return false;
          }
        }
      }
    }

    /** Map the k pages of a run, or none if the kernel runs out. */
    method MapRun(s: nat, k: nat, avail: nat) returns (ok: bool)
      requires IsFree(pages, s, k)
      modifies `pages
      ensures ok <==> k <= avail
      ensures pages == if ok then WithRun(old(pages), s, k) else old(pages)
    {
      hide IsFree;
      var i: nat := 0;
      while i < k
        invariant i <= k && i <= avail && pages == Mapped(old(pages), s, k, i)
      {
        if i == avail {
          while i > 0
            invariant i <= k && pages == Mapped(old(pages), s, k, i)
          {
            MappedBack(old(pages), s, k, i);
            pages := pages - {s + i - 1};
            i := i - 1;
          }
          return false;
        }
        pages := pages[s + i := i + 1 < k];
        i := i + 1;
      }
      return true;
    }

    /** Map the pages of a run at mptr and give out the block at its start. */
    method TakeRun(n: nat, avail: nat, ghost id: nat) returns (v: nat, ghost given: bool)
      requires Valid() && mptr % 4096 == 0 && n % 4 == 0 && id !in live
      requires RunFree(pages, low, mptr / 4096, RunPages(n))
      modifies this
      ensures Valid()
      ensures given <==> RunPages(n) <= avail
      ensures given ==> v == old(mptr) && mptr == v + n && live == old(live)[id := Block(v, n)]
      ensures given ==> stuck == StuckAfter(old(stuck), old(mptr) / 4096, n)
      ensures !given ==> v == 0 && mptr == old(mptr) && live == old(live) && pages == old(pages) && stuck == old(stuck)
      ensures old(pages.Keys) <= pages.Keys
    {
      hide HeapOk, RunPages, StuckAfter, WithRun, Mapped, IsFree, RunFree;
      var s: nat, k := mptr / 4096, RunPages(n);
      assert mptr == 4096 * s;
      FreeRun(pages, low, s, k);
      RunStuck(stuck, s, n);
      AddRun(live, pages, refs, stuck, s, id, n);
      var ok := MapRun(s, k, avail);
      if !ok {
        return 0, false;
      }
      refs := refs[s + k - 1 := 2];
      live := live[id := Block(4096 * s, n)];
      stuck := StuckAfter(stuck, s, n);
      v := mptr;
      mptr := mptr + n;
      given := true;
    }
  }

  lemma FreeRun(pages: Pages, low: set<nat>, s: nat, k: nat)
    requires RunFree(pages, low, s, k) && Placed(pages, low)
    ensures IsFree(pages, s, k) && Placed(WithRun(pages, s, k), low)
  {
    forall q: nat | s <= q < s + k ensures q < END && q !in pages && q !in low {
      assert !Used(pages, low, q);
    }
  }

  /** Pages below the heap are mapped as before if none of them was unmapped. */
  lemma SameLow(pages: Pages, pages': Pages, low: set<nat>)
    requires pages'.Keys <= pages.Keys && forall q :: q in pages && q < FIRST ==> q in pages'
    ensures AllLow(pages', low) == AllLow(pages, low)
    ensures forall n, avail, v, mptr :: Left(n, avail, pages', low, v, mptr) <==> Left(n, avail, pages, low, v, mptr)
  {
    assert forall q: nat :: q < FIRST ==> Used(pages', low, q) == Used(pages, low, q);
    assert forall q: nat :: LowestFree(pages', low, q) == LowestFree(pages, low, q);
  }

  lemma Fewer(pages: Pages, refs: map<nat, nat>, s: nat, e: nat)
    ensures DropPages(Without(pages, s, e), refs, e).Keys <= pages.Keys
  {
  }

  /** A chunk of a whole page, freed again on an otherwise empty heap: its last page stays, and by the contracts of
      Allocate and Free it stays for good. */
  method LeftBehind() returns (h: Heap, p: nat)
    ensures fresh(h) && h.Valid() && h.live == map[] && p in h.stuck && p in h.pages
  {
    hide HeapOk, AllOk, AllSeparate, Left, NoRun, RunPages, Block.Last, Outcome, AllLow, Placed;
    h := new Heap({});
    PageSize();
    ghost var given;
    var v, panicked;
    v, panicked, given := h.Allocate(4096, 2, 0);
    if !given {
      RoomWhenEmpty(h.pages);
      assert false;
    }
    p := (v + 4096 + 3) / 4096;
    LastIs(v, 4096);
    assert h.live == map[0 := Block(v, 4096)];
    panicked := h.Free(v, 0);
  }

  lemma PageSize()
    ensures Round4(4096) == 4096 && RunPages(4096) == 2
  {
  }

  lemma RoomWhenEmpty(pages: Pages)
    requires pages.Keys <= {}
    ensures !NoRun(pages, {}, FIRST, END, 4096)
  {
    assert forall q: nat :: !Used(pages, {}, q);
    assert RunFree(pages, {}, FIRST, RunPages(4096));
  }

  lemma LastIs(v: nat, n: nat)
    ensures Block(v, n).Last() == (v + n + 3) / 4096
  {
  }

  lemma StuckIs(stuck: set<nat>, s: nat, n: nat)
    ensures StuckAfter(stuck, s, n) == if n % 4096 == 0 then stuck + {Block(4096 * s, n).Last()} else stuck
  {
  }

  lemma LiveBlock(live: Live, pages: Pages, refs: map<nat, nat>, mptr: nat, stuck: set<nat>, id: nat)
    requires HeapOk(live, pages, refs, mptr, stuck) && id in live
    ensures var b := live[id];
      && b.First() <= b.Last() && b.Last() in pages && !pages[b.Last()] && b.Last() in refs && refs[b.Last()] > 0
      && forall p: nat :: b.First() <= p < b.Last() ==> p in pages && pages[p]
  {
    assert BlockOk(live[id], pages);
    assert live[id].Last() in pages;
  }

  lemma HeapParts(live: Live, pages: Pages, refs: map<nat, nat>, mptr: nat, stuck: set<nat>)
    requires HeapOk(live, pages, refs, mptr, stuck)
    ensures Sound(live, pages, refs, mptr, stuck) && mptr < TOP && (mptr % 4096 != 0 ==> mptr < 4096 * END)
    ensures forall p :: p in stuck ==> p in pages
  {
  }

  lemma HeapWhole(live: Live, pages: Pages, refs: map<nat, nat>, mptr: nat, stuck: set<nat>)
    requires Sound(live, pages, refs, mptr, stuck) && mptr < TOP
    ensures HeapOk(live, pages, refs, mptr, stuck)
  {
  }

  lemma OpenPage(live: Live, pages: Pages, refs: map<nat, nat>, mptr: nat, stuck: set<nat>)
    requires HeapOk(live, pages, refs, mptr, stuck) && mptr % 4096 != 0
    ensures var p := mptr / 4096;
      p in pages && !pages[p] && p in refs && refs[p] > 0 && Without(pages, p, p) == pages
  {
  }

  lemma MappedBack(pages: Pages, s: nat, k: nat, i: nat)
    requires 0 < i <= k && IsFree(pages, s, k)
    ensures Mapped(pages, s, k, i) - {s + i - 1} == Mapped(pages, s, k, i - 1)
  {
    assert s + i - 1 !in pages;
    MappedIs(pages, s, k, i - 1);
  }
}
