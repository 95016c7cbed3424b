/** Runs of environments that fork, store, allocate, unmap and exit, on the real machine and on the
    machine that copies; and fork as a whole. */
module ForkRuns {
  import opened Mmu
  import opened Vm
  import opened Syscalls
  import opened CowFork

  datatype Act =
    | Dup(cur: Slot, child: Slot, va: nat)
    | Write(cur: Slot, va: nat, w: Word)
    | Alloc(cur: Slot, target: Slot, va: nat, perm: Perm)
    | Unmap(cur: Slot, target: Slot, va: nat)
    | NewEnv(cur: Slot)
    | SetRun(cur: Slot, envid: int, status: Status)
    | Exit(cur: Slot)

  /** Live environments, and addresses below the stack top that are not the handler's scratch page. */
  predicate Possible(s: System, a: Act) {
    && s.envs[a.cur].status != Free
    && (a.Dup? ==> s.envs[a.child].status != Free && UserPageAddress(a.va))
    && (a.Write? ==> a.va < USTACKTOP && Covered(LeafAt(a.cur, a.va)))
    && (a.Alloc? || a.Unmap? ==> s.envs[a.target].status != Free)
  }

  /** One step of the real machine; false if the call fails or the code panics. */
  function RealStep(s: System, a: Act): (System, bool) {
    if !Possible(s, a) then (s, false) else
    match a
    case Dup(cur, child, va) => Duppage(s, cur, s.envs[child].id, va)
    case Write(cur, va, w) => WriteAt(s, cur, va, w)
    case Alloc(cur, target, va, perm) => Done(PageAlloc(s, cur, s.envs[target].id, va, perm))
    case Unmap(cur, target, va) => Done(PageUnmap(s, cur, s.envs[target].id, va))
    case NewEnv(cur) => Done(Exofork(s, cur))
    case SetRun(cur, envid, status) => Done(SetStatus(s, cur, envid, status))
    case Exit(cur) => (EnvFree(s, cur), true)
  }

  function Done(r: (System, int)): (System, bool) {
    (r.0, r.1 >= 0)
  }

  /** The same step of the machine that copies. */
  ghost function EagerStep(g: Eager, a: Act): Eager {
    match a
    case Dup(cur, child, va) => EagerDup(g, LeafAt(cur, va), LeafAt(child, va))
    case Write(cur, va, w) => EagerWrite(g, LeafAt(cur, va), WordAt(va), w)
    case Alloc(cur, target, va, perm) =>
      var leaf := LeafAt(target, va);
      var f := WithP(perm.low);
      if Covered(leaf) then EagerAlloc(g, leaf, IsShare(f), MayWrite(f)) else g
    case Unmap(cur, target, va) => EagerUnmap(g, {LeafAt(target, va)})
    case NewEnv(cur) => g
    case SetRun(cur, envid, status) => g
    case Exit(cur) => EagerUnmap(g, set r | r in g.view && r.Leaf? && r.env == cur)
  }

  /** Both machines, step by step; the copying machine skips the steps that fail on the real one. */
  ghost function Runs(s: System, g: Eager, acts: seq<Act>): (System, Eager)
    decreases |acts|
  {
    if acts == [] then (s, g) else
    var (s1, g1) := Runs(s, g, acts[..|acts| - 1]);
    var a := acts[|acts| - 1];
    var (s2, ok) := RealStep(s1, a);
    (s2, if ok then EagerStep(g1, a) else g1)
  }

  lemma StepRelated(s: System, g: Eager, managed: set<nat>, a: Act)
    requires Related(s, g, managed)
    ensures var (s', ok) := RealStep(s, a); Related(s', if ok then EagerStep(g, a) else g, managed)
  {
    hide Related, SystemOk, Duppage, WriteAt, PageAlloc, PageUnmap, Exofork, SetStatus, EnvFree, UserPageAddress,
      Covered, EagerDup, EagerWrite, EagerAlloc, EagerUnmap, IsShare, MayWrite, WithP, Leaves, Mappings;
    if Possible(s, a) {
      match a
      case Dup(cur, child, va) => DuppageKeeps(s, g, managed, cur, child, va);
      case Write(cur, va, w) => WriteKeeps(s, g, managed, cur, va, w);
      case Alloc(cur, target, va, perm) => PageAllocRelated(s, g, managed, cur, target, va, perm);
      case Unmap(cur, target, va) => PageUnmapRelated(s, g, managed, cur, target, va);
      case NewEnv(cur) => ExoforkRelated(s, g, managed, cur);
      case SetRun(cur, envid, status) => SetStatusRelated(s, g, managed, cur, envid, status);
      case Exit(cur) =>
        EnvFreeRelated(s, g, managed, cur);
        ExitView(s, g, managed, cur);
    }
  }

  lemma SetStatusRelated(s: System, g: Eager, managed: set<nat>, cur: Slot, envid: int, status: Status)
    requires Related(s, g, managed) && s.envs[cur].status != Free
    ensures Related(SetStatus(s, cur, envid, status).0, g, managed)
  {
    var s' := SetStatus(s, cur, envid, status).0;
    assert s'.frames == s.frames;
    hide *;
    RelatedParts(s, g, managed);
    SetStatusKeeps(s, managed, cur, envid, status);
    RelatedIntro(s', Leaves(s.frames.links), g, managed);
  }

  lemma ExitView(s: System, g: Eager, managed: set<nat>, e: Slot)
    requires Related(s, g, managed)
    ensures EagerUnmap(g, Mappings(Leaves(s.frames.links), e)) ==
            EagerUnmap(g, set r | r in g.view && r.Leaf? && r.env == e)
  {
    RelatedParts(s, g, managed);
    ViewMapped(Leaves(s.frames.links), s.frames.data, g);
    var gone := set r | r in g.view && r.Leaf? && r.env == e;
    hide Related, SystemOk, Agrees, Disciplined, EagerOk, Leaves;
    assert forall r :: r in g.view ==> (r in Mappings(Leaves(s.frames.links), e) <==> r in gone);
    hide *;
    UnmapSame(g, Mappings(Leaves(s.frames.links), e), gone);
  }

  lemma ViewMapped(leaves: Links, data: map<nat, Page>, g: Eager)
    requires Agrees(leaves, data, g)
    ensures forall r :: r in g.view ==> r in leaves && r.Leaf?
  {
  }

  lemma UnmapSame(g: Eager, a: set<Ref>, b: set<Ref>)
    requires forall r :: r in g.view ==> (r in a <==> r in b)
    ensures EagerUnmap(g, a) == EagerUnmap(g, b)
  {
    assert g.view - a == g.view - b;
  }

  /** For every run of forks, stores, allocations and exits, in any order and by any environments,
      the copy-on-write machine stays related to the machine that copies. */
  lemma {:induction false} RunsRelated(s: System, g: Eager, managed: set<nat>, acts: seq<Act>)
    requires Related(s, g, managed)
    ensures var (s', g') := Runs(s, g, acts); Related(s', g', managed)
    decreases |acts|
  {
    if acts != [] {
      hide Related, RealStep, EagerStep;
      RunsRelated(s, g, managed, acts[..|acts| - 1]);
      var (s1, g1) := Runs(s, g, acts[..|acts| - 1]);
      StepRelated(s1, g1, managed, acts[|acts| - 1]);
    }
  }

  // ---------------------------------------------------------------- what environments can see

  function ReadWord(s: System, e: Slot, va: nat): Option<Word> {
    var leaf := LeafAt(e, va);
    if leaf in s.frames.links && s.frames.links[leaf].page in s.frames.data
    then Some(s.frames.data[s.frames.links[leaf].page][WordAt(va)]) else None
  }

  function EagerRead(g: Eager, e: Slot, va: nat): Option<Word> {
    var leaf := LeafAt(e, va);
    if leaf in g.view && (g.view[leaf].Shared? ==> g.view[leaf].id in g.shared)
    then Some(Content(g, g.view[leaf])[WordAt(va)]) else None
  }

  /** The page frames of a state that keeps the copy-on-write discipline, read as separate copies. */
  ghost function EagerOf(v: Frames, next: nat): Eager {
    Eager(map r | r in v.links && Covered(r) && v.links[r].page in v.data :: CellOf(v, v.links[r]), v.data, next)
  }

  ghost function CellOf(v: Frames, l: Link): Cell
    requires l.page in v.data
  {
    if IsShare(l.flags) then Shared(l.page, MayWrite(l.flags)) else Private(v.data[l.page], MayWrite(l.flags))
  }

  lemma EagerOfRelated(s: System, managed: set<nat>, next: nat)
    requires SystemOk(s, managed) && Disciplined(Leaves(s.frames.links))
    requires forall p :: p in managed ==> p < next
    ensures Related(s, EagerOf(s.frames, next), managed)
  {
    var g := EagerOf(s.frames, next);
    var leaves := Leaves(s.frames.links);
    EagerOfParts(s.frames, managed, next);
    hide *;
    AgreesIntro(leaves, s.frames.data, g);
    RelatedIntro(s, leaves, g, managed);
  }

  lemma EagerOfParts(v: Frames, managed: set<nat>, next: nat)
    requires WellFormed(v, managed) && forall p :: p in managed ==> p < next
    ensures var g := EagerOf(v, next);
      var leaves := Leaves(v.links);
      && EagerOk(g)
      && (forall r :: r in g.view <==> Covered(r) && r in leaves)
      && (forall r :: r in g.view ==> CellAgrees(leaves[r], v.data, g, g.view[r]))
      && SharesAgree(leaves, g)
  {
    hide EagerOf, Leaves, WellFormed, IsShare, MayWrite, Covered;
    var g := EagerOf(v, next);
    var leaves := Leaves(v.links);
    DataManaged(v, managed);
    EagerOfView(v, managed, next);
    assert EagerOk(g);
    assert SharesAgree(leaves, g);
    hide EagerOk, SharesAgree;
    forall r | r in g.view ensures CellAgrees(leaves[r], v.data, g, g.view[r]) {
    }
  }

  lemma DataManaged(v: Frames, managed: set<nat>)
    requires WellFormed(v, managed)
    ensures forall p :: p in v.data ==> p in managed
    ensures forall r :: r in Leaves(v.links) ==> v.links[r].page in v.data
  {
    hide Holders, Structural, Covered;
    forall r | r in Leaves(v.links) ensures v.links[r].page in v.data {
      MappedLeaf(v, managed, r);
    }
  }

  lemma EagerOfView(v: Frames, managed: set<nat>, next: nat)
    requires forall r :: r in Leaves(v.links) ==> v.links[r].page in v.data
    ensures var g := EagerOf(v, next);
      var leaves := Leaves(v.links);
      && g.shared == v.data && g.next == next
      && (forall r :: r in g.view <==> Covered(r) && r in leaves)
      && (forall r :: r in g.view ==> leaves[r].page in v.data && g.view[r] == CellOf(v, leaves[r]))
  {
    hide CellOf;
  }

  /** Fork by copy-on-write cannot be told from fork by copying: start from any state in which
      every directly writable page that is not shared has one mapping, run any acts, and every
      environment reads at every address below the stack top what it would read on the machine that
      copies and finds the same addresses mapped, and a page that is mapped copy-on-write somewhere is
      not writable through any other mapping. */
  lemma ForkIndistinguishable(s: System, managed: set<nat>, next: nat, acts: seq<Act>, e: Slot, va: nat)
    requires SystemOk(s, managed) && Disciplined(Leaves(s.frames.links)) && forall p :: p in managed ==> p < next
    requires Covered(LeafAt(e, va))
    ensures var (s', g') := Runs(s, EagerOf(s.frames, next), acts);
      && ReadWord(s', e, va) == EagerRead(g', e, va)
      && Disciplined(Leaves(s'.frames.links)) && CowApart(Leaves(s'.frames.links))
  {
    EagerOfRelated(s, managed, next);
    RunsRelated(s, EagerOf(s.frames, next), managed, acts);
    var (s', g') := Runs(s, EagerOf(s.frames, next), acts);
    hide Runs;
    RelatedParts(s', g', managed);
    InView(s', g', managed, LeafAt(e, va));
    DisciplinedApart(Leaves(s'.frames.links));
  }

  /** A page that some mapping shows copy-on-write is writable through no other mapping. */
  ghost predicate CowApart(leaves: Links) {
    forall r, r' :: r in leaves && r' in leaves && leaves[r].page == leaves[r'].page && IsCow(leaves[r].flags)
                    ==> IsWritable(leaves[r'].flags) ==> r == r'
  }

  lemma DisciplinedApart(leaves: Links)
    requires Disciplined(leaves)
    ensures CowApart(leaves)
  {
    forall r | r in leaves ensures !(IsShare(leaves[r].flags) && IsCow(leaves[r].flags)) {
      ExclusiveBits(leaves[r].flags);
    }
    hide IsShare, IsCow, IsWritable, IsUser;
  }

  // ---------------------------------------------------------------- copy-on-write and writable at once

  /** No mapping has PTE_W and PTE_COW together. */
  ghost predicate Single(leaves: Links) {
    forall r :: r in leaves ==> !BothBits(leaves[r].flags)
  }

  predicate BothBits(f: Flags) {
    IsCow(f) && IsWritable(f)
  }

  /** Then no page that is seen copy-on-write is writable by anyone. */
  ghost predicate NeverWritable(leaves: Links) {
    forall r, r' :: r in leaves && r' in leaves && leaves[r].page == leaves[r'].page && IsCow(leaves[r].flags)
                    ==> !IsWritable(leaves[r'].flags)
  }

  /** sys_page_alloc accepts PTE_W | PTE_COW; no act asks for it. */
  predicate AsksForBoth(a: Act) {
    a.Alloc? && BothBits(WithP(a.perm.low))
  }

  lemma SingleAdd(leaves: Links, r: Ref, l: Link)
    requires Single(leaves) && !BothBits(l.flags)
    ensures Single(leaves[r := l])
  {
    hide BothBits;
  }

  lemma SingleLess(leaves: Links, gone: set<Ref>)
    requires Single(leaves)
    ensures Single(leaves - gone)
  {
    hide BothBits;
  }

  lemma PermsSingle()
    ensures !BothBits(WithP(PERM_COW.low)) && !BothBits(WithP(PERM_RO.low)) && !BothBits(WithP(PERM_RW.low))
    ensures !BothBits(Touched(WithP(PERM_RW.low)))
  {
  }

  lemma DupSingle(s: System, g: Eager, managed: set<nat>, cur: Slot, child: Slot, va: nat)
    requires Related(s, g, managed) && Single(Leaves(s.frames.links))
    requires s.envs[cur].status != Free && s.envs[child].status != Free && UserPageAddress(va)
    ensures Single(Leaves(Duppage(s, cur, s.envs[child].id, va).0.frames.links))
  {
    hide Related, SystemOk, PageMap, IsShare, IsCow, IsWritable, IsUser, MayWrite, BothBits, Single, Leaves,
      SyscallPerm, UserPageAddress, LeafAt, WithP, SharePerm;
    var src, dst := LeafAt(cur, va), LeafAt(child, va);
    if src in s.frames.links {
      var f := s.frames.links[src].flags;
      var p := s.frames.links[src].page;
      RelatedParts(s, g, managed);
      LeafShapes(cur, child, va);
      LeafFacts(s, g, managed, src);
      PermsSingle();
      FlagFacts();
      if f.cow && f.share {
      } else if IsShare(f) {
        SharePermFacts(f);
        DupMap(s, managed, cur, child, va, SharePerm(f));
        ShareSingle(f, WithP(SharePerm(f).low));
        SingleAdd(Leaves(s.frames.links), dst, Link(p, WithP(SharePerm(f).low)));
      } else if MayWrite(f) {
        DupCowMaps(s, managed, cur, child, va);
        SingleAdd(Leaves(s.frames.links), dst, Link(p, WithP(PERM_COW.low)));
        SingleAdd(Leaves(s.frames.links)[dst := Link(p, WithP(PERM_COW.low))], src, Link(p, WithP(PERM_COW.low)));
      } else {
        DupMap(s, managed, cur, child, va, PERM_RO);
        SingleAdd(Leaves(s.frames.links), dst, Link(p, WithP(PERM_RO.low)));
      }
    }
  }

  lemma ShareSingle(f: Flags, f': Flags)
    requires IsShare(f) && SameUse(f', f)
    ensures !BothBits(f')
  {
  }

  lemma WriteSingle(s: System, g: Eager, managed: set<nat>, cur: Slot, va: nat, w: Word)
    requires Related(s, g, managed) && Single(Leaves(s.frames.links)) && va < USTACKTOP && Covered(LeafAt(cur, va))
    requires s.envs[cur].status != Free
    ensures Single(Leaves(WriteAt(s, cur, va, w).0.frames.links))
  {
    hide SystemOk, PgFault, StoreAt, IsCow, IsWritable, IsShare, BothBits, Single, Leaves, Covered, Pdx, Ptx,
         UserPageAddress;
    var leaf := LeafAt(cur, va);
    RelatedParts(s, g, managed);
    PageOfFacts(cur, va);
    PermsSingle();
    if CanStore(s.frames, leaf) {
      StoreEffect(s, managed, cur, va, w);
      LeafIn(s.frames.links, leaf);
      TouchedSingle(Leaves(s.frames.links), leaf);
    } else if leaf in s.frames.links && IsCow(s.frames.links[leaf].flags) {
      PgFaultEffect(s, managed, cur, va);
      if PgFault(s, cur, va).1 {
        WriteCopyEffect(s, managed, cur, va, w);
        SingleLess(Leaves(s.frames.links), {LeafAt(cur, PFTEMP)});
        SingleAdd(Leaves(s.frames.links) - {LeafAt(cur, PFTEMP)}, leaf,
          Link(s.frames.free[0], Touched(WithP(PERM_RW.low))));
      }
    } else {
      FaultRefused(s, cur, va);
    }
  }

  lemma TouchedSingle(leaves: Links, r: Ref)
    requires Single(leaves) && r in leaves
    ensures Single(leaves[r := Link(leaves[r].page, Touched(leaves[r].flags))])
  {
    DirtyFacts(leaves[r].flags);
    SingleAdd(leaves, r, Link(leaves[r].page, Touched(leaves[r].flags)));
  }

  lemma StepSingle(s: System, g: Eager, managed: set<nat>, a: Act)
    requires Related(s, g, managed) && Single(Leaves(s.frames.links)) && !AsksForBoth(a)
    ensures Single(Leaves(RealStep(s, a).0.frames.links))
  {
    hide Related, SystemOk, Duppage, WriteAt, PageAlloc, PageUnmap, Exofork, EnvFree, UserPageAddress, Covered, Leaves,
      Single, BothBits, WithP, SameContents, Mappings, EnvOf;
    RelatedParts(s, g, managed);
    var leaves := Leaves(s.frames.links);
    if Possible(s, a) {
      match a
      case Dup(cur, child, va) => DupSingle(s, g, managed, cur, child, va);
      case Write(cur, va, w) => WriteSingle(s, g, managed, cur, va, w);
      case Alloc(cur, target, va, perm) =>
        ChildNamed(s, managed, cur, target);
        AllocEffect(s, managed, cur, s.envs[target].id, va, perm);
        if PageAlloc(s, cur, s.envs[target].id, va, perm).1 >= 0 {
          SingleAdd(leaves, LeafAt(target, va), Link(s.frames.free[0], WithP(perm.low)));
        }
      case Unmap(cur, target, va) =>
        PageUnmapRelated(s, g, managed, cur, target, va);
        SingleLess(leaves, {LeafAt(target, va)});
      case NewEnv(cur) => ExoforkView(s, managed, cur);
      case SetRun(cur, envid, status) =>
      case Exit(cur) =>
        DropSpaceView(s, managed, cur);
        SingleLess(leaves, Mappings(leaves, cur));
    }
  }

  lemma SingleNever(leaves: Links)
    requires Disciplined(leaves) && Single(leaves)
    ensures NeverWritable(leaves)
  {
    DisciplinedApart(leaves);
    hide IsCow, IsWritable, Disciplined;
  }

  /** From a state in which no mapping has both bits, and as long as no allocation asks for both, no page that is
      seen copy-on-write is ever writable by anyone. */
  lemma {:induction false} CowNeverWritable(s: System, g: Eager, managed: set<nat>, acts: seq<Act>)
    requires Related(s, g, managed) && Single(Leaves(s.frames.links)) && forall a :: a in acts ==> !AsksForBoth(a)
    ensures var s' := Runs(s, g, acts).0; Single(Leaves(s'.frames.links)) && NeverWritable(Leaves(s'.frames.links))
    decreases |acts|
  {
    hide Related, RealStep, EagerStep, Leaves, Single, AsksForBoth, NeverWritable;
    RunsRelated(s, g, managed, acts);
    var (s', g') := Runs(s, g, acts);
    if acts != [] {
      var before, a := acts[..|acts| - 1], acts[|acts| - 1];
      CowNeverWritable(s, g, managed, before);
      RunsRelated(s, g, managed, before);
      var (s1, g1) := Runs(s, g, before);
      StepSingle(s1, g1, managed, a);
    }
    RelatedParts(s', g', managed);
    SingleNever(Leaves(s'.frames.links));
  }

  /** The condition is needed: one allocation with both bits makes a page that is copy-on-write and writable. */
  lemma BothBitsAllocated(s: System, managed: set<nat>, cur: Slot, va: nat)
    requires SystemOk(s, managed) && s.envs[cur].status != Free
    ensures var both := Perm(0, NO_FLAGS.(p := true, u := true, w := true, cow := true));
      var a := Act.Alloc(cur, cur, va, both);
      AsksForBoth(a) && SyscallPerm(both)
        && (RealStep(s, a).1 ==> !NeverWritable(Leaves(RealStep(s, a).0.frames.links)))
  {
    hide SystemOk, PageAlloc, UserPageAddress, LeafAt, Leaves;
    var both := Perm(0, NO_FLAGS.(p := true, u := true, w := true, cow := true));
    ChildNamed(s, managed, cur, cur);
    AllocEffect(s, managed, cur, s.envs[cur].id, va, both);
    var (s', ok) := RealStep(s, Act.Alloc(cur, cur, va, both));
    if ok {
      assert LeafAt(cur, va) in Leaves(s'.frames.links);
    }
  }

  // ---------------------------------------------------------------- fork as a whole

  const STACK_PAGES: nat := 0xEEBFE      // PGNUM(USTACKTOP)
  const UXSTACK: nat := 0xEEBFF000       // UXSTACKTOP - PGSIZE
  const PANIC: int := -1000              // fork does not return

  /** fork's loop over the page numbers below n. */
  function DupAll(s: System, cur: Slot, envid: int, n: nat): (System, bool) {
    if n == 0 then (s, true) else
    var (s1, ok) := DupAll(s, cur, envid, n - 1);
    if ok then Duppage(s1, cur, envid, (n - 1) * 4096) else (s1, false)
  }

  /** The parent's side of fork, up to its return. */
  function ForkCall(s: System, cur: Slot): (System, int) {
    var (s1, envid) := Exofork(s, cur);
    if envid < 0 then (s1, envid) else
    var (s2, ok) := DupAll(s1, cur, envid, STACK_PAGES);
    if !ok then (s2, PANIC) else
    var (s3, err3) := PageAlloc(s2, cur, envid, UXSTACK, PERM_RW);
    if err3 < 0 then (s3, PANIC) else
    var (s4, err4) := SetStatus(s3, cur, envid, Runnable);
    if err4 < 0 then (s4, PANIC) else (s4, envid)
  }

  ghost function EagerDupAll(g: Eager, cur: Slot, child: Slot, n: nat): Eager {
    if n == 0 then g else EagerDup(EagerDupAll(g, cur, child, n - 1), LeafAt(cur, (n - 1) * 4096),
       LeafAt(child, (n - 1) * 4096))
  }

  lemma {:induction false} DupAllRelated(s: System, g: Eager, managed: set<nat>, cur: Slot, child: Slot, n: nat)
    requires Related(s, g, managed) && s.envs[cur].status != Free && s.envs[child].status != Free && n <= STACK_PAGES
    ensures var (s', ok) := DupAll(s, cur, s.envs[child].id, n);
      s'.envs == s.envs && (ok ==> Related(s', EagerDupAll(g, cur, child, n), managed))
  {
    hide Related, Duppage, EagerDup, UserPageAddress;
    if n != 0 {
      DupAllRelated(s, g, managed, cur, child, n - 1);
      var (s1, ok) := DupAll(s, cur, s.envs[child].id, n - 1);
      if ok {
        StackPage(n - 1);
        DuppageKeeps(s1, EagerDupAll(g, cur, child, n - 1), managed, cur, child, (n - 1) * 4096);
      }
    }
  }

  lemma StackPage(n: nat)
    requires n < STACK_PAGES
    ensures UserPageAddress(n * 4096)
    ensures forall e: nat :: LeafAt(e, n * 4096) == Leaf(e, n / 1024, n % 1024)
  {
    assert n * 4096 / 4096 == n;
    assert n * 4096 / 0x400000 == n / 1024;
  }

  /** The child has a copy of, or a share in, every page the parent has, and nothing else changed. */
  ghost predicate ForkOf(g: Eager, g': Eager, cur: nat, child: nat, n: nat) {
    && g'.shared == g.shared && g'.next == g.next
    && (forall r :: r in g'.view && !(r.Leaf? && r.env == child) ==> r in g.view && g'.view[r] == g.view[r])
    && (forall r :: r in g.view ==> r in g'.view && g'.view[r] == g.view[r])
    && (forall d: nat, t: nat :: Leaf(child, d, t) in g'.view <==>
         d * 1024 + t < n && t < 1024 && Leaf(cur, d, t) in g.view)
    && (forall d: nat, t: nat :: Leaf(child, d, t) in g'.view ==> g'.view[Leaf(child, d, t)] == g.view[Leaf(cur, d, t)])
  }

  lemma {:induction false} EagerDupAllCopies(g: Eager, cur: Slot, child: Slot, n: nat)
    requires cur != child && n <= STACK_PAGES
    requires forall r :: r in g.view ==> !(r.Leaf? && r.env == child)
    ensures ForkOf(g, EagerDupAll(g, cur, child, n), cur, child, n)
  {
    if n != 0 {
      EagerDupAllCopies(g, cur, child, n - 1);
      StackPage(n - 1);
      hide LeafAt, UserPageAddress;
      ForkOfStep(g, EagerDupAll(g, cur, child, n - 1), cur, child, n - 1);
    }
  }

  lemma ForkOfStep(g: Eager, h: Eager, cur: Slot, child: Slot, n: nat)
    requires ForkOf(g, h, cur, child, n) && cur != child
    requires forall r :: r in g.view ==> !(r.Leaf? && r.env == child)
    ensures ForkOf(g, EagerDup(h, Leaf(cur, n / 1024, n % 1024), Leaf(child, n / 1024, n % 1024)), cur, child, n + 1)
  {
    var d, t := n / 1024, n % 1024;
    assert n == d * 1024 + t;
    var h' := EagerDup(h, Leaf(cur, d, t), Leaf(child, d, t));
    forall d': nat, t': nat
      ensures Leaf(child, d', t') in h'.view <==> d' * 1024 + t' < n + 1 && t' < 1024 && Leaf(cur, d', t') in g.view {
      assert t' < 1024 && d' * 1024 + t' == n ==> d' == d && t' == t;
    }
  }

  /** What fork promises: when it returns, there is a new runnable child that has, at every page
      below the stack top, what the copying machine gives it, and the parent has what it had. */
  lemma ForkCopies(s: System, g: Eager, managed: set<nat>, cur: Slot)
    requires Related(s, g, managed) && s.envs[cur].status != Free
    ensures var (s', r) := ForkCall(s, cur);
      r >= 0 ==>
        && s.envFree != [] && s.envs[s.envFree[0]].status == Free
        && s'.envs[s.envFree[0]].status == Runnable && s'.envs[s.envFree[0]].id == r
        && s'.envs[s.envFree[0]].parent == s.envs[cur].id
        && Related(s', EagerDupAll(g, cur, s.envFree[0], STACK_PAGES), managed)
        && ForkOf(g, EagerDupAll(g, cur, s.envFree[0], STACK_PAGES), cur, s.envFree[0], STACK_PAGES)
  {
    var (s', r) := ForkCall(s, cur);
    if r >= 0 {
      RelatedParts(s, g, managed);
      ExoforkChild(s, managed, cur);
      ExoforkRelated(s, g, managed, cur);
      NoMappings(s, g, managed, s.envFree[0]);
      hide Related, Exofork, SystemOk, Agrees, Disciplined;
      var child := s.envFree[0];
      var s1 := Exofork(s, cur).0;
      EagerDupAllCopies(g, cur, child, STACK_PAGES);
      ForkTail(s1, g, managed, cur, child);
    }
  }

  lemma ExoforkChild(s: System, managed: set<nat>, cur: Slot)
    requires SystemOk(s, managed) && s.envs[cur].status != Free && Exofork(s, cur).1 >= 0
    ensures var s' := Exofork(s, cur).0;
      && s.envFree != [] && s.envs[s.envFree[0]].status == Free && s.envFree[0] != cur
      && s'.envs[cur] == s.envs[cur]
      && s'.envs[s.envFree[0]].status == NotRunnable && s'.envs[s.envFree[0]].id == Exofork(s, cur).1 > 0
      && s'.envs[s.envFree[0]].parent == s.envs[cur].id
  {
    hide WellFormed;
    assert s.envFree != [] && s.envFree[0] in s.envFree;
  }

  lemma NoMappings(s: System, g: Eager, managed: set<nat>, e: Slot)
    requires Related(s, g, managed) && s.envs[e].status == Free
    ensures forall r :: r in g.view ==> !(r.Leaf? && r.env == e)
  {
    RelatedParts(s, g, managed);
    ViewMapped(Leaves(s.frames.links), s.frames.data, g);
    hide Agrees, Disciplined, Related, EagerOk;
    forall r | r in g.view && r.Leaf? ensures r.env != e {
      assert r in Leaves(s.frames.links);
      SystemFrames(s, managed);
      TableThere(s.frames, managed, r);
      RootThere(s.frames, managed, Table(r.env, r.d));
    }
  }

  lemma RootThere(v: Frames, managed: set<nat>, table: Ref)
    requires WellFormed(v, managed) && table.Table? && table in v.links
    ensures Root(table.env) in v.links
  {
  }

  /** fork from the return of sys_exofork on. */
  lemma ForkTail(s: System, g: Eager, managed: set<nat>, cur: Slot, child: Slot)
    requires Related(s, g, managed) && s.envs[cur].status != Free && s.envs[child].status != Free
    ensures
      var envid := s.envs[child].id;
      var (s2, ok) := DupAll(s, cur, envid, STACK_PAGES);
      var (s3, err3) := PageAlloc(s2, cur, envid, UXSTACK, PERM_RW);
      var (s4, err4) := SetStatus(s3, cur, envid, Runnable);
      ok && err3 >= 0 && err4 >= 0 ==>
        && Related(s4, EagerDupAll(g, cur, child, STACK_PAGES), managed)
        && s4.envs[child] == s.envs[child].(status := Runnable)
  {
    hide Related, PageAlloc, SystemOk, EagerDupAll, DupAll;
    var envid := s.envs[child].id;
    DupAllRelated(s, g, managed, cur, child, STACK_PAGES);
    var (s2, ok) := DupAll(s, cur, envid, STACK_PAGES);
    if ok {
      var g' := EagerDupAll(g, cur, child, STACK_PAGES);
      PageAllocRelated(s2, g', managed, cur, child, UXSTACK, PERM_RW);
      var (s3, err3) := PageAlloc(s2, cur, envid, UXSTACK, PERM_RW);
      if err3 >= 0 {
        StackNotCovered(child);
        SetStatusRelated(s3, g', managed, cur, envid, Runnable);
        RelatedParts(s3, g', managed);
        ChildNamed(s3, managed, cur, child);
      }
    }
  }

  lemma StackNotCovered(e: nat)
    ensures !Covered(LeafAt(e, UXSTACK))
  {
  }
}
