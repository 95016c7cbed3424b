/** lib/fork.c as it runs: a loop over page numbers that reads the page-table entries at uvpt and makes
    system calls, and a page-fault handler that copies a page word by word. */
module UserFork {
  import opened Mmu
  import opened Vm
  import opened Syscalls
  import opened Kernel
  import opened CowFork
  import opened ForkRuns
  import opened Sets

  /** Every count leaves room for the references that one page of fork adds. */
  ghost predicate RoomForDup(s: System) {
    forall p: nat :: |Holders(s.frames.links, p)| < 65533
  }

  lemma MapCounts(s: System, cur: Slot, srcva: nat, envid: int, dstva: nat, perm: Perm)
    requires RoomForDup(s)
    ensures NoCountFull(s)
    ensures NoCountFull(PageMap(s, cur, 0, srcva, envid, dstva, perm).0)
    ensures PageMap(s, cur, 0, srcva, envid, dstva, perm).0.envs == s.envs
  {
    var s' := PageMap(s, cur, 0, srcva, envid, dstva, perm).0;
    if s' != s {
      var e := EnvOf(s.envs, cur, envid, true).value;
      var leaf := LeafAt(e, dstva);
      InsertFrame(s.frames, e, Pdx(dstva), Ptx(dstva), s.frames.links[LeafAt(cur, srcva)].page, perm.low);
      var extra := {leaf, Table(e, Pdx(dstva))};
      forall p: nat ensures |Holders(s'.frames.links, p)| < 65535 {
        assert Holders(s'.frames.links, p) <= Holders(s.frames.links, p) + extra;
        SmallUnion(Holders(s'.frames.links, p), Holders(s.frames.links, p), leaf, Table(e, Pdx(dstva)));
      }
    }
  }

  lemma SmallUnion<T>(a: set<T>, b: set<T>, x: T, y: T)
    requires a <= b + {x, y}
    ensures |a| <= |b| + 2
  {
    SubsetSize(a, b + {x, y});
    assert |b + {x, y}| <= |b| + |{x, y}|;
    if x == y {
      assert {x, y} == {x};
    }
  }

  /** duppage. */
  method DuppageCall(m: Machine, cur: Slot, envid: int, va: nat) returns (ok: bool)
    requires m.Valid() && m.envs[cur].status == Running && UserPageAddress(va) && RoomForDup(m.Sys())
    modifies m
    ensures m.Valid() && m.envs == old(m.envs)
    ensures (m.Sys(), ok) == Duppage(old(m.Sys()), cur, envid, va)
  {
    hide SystemOk, PageMap, NoCountFull, RoomForDup, Pdx, Ptx, m.Consistent;
    var pte := m.LoadFlags(cur, va);
    if pte.None? {
      return true;
    }
    var f := pte.value;
    if f.cow && f.share {
      return false;
    }
    if IsShare(f) {
      MapCounts(m.Sys(), cur, va, envid, va, SharePerm(f));
      var err := m.SysPageMap(cur, 0, va, envid, va, SharePerm(f));
      return err >= 0;
    }
    if f.w || IsCow(f) {
      MapCounts(m.Sys(), cur, va, envid, va, PERM_COW);
      var err := m.SysPageMap(cur, 0, va, envid, va, PERM_COW);
      if err < 0 {
        return false;
      }
      MapEnvs(m.Sys(), cur, va, 0, va, PERM_COW);
      err := m.SysPageMap(cur, 0, va, 0, va, PERM_COW);
      return err >= 0;
    }
    MapCounts(m.Sys(), cur, va, envid, va, PERM_RO);
    var err := m.SysPageMap(cur, 0, va, envid, va, PERM_RO);
    return err >= 0;
  }

  lemma MapEnvs(s: System, cur: Slot, srcva: nat, envid: int, dstva: nat, perm: Perm)
    ensures PageMap(s, cur, 0, srcva, envid, dstva, perm).0.envs == s.envs
  {
  }

  /** fork, the parent's side. */
  method Fork(m: Machine, cur: Slot) returns (r: int)
    requires m.Valid() && m.envs[cur].status == Running
    requires var (s1, envid) := Exofork(m.Sys(), cur);
      forall n: nat :: n < STACK_PAGES ==> RoomForDup(DupAll(s1, cur, envid, n).0)
    modifies m
    ensures m.Valid()
    ensures (m.Sys(), r) == ForkCall(old(m.Sys()), cur)
  {
    hide SystemOk, Duppage, PageAlloc, RoomForDup, m.Consistent;
    ExoforkEnvs(m.Sys(), m.managed, cur);
    r := m.SysExofork(cur);
    if r < 0 {
      return;
    }
    hide Exofork;
    ghost var s1 := m.Sys();
    var pn := 0;
    while pn < STACK_PAGES
      invariant pn <= STACK_PAGES
      invariant m.Valid() && m.envs[cur].status == Running
      invariant (m.Sys(), true) == DupAll(s1, cur, r, pn)
    {
      StackPage(pn);
      var ok := DuppageCall(m, cur, r, pn * 4096);
      if !ok {
        DupAllStops(s1, cur, r, pn + 1, STACK_PAGES);
        return PANIC;
      }
      pn := pn + 1;
    }
    hide DupAll;
    var err := m.SysPageAlloc(cur, r, UXSTACK, PERM_RW);
    AllocEnvs(DupAll(s1, cur, r, STACK_PAGES).0, cur, r, UXSTACK, PERM_RW);
    if err < 0 {
      return PANIC;
    }
    err := m.SysEnvSetStatus(cur, r, Runnable);
    if err < 0 {
      return PANIC;
    }
  }

  lemma ExoforkEnvs(s: System, managed: set<nat>, cur: Slot)
    requires SystemOk(s, managed) && s.envs[cur].status == Running
    ensures Exofork(s, cur).0.envs[cur] == s.envs[cur]
  {
    hide WellFormed;
    if s.envFree != [] {
      assert s.envFree[0] in s.envFree;
    }
  }

  lemma AllocEnvs(s: System, cur: Slot, envid: int, va: nat, perm: Perm)
    ensures PageAlloc(s, cur, envid, va, perm).0.envs == s.envs
  {
  }

  /** Once duppage has panicked the loop goes no further. */
  lemma {:induction false} DupAllStops(s: System, cur: Slot, envid: int, k: nat, n: nat)
    requires k <= n && !DupAll(s, cur, envid, k).1
    ensures DupAll(s, cur, envid, n) == DupAll(s, cur, envid, k)
  {
    hide Duppage;
    if k < n {
      DupAllStops(s, cur, envid, k, n - 1);
    }
  }

  // ---------------------------------------------------------------- the page-fault handler

  lemma WordAddress(cur: nat, va: nat, i: nat)
    requires UserPageAddress(va) && i < 1024
    ensures va + 4 * i < UTOP && LeafAt(cur, va + 4 * i) == LeafAt(cur, va) && WordAt(va + 4 * i) == i
  {
    var n := va / 4096;
    assert va == n * 4096;
    assert (va + 4 * i) / 4096 == n && (va + 4 * i) / 0x400000 == n / 1024 == va / 0x400000;
    assert UTOP == 4096 * 0xEEC00;
  }

  /** A page after i of its words have been overwritten from another. */
  function Spliced(from: Page, onto: Page, i: nat): Page
    requires i <= 1024
  {
    from[..i] + onto[i..]
  }

  lemma SpliceOne(from: Page, onto: Page, i: nat)
    requires i < 1024
    ensures Spliced(from, onto, i)[i := from[i]] == Spliced(from, onto, i + 1)
    ensures Spliced(from, onto, 0) == onto && Spliced(from, onto, 1024) == from
  {
  }

  /** memmove after i words. */
  ghost function CopiedWords(v: Frames, dst: Ref, src: Ref, i: nat): Frames
    requires dst in v.links && src in v.links && v.links[dst].page in v.data && v.links[src].page in v.data && i <= 1024
  {
    if i == 0 then v else
    var l := v.links[dst];
    v.(links := v.links[dst := Link(l.page, Touched(l.flags))],
       data := v.data[l.page := Spliced(v.data[v.links[src].page], v.data[l.page], i)])
  }

  lemma CopyOneWord(v: Frames, dst: Ref, src: Ref, i: nat)
    requires dst in v.links && src in v.links && v.links[dst].page in v.data && v.links[src].page in v.data && i < 1024
    requires dst != src && v.links[dst].page != v.links[src].page && v.links[dst].flags.w && v.links[dst].flags.u
    ensures var u := CopiedWords(v, dst, src, i);
      && CanStore(u, dst) && src in u.links && u.links[src] == v.links[src] && u.links[src].page in u.data
      && u.data[u.links[src].page] == v.data[v.links[src].page]
      && Store(u, dst, i, v.data[v.links[src].page][i]) == CopiedWords(v, dst, src, i + 1)
  {
    var l := v.links[dst];
    SpliceOne(v.data[v.links[src].page], v.data[l.page], i);
    TouchedTwice(l.flags);
    hide Spliced, Touched;
    var u := CopiedWords(v, dst, src, i);
    var next := CopiedWords(v, dst, src, i + 1);
    var stored := Store(u, dst, i, v.data[v.links[src].page][i]);
    assert u.links[dst].page == l.page && u.data[l.page] == Spliced(v.data[v.links[src].page], v.data[l.page], i);
    assert CanStore(u, dst);
    assert stored.links == u.links[dst := Link(l.page, Touched(u.links[dst].flags))] == next.links;
    assert stored.data == next.data;
  }

  lemma TouchedTwice(f: Flags)
    ensures Touched(Touched(f)) == Touched(f) && Touched(f).w == f.w && Touched(f).u == f.u
  {
  }

  lemma AllWordsCopied(v: Frames, dst: Ref, src: Ref)
    requires dst in v.links && src in v.links && v.links[dst].page in v.data && v.links[src].page in v.data
    ensures CopiedWords(v, dst, src, 1024) == CopyPage(v, dst, src)
  {
    SpliceOne(v.data[v.links[src].page], v.data[v.links[dst].page], 0);
    hide Spliced;
  }

  lemma ValidSystem(m: Machine)
    requires m.Valid()
    ensures SystemOk(m.Sys(), m.managed)
  {
  }

  lemma LeafIsLeaf(e: nat, va: nat)
    ensures LeafAt(e, va).Leaf?
  {
  }

  /** One word of a memmove from src to dst, through the page tables. */
  method CopyWord(m: Machine, cur: Slot, dst: nat, src: nat)
    requires m.Valid() && m.envs[cur].status == Running && dst < UTOP && src < UTOP
    requires LeafAt(cur, src) in m.frames.links
    modifies m
    ensures m.Valid() && m.envs == old(m.envs)
    ensures old(m.frames).links[LeafAt(cur, src)].page in old(m.frames).data
    ensures m.Sys() == StoreAt(old(m.Sys()), cur, dst,
            old(m.frames).data[old(m.frames).links[LeafAt(cur, src)].page][WordAt(src)])
  {
    hide m.Valid, LeafAt, WordAt, Store;
    var w := m.LoadWord(cur, src);
    m.StoreWord(cur, dst, w.value);
  }

  /** dst is a writable page of its own that src can be copied to. */
  ghost predicate CanCopy(v: Frames, dst: Ref, src: Ref) {
    && dst in v.links && src in v.links && v.links[dst].page in v.data && v.links[src].page in v.data
    && dst != src && v.links[dst].page != v.links[src].page && v.links[dst].flags.w && v.links[dst].flags.u
  }

  lemma MappedCanCopy(m: Machine, dst: Ref, src: Ref)
    requires m.Valid() && dst.Leaf? && src.Leaf? && CanStore(m.frames, dst) && src in m.frames.links
    requires m.frames.links[dst].page != m.frames.links[src].page
    ensures CanCopy(m.frames, dst, src)
  {
    hide SystemOk, m.Valid;
    ValidSystem(m);
    SystemFrames(m.Sys(), m.managed);
    MappedIsData(m.frames, m.managed, dst);
    MappedIsData(m.frames, m.managed, src);
  }

  /** Word i of a memmove that has copied the words before it. */
  method CopyWordAt(m: Machine, cur: Slot, dst: nat, src: nat, i: nat, ghost v: Frames)
    requires m.Valid() && m.envs[cur].status == Running && UserPageAddress(dst) && UserPageAddress(src) && i < 1024
    requires CanCopy(v, LeafAt(cur, dst), LeafAt(cur, src))
    requires m.frames == CopiedWords(v, LeafAt(cur, dst), LeafAt(cur, src), i)
    modifies m
    ensures m.Valid()
    ensures m.Sys() == old(m.Sys()).(frames := CopiedWords(v, LeafAt(cur, dst), LeafAt(cur, src), i + 1))
  {
    hide m.Valid, UserPageAddress, LeafAt, WordAt, CopiedWords, Store;
    WordAddress(cur, src, i);
    WordAddress(cur, dst, i);
    CopyOneWord(v, LeafAt(cur, dst), LeafAt(cur, src), i);
    CopyWord(m, cur, dst + 4 * i, src + 4 * i);
  }

  /** memmove(dst, src, PGSIZE). */
  method CopyWords(m: Machine, cur: Slot, dst: nat, src: nat)
    requires m.Valid() && m.envs[cur].status == Running && UserPageAddress(dst) && UserPageAddress(src)
    requires CanStore(m.frames, LeafAt(cur, dst)) && LeafAt(cur, src) in m.frames.links
    requires m.frames.links[LeafAt(cur, dst)].page != m.frames.links[LeafAt(cur, src)].page
    modifies m
    ensures m.Valid()
    ensures m.Sys() == old(m.Sys()).(frames := CopyPage(old(m.frames), LeafAt(cur, dst), LeafAt(cur, src)))
  {
    hide m.Valid, UserPageAddress, CopyPage, LeafAt;
    ghost var v := m.frames;
    ghost var d, s := LeafAt(cur, dst), LeafAt(cur, src);
    LeafIsLeaf(cur, dst);
    LeafIsLeaf(cur, src);
    MappedCanCopy(m, d, s);
    assert v == CopiedWords(v, d, s, 0);
    hide CopiedWords;
    var i := 0;
    while i < 1024
      invariant i <= 1024 && m.Valid() && m.envs == old(m.envs) && m.envFree == old(m.envFree)
      invariant m.frames == CopiedWords(v, d, s, i)
    {
      CopyWordAt(m, cur, dst, src, i, v);
      i := i + 1;
    }
    AllWordsCopied(v, d, s);
  }

  /** pgfault, for a store at va by cur. */
  method PgFaultCall(m: Machine, cur: Slot, va: nat) returns (ok: bool)
    requires m.Valid() && m.envs[cur].status == Running && va < USTACKTOP && LeafAt(cur, va) != LeafAt(cur, PFTEMP)
    requires RoomForDup(m.Sys())
    modifies m
    ensures m.Valid()
    ensures (m.Sys(), ok) == PgFault(old(m.Sys()), cur, va)
  {
    hide SystemOk, PageMap, PageAlloc, NoCountFull, RoomForDup, Pdx, Ptx, m.Consistent, UserPageAddress, Leaves,
         SameContents;
    PageOfFacts(cur, va);
    SelfNamed(m.envs, cur);
    var pte := m.LoadFlags(cur, va);
    if pte.None? || !IsCow(pte.value) {
      return false;
    }
    ghost var s := m.Sys();
    AllocEffect(s, m.managed, cur, 0, PFTEMP, PERM_RW);
    var err := m.SysPageAlloc(cur, 0, PFTEMP, PERM_RW);
    if err < 0 {
      return false;
    }
    ghost var s1 := m.Sys();
    ScratchFacts(s, s1, m.managed, cur, va);
    CopyWords(m, cur, PFTEMP, PageOf(va));
    err := m.SysPageMap(cur, 0, PFTEMP, 0, PageOf(va), PERM_RW);
    MapEnvs(s1.(frames := CopyPage(s1.frames, LeafAt(cur, PFTEMP), LeafAt(cur, va))), cur, PFTEMP, 0, PageOf(va),
      PERM_RW);
    if err < 0 {
      return false;
    }
    err := m.SysPageUnmap(cur, 0, PFTEMP);
    return err >= 0;
  }

  /** After the scratch page is mapped: it is writable, it is not the page that faulted, and the
      counts still have room. */
  lemma ScratchFacts(s: System, s1: System, managed: set<nat>, cur: Slot, va: nat)
    requires SystemOk(s, managed) && s.frames.free != [] && RoomForDup(s)
    requires LeafAt(cur, va) in s.frames.links && LeafAt(cur, va) != LeafAt(cur, PFTEMP)
    requires forall r :: r in s.frames.links ==> s.frames.links[r].page != s.frames.free[0]
    requires s1 == PageAlloc(s, cur, 0, PFTEMP, PERM_RW).0
    requires Leaves(s1.frames.links) ==
             Leaves(s.frames.links)[LeafAt(cur, PFTEMP) := Link(s.frames.free[0], WithP(PERM_RW.low))]
    ensures CanStore(s1.frames, LeafAt(cur, PFTEMP)) && LeafAt(cur, va) in s1.frames.links
    ensures s1.frames.links[LeafAt(cur, PFTEMP)].page != s1.frames.links[LeafAt(cur, va)].page
    ensures NoCountFull(s1.(frames := CopyPage(s1.frames, LeafAt(cur, PFTEMP), LeafAt(cur, va))))
  {
    hide SystemOk, Pdx, Ptx;
    var temp, leaf := LeafAt(cur, PFTEMP), LeafAt(cur, va);
    assert leaf in Leaves(s.frames.links);
    assert leaf in Leaves(s1.frames.links) && temp in Leaves(s1.frames.links);
    var w := CopyPage(s1.frames, temp, leaf);
    InsertFrame(Vm.Alloc(s.frames), cur, Pdx(PFTEMP), Ptx(PFTEMP), s.frames.free[0], PERM_RW.low);
    var table := Table(cur, Pdx(PFTEMP));
    forall p: nat ensures |Holders(w.links, p)| < 65535 {
      assert Holders(w.links, p) <= Holders(s.frames.links, p) + {temp, table};
      SmallUnion(Holders(w.links, p), Holders(s.frames.links, p), temp, table);
    }
  }
}
