/** The kernel's page allocator, page tables, environments and system calls, with the data
    structures of the source: PageInfo counts and links, page directories and page tables in
    physical memory, environment slots and their free list.  Each method is proved to do to the
    state it stands for exactly what the function of module Vm or Syscalls says. */
module Kernel {
  import opened Mmu
  import opened Vm
  import opened Syscalls
  import opened KernelRepr

  const IO_HOLE: nat := 0xA0       // IOPHYSMEM / PGSIZE
  const EXT_MEM: nat := 0x100      // EXTPHYSMEM / PGSIZE
  const MPENTRY: nat := 0x7        // MPENTRY_PADDR / PGSIZE

  /** The pages page_init hands to the allocator: not page 0, not the I/O hole, not the kernel
      and its boot-time data, not the start-up code of the other processors. */
  predicate Allocatable(i: nat, firstFree: nat) {
    !(i == 0 || IO_HOLE <= i < EXT_MEM || EXT_MEM <= i < firstFree || i == MPENTRY)
  }

  /** page_init: the links thread the allocatable pages, last page first, and no other page. */
  method PageInit(npages: nat, firstFree: nat) returns (head: Option<nat>, link: seq<Option<nat>>, ghost free: seq<nat>)
    ensures |link| == npages && Lists(head, link, free)
    ensures forall p: nat :: p in free <==> p < npages && Allocatable(p, firstFree)
    ensures forall p: nat :: p < npages && p !in free ==> link[p] == None
    ensures forall k, l :: 0 <= k < l < |free| ==> free[k] > free[l]
  {
    head, link, free := None, seq(npages, i => None), [];
    hide Lists, Allocatable;
    var i := 0;
    while i < npages
      invariant i <= npages && |link| == npages
      invariant Lists(head, link, free)
      invariant forall p: nat :: p in free <==> p < i && Allocatable(p, firstFree)
      invariant forall p: nat :: p < npages && p !in free ==> link[p] == None
      invariant forall k, l :: 0 <= k < l < |free| ==> free[k] > free[l]
    {
      if Allocatable(i, firstFree) {
        ListPush(head, link, free, i);
        assert forall k :: 0 <= k < |free| ==> free[k] in free;
        link := link[i := head];
        head := Some(i);
        free := [i] + free;
        assert forall p :: p in free <==> p == i || p in free[1..];
      }
      i := i + 1;
    }
  }

  /** env_init: the links thread all slots, first slot first. */
  method EnvInit() returns (head: Option<nat>, link: seq<Option<nat>>, ghost slots: seq<Slot>)
    ensures |link| == NENV && |slots| == NENV && Lists(head, link, slots)
    ensures forall e: Slot :: slots[e] == e
  {
    head, link, slots := None, seq(NENV, j => None), [];
    var n := 0;
    while n < NENV
      invariant n <= NENV && |link| == NENV && |slots| == n
      invariant Lists(head, link, slots)
      invariant forall k :: 0 <= k < n ==> slots[k] == NENV - n + k
    {
      var index := NENV - 1 - n;
      ListPush(head, link, slots, index);
      link := link[index := head];
      head := Some(index);
      slots := [index] + slots;
      n := n + 1;
    }
  }

  lemma ListedOnce(head: Option<nat>, link: seq<Option<nat>>, s: seq<nat>)
    requires Lists(head, link, s)
    ensures NoDup(s)
  {
  }

  lemma InitialFrames(free: seq<nat>, npages: nat, firstFree: nat)
    requires NoDup(free) && forall p: nat :: p in free <==> p < npages && Allocatable(p, firstFree)
    ensures WellFormed(Frames(map[], free, {}, map[]), set i: nat | i < npages && Allocatable(i, firstFree))
  {
  }

  class Machine {
    const npages: nat
    const kernPgdir: Page
    ghost const managed: set<nat>

    var mem: seq<Page>                  // physical memory
    var ppRef: seq<nat>                 // PageInfo.pp_ref, 16 bits
    var ppLink: seq<Option<nat>>        // PageInfo.pp_link
    var pageFreeList: Option<nat>
    var pgdir: seq<Option<nat>>         // Env.env_pgdir
    var envs: EnvTable
    var envLink: seq<Option<nat>>       // Env.env_link
    var envFreeList: Option<nat>

    ghost var frames: Frames
    ghost var envFree: seq<Slot>

    ghost function Sys(): System
      reads this
    {
      System(frames, envs, envFree)
    }

    /** Every count is the number of references, and the links spell out the free list. */
    ghost predicate PagesOk()
      reads this
    {
      |mem| == npages && PagesRep(ppRef, ppLink, pageFreeList, frames, managed, npages)
    }

    /** The directories and tables in memory are the map of references. */
    ghost predicate MemoryOk()
      reads this
    {
      && |pgdir| == NENV && MemRep(mem, pgdir, frames)
      && (forall d: nat :: d < USER_TABLES ==> !Present(kernPgdir[d]))
    }

    ghost predicate Consistent()
      reads this
    {
      PagesOk() && MemoryOk() && WellFormed(frames, managed)
    }

    ghost predicate Valid()
      reads this
    {
      Consistent() && SystemOk(Sys(), managed) && |envLink| == NENV && Lists(envFreeList, envLink, envFree)
    }

    // -------------------------------------------------------------- physical pages

    /** page_alloc(ALLOC_ZERO). */
    method PageAlloc() returns (p: Option<nat>)
      requires Consistent()
      modifies this`mem, this`ppLink, this`pageFreeList, this`frames
      ensures Consistent()
      ensures p == First(old(frames.free))
      ensures frames == if p.Some? then Alloc(old(frames)) else old(frames)
    {
      if pageFreeList.None? {
        return None;
      }
      var q := pageFreeList.value;
      AllocKeeps(frames, managed);
      NotStructural(frames.links, q);
      WriteDataPage(mem, frames.links, frames.data, q, ZeroPage());
      ListPop(pageFreeList, ppLink, frames.free, None);
      FreeTail(frames.free);
      mem := mem[q := ZeroPage()];
      pageFreeList := ppLink[q];
      ppLink := ppLink[q := None];
      frames := Alloc(frames);
      return Some(q);
    }

    /** page_free, whose panics on a counted or listed page never fire here. */
    method PageFree(p: nat)
      requires PagesOk() && p in managed && p !in frames.free && ppRef[p] == 0
      modifies this`ppLink, this`pageFreeList, this`frames
      ensures PagesOk()
      ensures frames == Release(old(frames), p)
    {
      assert ppRef[p] == 0 && ppLink[p] == None;
      ListPush(pageFreeList, ppLink, frames.free, p);
      ppLink := ppLink[p := pageFreeList];
      pageFreeList := Some(p);
      frames := Release(frames, p);
    }

    /** page_decref: one reference goes, and the page with it if it was the last. */
    method PageDecref(p: nat, ghost r: Ref)
      requires PagesOk() && r in frames.links && frames.links[r].page == p && p in managed && p !in frames.free
      requires p !in frames.loose
      modifies this`ppRef, this`ppLink, this`pageFreeList, this`frames
      ensures PagesOk()
      ensures frames == Drop(old(frames), r)
    {
      RefsAfterDrop(ppRef, frames.links, managed, r);
      ppRef := ppRef[p := ppRef[p] - 1];
      ghost var before := frames;
      frames := frames.(links := frames.links - {r});
      if ppRef[p] == 0 {
        PageFree(p);
        assert frames == Drop(before, r);
      }
    }

    // -------------------------------------------------------------- page tables

    /** pgdir_walk: the page that holds the page table of va, or None. */
    method PgdirWalk(e: Slot, va: nat, create: bool) returns (table: Option<nat>)
      requires Consistent() && Root(e) in frames.links && va < UTOP
      modifies this`mem, this`ppRef, this`ppLink, this`pageFreeList, this`frames
      ensures Consistent()
      ensures frames == if create && CanWalk(old(frames), e, Pdx(va)) then Walk(old(frames), e, Pdx(va))
              else old(frames)
      ensures table.None? <==> Table(e, Pdx(va)) !in frames.links
      ensures table.Some? ==> table.value == frames.links[Table(e, Pdx(va))].page
      ensures !create ==> unchanged(this)
    {
      hide WellFormed, PagesRep, MemRep;
      var d := Pdx(va);
      DirEntry(mem, pgdir, frames, e, d);
      var dir := pgdir[e].value;
      if !Present(mem[dir][d]) {
        if !create {
          return None;
        }
        ghost var before := frames;
        var page := PageAlloc();
        if page.None? {
          return None;
        }
        var p := page.value;
        AddTablePages(before, managed, e, d, ppRef, ppLink, pageFreeList, npages);
        AddTableMemory(before, managed, e, d, mem, pgdir);
        WalkKeeps(before, managed, e, d);
        assert ppRef[p] == 0;
        ppRef := ppRef[p := ppRef[p] + 1];
        mem := mem[dir := mem[dir][d := EntryWord(p, TABLE_FLAGS)]];
        frames := Walk(before, e, d);
      }
      DirEntry(mem, pgdir, frames, e, d);
      return Some(mem[dir][d].frame);
    }

    /** page_lookup: the page mapped at va and the page table that maps it. */
    method PageLookup(e: Slot, va: nat) returns (page: Option<nat>, table: Option<nat>)
      requires Consistent() && Root(e) in frames.links && va < UTOP
      modifies this`mem, this`ppRef, this`ppLink, this`pageFreeList, this`frames
      ensures unchanged(this)
      ensures page.Some? <==> LeafAt(e, va) in frames.links
      ensures page.Some? ==> table.Some? && page.value == frames.links[LeafAt(e, va)].page
      ensures page.Some? ==> table.value < npages
      ensures page.Some? ==> mem[table.value][Ptx(va)].flags == frames.links[LeafAt(e, va)].flags
      ensures page.Some? ==> Table(e, Pdx(va)) in frames.links && table.value == frames.links[Table(e, Pdx(va))].page
    {
      table := PgdirWalk(e, va, false);
      if table.None? {
        return None, None;
      }
      TableEntry(mem, pgdir, frames, e, Pdx(va), Ptx(va));
      if !Present(mem[table.value][Ptx(va)]) {
        return None, table;
      }
      return Some(mem[table.value][Ptx(va)].frame), table;
    }

    /** page_remove. */
    method PageRemove(e: Slot, va: nat)
      requires Consistent() && Root(e) in frames.links && va < UTOP
      modifies this`mem, this`ppRef, this`ppLink, this`pageFreeList, this`frames
      ensures Consistent()
      ensures frames == Drop(old(frames), LeafAt(e, va))
    {
      hide WellFormed, PagesRep, MemRep;
      var page, table := PageLookup(e, va);
      if page.None? {
        return;
      }
      ghost var leaf := LeafAt(e, va);
      ghost var before := frames;
      MappedIsData(frames, managed, leaf);
      DropKeeps(frames, managed, leaf);
      ClearEntry(frames, managed, e, Pdx(va), Ptx(va), mem, pgdir);
      PageDecref(page.value, leaf);
      mem := mem[table.value := mem[table.value][Ptx(va) := ZERO_WORD]];
    }

    /** page_insert: the new reference is taken before the old mapping goes, so a page
        inserted where it already is keeps its count and its contents. */
    method PageInsert(e: Slot, p: nat, va: nat, perm: Flags) returns (err: int)
      requires Consistent() && Root(e) in frames.links && va < UTOP
      requires p in managed && p !in frames.free && !Structural(frames.links, p)
      requires |Holders(frames.links, p)| < 65535
      requires InTransit !in frames.links
      modifies this`mem, this`ppRef, this`ppLink, this`pageFreeList, this`frames
      ensures Consistent()
      ensures err == if CanWalk(old(frames), e, Pdx(va)) then 0 else -E_NO_MEM
      ensures frames == Insert(old(frames), e, Pdx(va), Ptx(va), p, perm)
    {
      hide WellFormed, PagesRep, MemRep, SetEntry, Drop, Holders, Exclusive, DataApart, Structural;
      ghost var start := frames;
      if CanWalk(frames, e, Pdx(va)) {
        WalkKeeps(frames, managed, e, Pdx(va));
      }
      var table := PgdirWalk(e, va, true);
      if table.None? {
        return -E_NO_MEM;
      }
      ghost var walked := frames;
      ghost var leaf := LeafAt(e, va);
      StructuralAfterWalk(start, managed, e, Pdx(va), p);
      TakeReference(walked, managed, p, ppRef, ppLink, pageFreeList, mem, pgdir);
      ppRef := ppRef[p := (ppRef[p] + 1) % 65536];
      frames := Hold(frames, InTransit, p);
      TableEntry(mem, pgdir, frames, e, Pdx(va), Ptx(va));
      if Present(mem[table.value][Ptx(va)]) {
        PageRemove(e, va);
      } else {
        DropAbsent(frames, leaf);
      }
      FinishInsert(walked, frames, managed, e, Pdx(va), Ptx(va), p, perm, ppRef, ppLink, pageFreeList, mem, pgdir);
      mem := mem[table.value := mem[table.value][Ptx(va) := EntryWord(p, perm)]];
      frames := SetEntry(walked, leaf, Link(p, WithP(perm)));
      return 0;
    }

    // -------------------------------------------------------------- environments

    /** env_setup_vm: a copy of the kernel's directory, with its own entry at UVPT. */
    method EnvSetupVm(e: Slot) returns (err: int)
      requires Consistent() && Root(e) !in frames.links
      modifies this`mem, this`ppRef, this`ppLink, this`pageFreeList, this`pgdir, this`frames
      ensures Consistent()
      ensures err == if old(frames.free) == [] then -E_NO_MEM else 0
      ensures frames == if err < 0 then old(frames) else MakeRoot(Alloc(old(frames)), e, old(frames.free)[0])
    {
      hide WellFormed, PagesRep, MemRep;
      var page := PageAlloc();
      if page.None? {
        return -E_NO_MEM;
      }
      var p := page.value;
      var copy := kernPgdir[UVPT / PTSIZE := Word(p, NO_FLAGS.(p := true, u := true))];
      InstallDirectory(frames, managed, e, p, copy, ppRef, ppLink, pageFreeList, mem, pgdir);
      ppRef := ppRef[p := ppRef[p] + 1];
      pgdir := pgdir[e := Some(p)];
      mem := mem[p := copy];
      frames := MakeRoot(frames, e, p);
      return 0;
    }

    /** env_alloc. */
    method EnvAlloc(parent: int) returns (err: int, slot: Slot)
      requires Valid()
      modifies this
      ensures Valid()
      ensures (Sys(), err) == Syscalls.EnvAlloc(old(Sys()), parent)
      ensures err == 0 ==> old(envFree) != [] && slot == old(envFree)[0]
    {
      hide WellFormed, PagesRep, MemRep, SystemOk, Lists;
      EnvAllocKeeps(Sys(), managed, parent);
      ListHead(envFreeList, envLink, envFree);
      slot := 0;
      if envFreeList.None? {
        return -E_NO_FREE_ENV, slot;
      }
      ListPop(envFreeList, envLink, envFree, envLink[envFreeList.value]);
      slot := envFreeList.value;
      SlotFacts(Sys(), managed, slot);
      err := EnvSetupVm(slot);
      if err < 0 {
        return;
      }
      var env := envs[slot];
      envs := envs[slot := env.(id := NextId(env.id, slot), parent := parent, status := Runnable, recving := false)];
      envFreeList := envLink[slot];
      envFree := envFree[1..];
    }

    /** The inner loop of env_free. */
    method UnmapTable(e: Slot, pdeno: nat, pt: nat)
      requires Consistent() && Table(e, pdeno) in frames.links && pt == frames.links[Table(e, pdeno)].page
      requires pdeno < USER_TABLES
      requires Root(e) in frames.links
      modifies this`mem, this`ppRef, this`ppLink, this`pageFreeList, this`frames
      ensures Consistent()
      ensures frames == DropLeaves(old(frames), e, pdeno, NPTENTRIES)
    {
      hide WellFormed, PagesRep, MemRep, Drop;
      var pteno := 0;
      while pteno < NPTENTRIES
        invariant pteno <= NPTENTRIES
        invariant Consistent() && Root(e) in frames.links
        invariant Table(e, pdeno) in frames.links && pt == frames.links[Table(e, pdeno)].page
        invariant frames == DropLeaves(old(frames), e, pdeno, pteno)
      {
        PgAddr(pdeno, pteno);
        TableEntry(mem, pgdir, frames, e, pdeno, pteno);
        DropOther(frames, Leaf(e, pdeno, pteno));
        if Present(mem[pt][pteno]) {
          PageRemove(e, pdeno * 0x400000 + pteno * 4096);
        }
        pteno := pteno + 1;
      }
    }

    /** One turn of the outer loop of env_free. */
    method FreeTable(e: Slot, pdeno: nat)
      requires Consistent() && Root(e) in frames.links && pdeno < USER_TABLES
      modifies this`mem, this`ppRef, this`ppLink, this`pageFreeList, this`frames
      ensures Consistent() && Root(e) in frames.links
      ensures frames == if Table(e, pdeno) in old(frames.links) then DropTable(old(frames), e, pdeno) else old(frames)
    {
      hide WellFormed, PagesRep, MemRep, Drop, DropLeaves;
      DirEntry(mem, pgdir, frames, e, pdeno);
      var dir := pgdir[e].value;
      if !Present(mem[dir][pdeno]) {
        return;
      }
      var pt := mem[dir][pdeno].frame;
      TableEmptied(frames, managed, e, pdeno);
      UnmapTable(e, pdeno, pt);
      ReferenceFacts(frames, managed, Table(e, pdeno));
      ClearTable(frames, managed, e, pdeno, mem, pgdir);
      DropKeeps(frames, managed, Table(e, pdeno));
      DropOther(frames, Table(e, pdeno));
      DirEntry(mem, pgdir, frames, e, pdeno);
      mem := mem[dir := mem[dir][pdeno := ZERO_WORD]];
      PageDecref(pt, Table(e, pdeno));
    }

    /** env_free, the part before the environment goes back to its free list. */
    method FreeSpace(e: Slot)
      requires Consistent() && Root(e) in frames.links
      modifies this`mem, this`ppRef, this`ppLink, this`pageFreeList, this`pgdir, this`frames
      ensures Consistent()
      ensures frames == DropSpace(old(frames), e)
    {
      hide WellFormed, PagesRep, MemRep, Drop, DropTable;
      ghost var start := frames;
      var pdeno := 0;
      while pdeno < USER_TABLES
        invariant pdeno <= USER_TABLES
        invariant Consistent() && Root(e) in frames.links
        invariant frames == DropTables(start, e, pdeno)
      {
        FreeTable(e, pdeno);
        pdeno := pdeno + 1;
      }
      DirEntry(mem, pgdir, frames, e, 0);
      TablesEmptied(start, managed, e);
      ReferenceFacts(frames, managed, Root(e));
      ClearRoot(frames, managed, e, mem, pgdir);
      DropKeeps(frames, managed, Root(e));
      var dir := pgdir[e].value;
      pgdir := pgdir[e := None];
      PageDecref(dir, Root(e));
    }

    /** env_free. */
    method EnvFree(e: Slot)
      requires Valid() && envs[e].status != Free
      modifies this
      ensures Valid()
      ensures Sys() == Syscalls.EnvFree(old(Sys()), e)
    {
      hide WellFormed, PagesRep, MemRep, DropSpace, SystemOk, Lists;
      EnvFreeKeeps(Sys(), managed, e);
      SlotFacts(Sys(), managed, e);
      FreeSpace(e);
      envs := envs[e := envs[e].(status := Free)];
      ListPush(envFreeList, envLink, envFree, e);
      envLink := envLink[e := envFreeList];
      envFreeList := Some(e);
      envFree := [e] + envFree;
    }

    /** env_destroy. */
    method EnvDestroy(e: Slot, cur: Slot)
      requires Valid() && envs[e].status != Free
      modifies this
      ensures Valid()
      ensures Sys() == if old(envs)[e].status == Running && e != cur
                       then old(Sys()).(envs := old(envs)[e := old(envs)[e].(status := Dying)])
                       else Syscalls.EnvFree(old(Sys()), e)
    {
      if envs[e].status == Running && cur != e {
        StatusKeeps(Sys(), managed, e, Dying);
        envs := envs[e := envs[e].(status := Dying)];
        return;
      }
      EnvFree(e);
    }

    /** envid2env. */
    method EnvId2Env(cur: Slot, envid: int, checkperm: bool) returns (r: Option<Slot>)
      ensures r == EnvOf(envs, cur, envid, checkperm)
    {
      if envid == 0 {
        return Some(cur);
      }
      var e := envid % NENV;
      if envs[e].status == Free || envs[e].id != envid {
        return None;
      }
      if checkperm && e != cur && envs[e].parent != envs[cur].id {
        return None;
      }
      return Some(e);
    }

    // -------------------------------------------------------------- system calls

    /** Every count leaves room for one more reference in its 16 bits. */
    ghost predicate Unsaturated()
      reads this
    {
      NoCountFull(Sys())
    }

    method SysExofork(cur: Slot) returns (r: int)
      requires Valid() && envs[cur].status == Running
      modifies this
      ensures Valid()
      ensures (Sys(), r) == Exofork(old(Sys()), cur)
    {
      hide WellFormed, PagesRep, MemRep;
      ExoforkKeeps(Sys(), managed, cur);
      var err, slot := EnvAlloc(envs[cur].id);
      if err < 0 {
        return err;
      }
      envs := envs[slot := envs[slot].(status := NotRunnable)];
      return envs[slot].id;
    }

    method SysEnvSetStatus(cur: Slot, envid: int, status: Status) returns (r: int)
      requires Valid() && envs[cur].status == Running
      modifies this`envs
      ensures Valid()
      ensures (Sys(), r) == SetStatus(old(Sys()), cur, envid, status)
    {
      hide WellFormed, PagesRep, MemRep;
      SetStatusKeeps(Sys(), managed, cur, envid, status);
      if status != Runnable && status != NotRunnable {
        return -E_INVAL;
      }
      var target := EnvId2Env(cur, envid, true);
      if target.None? {
        return -E_BAD_ENV;
      }
      envs := envs[target.value := envs[target.value].(status := status)];
      return 0;
    }

    method SysEnvDestroy(cur: Slot, envid: int) returns (r: int)
      requires Valid() && envs[cur].status == Running
      modifies this
      ensures Valid()
      ensures (Sys(), r) == Destroy(old(Sys()), cur, envid)
    {
      var target := EnvId2Env(cur, envid, true);
      if target.None? {
        return -E_BAD_ENV;
      }
      EnvDestroy(target.value, cur);
      return 0;
    }

    /** sys_page_alloc: a page that cannot be mapped goes back to the free list. */
    method SysPageAlloc(cur: Slot, envid: int, va: nat, perm: Perm) returns (r: int)
      requires Valid() && envs[cur].status == Running
      modifies this
      ensures Valid()
      ensures (Sys(), r) == Syscalls.PageAlloc(old(Sys()), cur, envid, va, perm)
    {
      hide WellFormed, PagesRep, MemRep, Insert, Structural, Holders;
      PageAllocKeeps(Sys(), managed, cur, envid, va, perm);
      var target := EnvId2Env(cur, envid, true);
      if target.None? {
        return -E_BAD_ENV;
      }
      if !SyscallPerm(perm) || va >= UTOP || !PageAligned(va) {
        return -E_INVAL;
      }
      ghost var before := frames;
      var page := PageAlloc();
      if page.None? {
        return -E_NO_MEM;
      }
      FreshPage(before, managed);
      InsertBlocked(frames, target.value, Pdx(va), Ptx(va), page.value, perm.low);
      var err := PageInsert(target.value, page.value, va, perm.low);
      if err != 0 {
        ReleaseFresh(before, managed);
        FreshPageRef(before, managed, ppRef, ppLink, pageFreeList, npages);
        PageFree(page.value);
        ShrinkData(mem, pgdir, Alloc(before), frames);
        return err;
      }
      return 0;
    }

    method SysPageMap(cur: Slot, srcid: int, srcva: nat, dstid: int, dstva: nat, perm: Perm) returns (r: int)
      requires Valid() && envs[cur].status == Running && Unsaturated()
      modifies this
      ensures Valid()
      ensures (Sys(), r) == Syscalls.PageMap(old(Sys()), cur, srcid, srcva, dstid, dstva, perm)
    {
      hide WellFormed, PagesRep, MemRep, Insert, Structural, Holders;
      PageMapKeeps(Sys(), managed, cur, srcid, srcva, dstid, dstva, perm);
      var src := EnvId2Env(cur, srcid, true);
      if src.None? {
        return -E_BAD_ENV;
      }
      var dst := EnvId2Env(cur, dstid, true);
      if dst.None? {
        return -E_BAD_ENV;
      }
      if srcva >= UTOP || !PageAligned(srcva) || dstva >= UTOP || !PageAligned(dstva) || !SyscallPerm(perm) {
        return -E_INVAL;
      }
      var page, table := PageLookup(src.value, srcva);
      if page.None? {
        return -E_INVAL;
      }
      if !mem[table.value][Ptx(srcva)].flags.w && perm.low.w {
        return -E_INVAL;
      }
      MappedIsData(frames, managed, LeafAt(src.value, srcva));
      InsertBlocked(frames, dst.value, Pdx(dstva), Ptx(dstva), page.value, perm.low);
      r := PageInsert(dst.value, page.value, dstva, perm.low);
    }

    method SysPageUnmap(cur: Slot, envid: int, va: nat) returns (r: int)
      requires Valid() && envs[cur].status == Running
      modifies this
      ensures Valid()
      ensures (Sys(), r) == Syscalls.PageUnmap(old(Sys()), cur, envid, va)
    {
      hide WellFormed, PagesRep, MemRep, Drop;
      PageUnmapKeeps(Sys(), managed, cur, envid, va);
      var target := EnvId2Env(cur, envid, true);
      if target.None? {
        return -E_BAD_ENV;
      }
      if va >= UTOP || !PageAligned(va) {
        return -E_INVAL;
      }
      PageRemove(target.value, va);
      return 0;
    }

    method SysIpcRecv(cur: Slot, dstva: nat) returns (r: int)
      requires Valid() && envs[cur].status == Running
      modifies this`envs
      ensures Valid()
      ensures (Sys(), r) == IpcRecv(old(Sys()), cur, dstva)
    {
      hide WellFormed, PagesRep, MemRep;
      IpcRecvKeeps(Sys(), managed, cur, dstva);
      if dstva < UTOP && !PageAligned(dstva) {
        return -E_INVAL;
      }
      envs := envs[cur := envs[cur].(recving := true, dstva := dstva, status := NotRunnable)];
      return 0;
    }

    /** The page part of sys_ipc_try_send. */
    method SendPage(cur: Slot, srcva: nat, to: Slot, dstva: nat, perm: Perm) returns (r: int)
      requires Consistent() && InTransit !in frames.links && Root(cur) in frames.links && Root(to) in frames.links
      requires Unsaturated() && srcva < UTOP && dstva < UTOP
      modifies this`mem, this`ppRef, this`ppLink, this`pageFreeList, this`frames
      ensures Consistent()
      ensures r == if !PageAligned(srcva) || !SyscallPerm(perm) || !MayShare(old(frames), LeafAt(cur, srcva), perm.low)
              then -E_INVAL
                   else if !CanWalk(old(frames), to, Pdx(dstva)) then -E_NO_MEM else 0
      ensures frames == if r < 0 then old(frames)
                        else Insert(old(frames), to, Pdx(dstva), Ptx(dstva), old(frames).links[LeafAt(cur, srcva)].page,
                          perm.low)
    {
      hide WellFormed, PagesRep, MemRep, Insert, Structural, Holders;
      if !PageAligned(srcva) || !SyscallPerm(perm) {
        return -E_INVAL;
      }
      var page, table := PageLookup(cur, srcva);
      if page.None? {
        return -E_INVAL;
      }
      if !mem[table.value][Ptx(srcva)].flags.w && perm.low.w {
        return -E_INVAL;
      }
      MappedIsData(frames, managed, LeafAt(cur, srcva));
      InsertBlocked(frames, to, Pdx(dstva), Ptx(dstva), page.value, perm.low);
      r := PageInsert(to, page.value, dstva, perm.low);
    }

    method SysIpcTrySend(cur: Slot, envid: int, value: nat, srcva: nat, perm: Perm) returns (r: int)
      requires Valid() && envs[cur].status == Running && Unsaturated()
      modifies this
      ensures Valid()
      ensures (Sys(), r) == IpcTrySend(old(Sys()), cur, envid, value, srcva, perm)
    {
      hide WellFormed, PagesRep, MemRep, Insert, MayShare, CanWalk, Holders, SyscallPerm, Pdx, Ptx, EnvTableOk;
      RootsLive(Sys(), managed);
      IpcTrySendKeeps(Sys(), managed, cur, envid, value, srcva, perm);
      var target := EnvId2Env(cur, envid, false);
      if target.None? {
        return -E_BAD_ENV;
      }
      var to := target.value;
      if !envs[to].recving {
        return -E_IPC_NOT_RECV;
      }
      envs := envs[to := envs[to].(perm := NO_FLAGS)];
      if srcva < UTOP && envs[to].dstva < UTOP {
        r := SendPage(cur, srcva, to, envs[to].dstva, perm);
        if r < 0 {
          return;
        }
        envs := envs[to := envs[to].(perm := perm.low)];
      }
      envs := envs[to := envs[to].(recving := false, from := envs[cur].id, value := value, status := Runnable)];
      assert envs == old(envs)[to := Woken(old(envs)[to], old(envs)[cur].id, value, envs[to].perm)];
      return 0;
    }

    // -------------------------------------------------------------- runs

    /** A store by user code at va, as the MMU lets it through. */
    method StoreWord(cur: Slot, va: nat, w: Word)
      requires Valid() && envs[cur].status != Free
      modifies this
      ensures Valid()
      ensures Sys() == StoreAt(old(Sys()), cur, va, w)
    {
      hide WellFormed, PagesRep, MemRep, Holders, Structural;
      ghost var leaf := LeafAt(cur, va);
      ghost var before := frames;
      UserStoreKeeps(Sys(), managed, cur, va, w);
      StoreKeeps(frames, managed, leaf, WordAt(va), w);
      if va >= UTOP {
        return;
      }
      var page, table := PageLookup(cur, va);
      if page.None? {
        return;
      }
      var p := page.value;
      var flags := mem[table.value][Ptx(va)].flags;
      if !(flags.w && flags.u) {
        return;
      }
      MappedIsData(frames, managed, leaf);
      TableEntry(mem, pgdir, frames, cur, Pdx(va), Ptx(va));
      var i := WordAt(va);
      var bits := Touched(flags);
      DataPage(mem, pgdir, frames, p);
      StoreMemory(frames, managed, cur, Pdx(va), Ptx(va), bits, mem[p][i := w], mem, pgdir);
      mem := mem[table.value := mem[table.value][Ptx(va) := Word(p, bits)]][p := mem[p][i := w]];
      frames := Store(frames, leaf, i, w);
      StorePages(before, frames, ppRef, ppLink, pageFreeList, managed, npages);
    }

    /** A load by user code, through the page tables. */
    method LoadWord(cur: Slot, va: nat) returns (w: Option<Word>)
      requires Valid() && envs[cur].status == Running && va < UTOP
      modifies this`mem, this`ppRef, this`ppLink, this`pageFreeList, this`frames
      ensures unchanged(this)
      ensures w.Some? <==> LeafAt(cur, va) in frames.links
      ensures w.Some? ==> frames.links[LeafAt(cur, va)].page in frames.data
      ensures w.Some? ==> w.value == frames.data[frames.links[LeafAt(cur, va)].page][WordAt(va)]
    {
      hide WellFormed, PagesRep, MemRep;
      var page, table := PageLookup(cur, va);
      if page.None? {
        return None;
      }
      MappedIsData(frames, managed, LeafAt(cur, va));
      DataPage(mem, pgdir, frames, page.value);
      return Some(mem[page.value][WordAt(va)]);
    }

    /** The flag bits that user code sees at uvpt for a mapped page. */
    method LoadFlags(cur: Slot, va: nat) returns (f: Option<Flags>)
      requires Valid() && envs[cur].status == Running && va < UTOP
      modifies this`mem, this`ppRef, this`ppLink, this`pageFreeList, this`frames
      ensures unchanged(this)
      ensures f == if LeafAt(cur, va) in frames.links then Some(frames.links[LeafAt(cur, va)].flags) else None
    {
      hide WellFormed, PagesRep, MemRep;
      var page, table := PageLookup(cur, va);
      if page.None? {
        return None;
      }
      return Some(mem[table.value][Ptx(va)].flags);
    }

    method SetEnvStatus(e: Slot, status: Status)
      requires Valid() && envs[e].status != Free && status != Free
      modifies this`envs
      ensures Valid()
      ensures Sys() == old(Sys()).(envs := old(envs)[e := old(envs)[e].(status := status)])
    {
      hide WellFormed, PagesRep, MemRep;
      StatusKeeps(Sys(), managed, e, status);
      envs := envs[e := envs[e].(status := status)];
    }

    method Exec(ev: Event) returns (r: int)
      requires Valid() && Unsaturated()
      modifies this
      ensures Valid()
      ensures (Sys(), r) == Step(old(Sys()), ev)
    {
      hide SystemOk, Consistent, Syscalls.PageAlloc, Syscalls.PageMap, Syscalls.PageUnmap, Exofork, SetStatus,
        Destroy, IpcTrySend, IpcRecv, StoreAt, Syscalls.EnvFree;
      r := 0;
      if !Enabled(envs, ev) {
        return;
      }
      match ev
      case CallPageAlloc(cur, envid, va, perm) => r := SysPageAlloc(cur, envid, va, perm);
      case CallPageMap(cur, srcid, srcva, dstid, dstva, perm) => r := SysPageMap(cur, srcid, srcva, dstid, dstva, perm);
      case CallPageUnmap(cur, envid, va) => r := SysPageUnmap(cur, envid, va);
      case CallExofork(cur) => r := SysExofork(cur);
      case CallSetStatus(cur, envid, status) => r := SysEnvSetStatus(cur, envid, status);
      case CallDestroy(cur, envid) => r := SysEnvDestroy(cur, envid);
      case CallIpcTrySend(cur, envid, value, srcva, perm) => r := SysIpcTrySend(cur, envid, value, srcva, perm);
      case CallIpcRecv(cur, dstva) => r := SysIpcRecv(cur, dstva);
      case UserStore(cur, va, w) => StoreWord(cur, va, w);
      case Schedule(e) => SetEnvStatus(e, Running);
      case Preempt(e) => SetEnvStatus(e, Runnable);
      case Reap(e) => EnvFree(e);
    }

    /** Any run of calls, stores and scheduling: the counts, the links and the tables in memory
        stand at every point for the state that the functions of module Syscalls compute, as long
        as no page has 65535 references. */
    method RunAll(events: seq<Event>)
      requires Valid()
      requires forall k :: 0 <= k <= |events| ==> NoCountFull(Run(Sys(), events[..k]))
      modifies this
      ensures Valid()
      ensures Sys() == Run(old(Sys()), events)
    {
      ghost var start := Sys();
      var i := 0;
      assert events[..0] == [];
      while i < |events|
        invariant i <= |events| && Valid()
        invariant Sys() == Run(start, events[..i])
      {
        assert NoCountFull(Sys());
        assert events[..i + 1][..i] == events[..i] && events[..i + 1][i] == events[i];
        var r := Exec(events[i]);
        i := i + 1;
      }
      assert events[..|events|] == events;
    }

    // -------------------------------------------------------------- start-up

    /** page_init and env_init: the pages above the kernel and the base memory, last page first,
        and all environment slots, first slot first. */
    constructor (npages: nat, firstFree: nat, kernPgdir: Page)
      requires forall d: nat :: d < USER_TABLES ==> !Present(kernPgdir[d])
      ensures Valid()
      ensures this.npages == npages && this.kernPgdir == kernPgdir
      ensures managed == set i: nat | i < npages && Allocatable(i, firstFree)
      ensures frames.links == map[] && frames.data == map[]
      ensures forall i, j :: 0 <= i < j < |frames.free| ==> frames.free[i] > frames.free[j]
      ensures |envFree| == NENV && forall e: Slot :: envFree[e] == e && envs[e] == NO_ENV
    {
      hide WellFormed, Lists, Allocatable;
      var head, link, free := PageInit(npages, firstFree);
      var eHead, eLink, slots := EnvInit();
      ListedOnce(head, link, free);
      ListedOnce(eHead, eLink, slots);
      InitialFrames(free, npages, firstFree);
      this.npages := npages;
      this.kernPgdir := kernPgdir;
      this.managed := set i: nat | i < npages && Allocatable(i, firstFree);
      this.mem := seq(npages, i => ZeroPage());
      this.ppRef := seq(npages, i => 0);
      this.ppLink := link;
      this.pageFreeList := head;
      this.pgdir := seq(NENV, i => None);
      this.envs := seq(NENV, i => NO_ENV);
      this.envLink := eLink;
      this.envFreeList := eHead;
      this.frames := Frames(map[], free, {}, map[]);
      this.envFree := slots;
      new;
      assert RefsExact(ppRef, frames.links, managed);
      forall e: Slot ensures e in envFree {
        assert envFree[e] == e;
      }
      assert EnvTableOk(Sys());
    }
  }

  ghost predicate NoCountFull(s: System) {
    forall p: nat :: |Holders(s.frames.links, p)| < 65535
  }
}
