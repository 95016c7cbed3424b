/** The page, environment and IPC system calls as functions on the state of module Vm and the
    environment table: which calls succeed, which error each failure returns, and what changes.
    Module Kernel implements these functions with page tables and reference counts. */
module Syscalls {
  import opened Mmu
  import opened Vm

  const NENV: nat := 1024

  type Slot = n: nat | n < NENV

  type EnvId = n: int | 0 <= n <= 0x7FFF_FFFF

  datatype Status = Free | Dying | Runnable | Running | NotRunnable

  datatype Env = Env(id: EnvId, parent: int, status: Status,
                     recving: bool, dstva: nat, value: nat, from: int, perm: Flags)

  const NO_ENV: Env := Env(0, 0, Free, false, 0, 0, 0, NO_FLAGS)

  type EnvTable = s: seq<Env> | |s| == NENV witness seq(NENV, i => NO_ENV)

  datatype System = System(frames: Frames, envs: EnvTable, envFree: seq<Slot>)

  /** Only live slots have a page directory, and the free slots are exactly those on the list;
      an environment id names its slot in its low ten bits. */
  ghost predicate SystemOk(s: System, managed: set<nat>) {
    && WellFormed(s.frames, managed)
    && s.frames.loose == {} && InTransit !in s.frames.links
    && EnvTableOk(s)
  }

  ghost predicate EnvTableOk(s: System) {
    && (forall e: nat :: Root(e) in s.frames.links <==> e < NENV && s.envs[e].status != Free)
    && NoDup(s.envFree)
    && (forall e: Slot :: e in s.envFree <==> s.envs[e].status == Free)
    && (forall e: Slot :: EnvOk(s.envs[e], e))
  }

  /** The slot is in the id's low ten bits; a blocked receiver asked for no page or for one at a
      page boundary. */
  predicate EnvOk(env: Env, e: Slot) {
    && (env.id != 0 ==> env.id % NENV == e)
    && (env.status != Free ==> env.id != 0)
    && (env.status != Free && env.recving && env.dstva < UTOP ==> PageAligned(env.dstva))
  }

  lemma SlotFacts(s: System, managed: set<nat>, e: Slot)
    requires SystemOk(s, managed)
    ensures s.envs[e].status != Free <==> e !in s.envFree
    ensures s.envs[e].status != Free <==> Root(e) in s.frames.links
  {
  }

  lemma RootsLive(s: System, managed: set<nat>)
    requires SystemOk(s, managed)
    ensures forall e: Slot :: s.envs[e].status != Free ==> Root(e) in s.frames.links
  {
  }

  // ---------------------------------------------------------------- environments

  /** envid2env: None stands for -E_BAD_ENV. */
  function EnvOf(envs: EnvTable, cur: Slot, envid: int, checkperm: bool): (r: Option<Slot>)
    ensures r.Some? && r.value != cur ==> envs[r.value].status != Free && envs[r.value].id == envid
    ensures r.Some? && r.value != cur && checkperm ==> envs[r.value].parent == envs[cur].id
  {
    if envid == 0 then Some(cur) else
    var e := envid % NENV;
    if envs[e].status == Free || envs[e].id != envid then None
    else if checkperm && e != cur && envs[e].parent != envs[cur].id then None
    else Some(e)
  }

  /** The id of the next environment in a slot: a new generation above the index, never negative. */
  function NextId(id: EnvId, slot: Slot): (r: EnvId)
    ensures 0 < r && r % NENV == slot && r != id
  {
    var generation := (id + 4096) / NENV * NENV;
    (if generation > 0x7FFF_FFFF then 4096 else generation) + slot
  }

  /** env_alloc: the new environment takes the first free slot. */
  function EnvAlloc(s: System, parent: int): (r: (System, int)) {
    if s.envFree == [] then (s, -E_NO_FREE_ENV)
    else if s.frames.free == [] then (s, -E_NO_MEM)
    else
      var e := s.envFree[0];
      var env := s.envs[e].(id := NextId(s.envs[e].id, e), parent := parent, status := Runnable, recving := false);
      (System(MakeRoot(Alloc(s.frames), e, s.frames.free[0]), s.envs[e := env], s.envFree[1..]), 0)
  }

  /** env_free. */
  function EnvFree(s: System, e: Slot): System {
    System(DropSpace(s.frames, e), s.envs[e := s.envs[e].(status := Free)], [e] + s.envFree)
  }

  /** sys_exofork: the child may not run yet. */
  function Exofork(s: System, cur: Slot): (System, int) {
    var (s', err) := EnvAlloc(s, s.envs[cur].id);
    if err < 0 || s.envFree == [] then (s, err) else
    var e := s.envFree[0];
    (s'.(envs := s'.envs[e := s'.envs[e].(status := NotRunnable)]), s'.envs[e].id)
  }

  /** sys_env_set_status, which does not look at the old status. */
  function SetStatus(s: System, cur: Slot, envid: int, status: Status): (System, int) {
    if status != Runnable && status != NotRunnable then (s, -E_INVAL) else
    match EnvOf(s.envs, cur, envid, true)
    case None => (s, -E_BAD_ENV)
    case Some(e) => (s.(envs := s.envs[e := s.envs[e].(status := status)]), 0)
  }

  /** sys_env_destroy: an environment that runs on another CPU only becomes a zombie. */
  function Destroy(s: System, cur: Slot, envid: int): (System, int) {
    match EnvOf(s.envs, cur, envid, true)
    case None => (s, -E_BAD_ENV)
    case Some(e) =>
      if s.envs[e].status == Running && e != cur then
        (s.(envs := s.envs[e := s.envs[e].(status := Dying)]), 0)
      else (EnvFree(s, e), 0)
  }

  // ---------------------------------------------------------------- pages

  function LeafAt(e: nat, va: nat): Ref {
    Leaf(e, Pdx(va), Ptx(va))
  }

  /** sys_page_alloc: nothing changes unless it succeeds. */
  function PageAlloc(s: System, cur: Slot, envid: int, va: nat, perm: Perm): (System, int) {
    match EnvOf(s.envs, cur, envid, true)
    case None => (s, -E_BAD_ENV)
    case Some(e) =>
      if !SyscallPerm(perm) || !UserPageAddress(va) then (s, -E_INVAL)
      else if s.frames.free == [] || !CanWalk(Alloc(s.frames), e, Pdx(va)) then (s, -E_NO_MEM)
      else (s.(frames := Insert(Alloc(s.frames), e, Pdx(va), Ptx(va), s.frames.free[0], perm.low)), 0)
  }

  /** The source page of a mapping with permission perm, if the source maps one and, for a
      writable mapping, maps it writable. */
  predicate MayShare(v: Frames, src: Ref, perm: Flags) {
    src in v.links && (perm.w ==> v.links[src].flags.w)
  }

  /** sys_page_map. */
  function PageMap(s: System, cur: Slot, srcid: int, srcva: nat, dstid: int, dstva: nat, perm: Perm): (System, int) {
    match EnvOf(s.envs, cur, srcid, true)
    case None => (s, -E_BAD_ENV)
    case Some(src) =>
      match EnvOf(s.envs, cur, dstid, true)
      case None => (s, -E_BAD_ENV)
      case Some(dst) =>
        if !UserPageAddress(srcva) || !UserPageAddress(dstva) || !SyscallPerm(perm)
           || !MayShare(s.frames, LeafAt(src, srcva), perm.low) then (s, -E_INVAL)
        else if !CanWalk(s.frames, dst, Pdx(dstva)) then (s, -E_NO_MEM)
        else (s.(frames := Insert(s.frames, dst, Pdx(dstva), Ptx(dstva),
                                  s.frames.links[LeafAt(src, srcva)].page, perm.low)), 0)
  }

  /** sys_page_unmap. */
  function PageUnmap(s: System, cur: Slot, envid: int, va: nat): (System, int) {
    match EnvOf(s.envs, cur, envid, true)
    case None => (s, -E_BAD_ENV)
    case Some(e) =>
      if !UserPageAddress(va) then (s, -E_INVAL)
      else (s.(frames := Drop(s.frames, LeafAt(e, va))), 0)
  }

  predicate CanStore(v: Frames, r: Ref) {
    r in v.links && v.links[r].flags.w && v.links[r].flags.u
  }

  /** A user store: the MMU lets it through only to a writable user mapping of a page, and
      sets the accessed and dirty bits of the entry. */
  function Store(v: Frames, r: Ref, i: nat, w: Word): Frames
    requires i < NPTENTRIES
  {
    if !CanStore(v, r) || v.links[r].page !in v.data then v else
    var l := v.links[r];
    v.(links := v.links[r := Link(l.page, Touched(l.flags))], data := v.data[l.page := v.data[l.page][i := w]])
  }

  /** A store at address va; nothing at or above UTOP is writable by a user. */
  function StoreAt(s: System, cur: Slot, va: nat, w: Word): System {
    if va >= UTOP then s else s.(frames := Store(s.frames, LeafAt(cur, va), WordAt(va), w))
  }

  // ---------------------------------------------------------------- IPC

  /** sys_ipc_recv. */
  function IpcRecv(s: System, cur: Slot, dstva: nat): (System, int) {
    if dstva < UTOP && !PageAligned(dstva) then (s, -E_INVAL)
    else (s.(envs := s.envs[cur := s.envs[cur].(recving := true, dstva := dstva, status := NotRunnable)]), 0)
  }

  /** The target's fields after a send that went through. */
  function Woken(env: Env, from: int, value: nat, perm: Flags): Env {
    env.(recving := false, from := from, value := value, perm := perm, status := Runnable)
  }

  /** sys_ipc_try_send: the target's env_ipc_perm is cleared before the page is checked. */
  function IpcTrySend(s: System, cur: Slot, envid: int, value: nat, srcva: nat, perm: Perm): (System, int) {
    match EnvOf(s.envs, cur, envid, false)
    case None => (s, -E_BAD_ENV)
    case Some(to) =>
      if !s.envs[to].recving then (s, -E_IPC_NOT_RECV) else
      var s0 := s.(envs := s.envs[to := s.envs[to].(perm := NO_FLAGS)]);
      var dstva := s.envs[to].dstva;
      if srcva < UTOP && dstva < UTOP then
        if !PageAligned(srcva) || !SyscallPerm(perm)
           || !MayShare(s.frames, LeafAt(cur, srcva), perm.low) then (s0, -E_INVAL)
        else if !CanWalk(s.frames, to, Pdx(dstva)) then (s0, -E_NO_MEM)
        else (System(Insert(s.frames, to, Pdx(dstva), Ptx(dstva), s.frames.links[LeafAt(cur, srcva)].page, perm.low),
                     s.envs[to := Woken(s.envs[to], s.envs[cur].id, value, perm.low)], s.envFree), 0)
      else (s.(envs := s.envs[to := Woken(s.envs[to], s.envs[cur].id, value, NO_FLAGS)]), 0)
  }

  // ---------------------------------------------------------------- runs

  /** What can happen next: a call by an environment that is running, a store by one that is running or
      has been destroyed but has not trapped yet, a change of who runs, or the collection of a zombie. */
  datatype Event =
    | CallPageAlloc(cur: Slot, envid: int, va: nat, perm: Perm)
    | CallPageMap(cur: Slot, srcid: int, srcva: nat, dstid: int, dstva: nat, perm: Perm)
    | CallPageUnmap(cur: Slot, envid: int, va: nat)
    | CallExofork(cur: Slot)
    | CallSetStatus(cur: Slot, envid: int, status: Status)
    | CallDestroy(cur: Slot, envid: int)
    | CallIpcTrySend(cur: Slot, envid: int, value: nat, srcva: nat, perm: Perm)
    | CallIpcRecv(cur: Slot, dstva: nat)
    | UserStore(cur: Slot, va: nat, w: Word)
    | Schedule(cur: Slot)
    | Preempt(cur: Slot)
    | Reap(cur: Slot)

  predicate Enabled(envs: EnvTable, ev: Event) {
    match ev
    case Schedule(e) => envs[e].status == Runnable
    case Reap(e) => envs[e].status == Dying
    case UserStore(e, va, w) => envs[e].status == Running || envs[e].status == Dying
    case _ => envs[ev.cur].status == Running
  }

  function Step(s: System, ev: Event): (System, int) {
    if !Enabled(s.envs, ev) then (s, 0) else
    match ev
    case CallPageAlloc(cur, envid, va, perm) => PageAlloc(s, cur, envid, va, perm)
    case CallPageMap(cur, srcid, srcva, dstid, dstva, perm) => PageMap(s, cur, srcid, srcva, dstid, dstva, perm)
    case CallPageUnmap(cur, envid, va) => PageUnmap(s, cur, envid, va)
    case CallExofork(cur) => Exofork(s, cur)
    case CallSetStatus(cur, envid, status) => SetStatus(s, cur, envid, status)
    case CallDestroy(cur, envid) => Destroy(s, cur, envid)
    case CallIpcTrySend(cur, envid, value, srcva, perm) => IpcTrySend(s, cur, envid, value, srcva, perm)
    case CallIpcRecv(cur, dstva) => IpcRecv(s, cur, dstva)
    case UserStore(cur, va, w) => (StoreAt(s, cur, va, w), 0)
    case Schedule(e) => (s.(envs := s.envs[e := s.envs[e].(status := Running)]), 0)
    case Preempt(e) => (s.(envs := s.envs[e := s.envs[e].(status := Runnable)]), 0)
    case Reap(e) => (EnvFree(s, e), 0)
  }

  function Run(s: System, events: seq<Event>): System
    decreases |events|
  {
    if events == [] then s else Step(Run(s, events[..|events| - 1]), events[|events| - 1]).0
  }

  // ---------------------------------------------------------------- what every call keeps

  lemma EnvAllocKeeps(s: System, managed: set<nat>, parent: int)
    requires SystemOk(s, managed)
    ensures SystemOk(EnvAlloc(s, parent).0, managed)
  {
    if s.envFree != [] && s.frames.free != [] {
      var e := s.envFree[0];
      AllocKeeps(s.frames, managed);
      MakeRootKeeps(Alloc(s.frames), managed, e, s.frames.free[0]);
      SlotTail(s.envFree);
    }
  }

  lemma SlotTail(free: seq<Slot>)
    requires NoDup(free) && free != []
    ensures NoDup(free[1..])
    ensures forall e: Slot :: e in free[1..] <==> e in free && e != free[0]
  {
    assert free == [free[0]] + free[1..];
  }

  lemma EnvFreeKeeps(s: System, managed: set<nat>, e: Slot)
    requires SystemOk(s, managed) && s.envs[e].status != Free
    ensures SystemOk(EnvFree(s, e), managed)
  {
    DropSpaceKeeps(s.frames, managed, e);
  }

  /** Changing environment fields other than Free status and id keeps everything. */
  lemma EnvUpdateKeeps(s: System, managed: set<nat>, e: Slot, env: Env)
    requires SystemOk(s, managed)
    requires EnvOk(env, e) && s.envs[e].status != Free && env.status != Free
    ensures SystemOk(s.(envs := s.envs[e := env]), managed)
  {
  }

  lemma PageAllocKeeps(s: System, managed: set<nat>, cur: Slot, envid: int, va: nat, perm: Perm)
    requires SystemOk(s, managed) && s.envs[cur].status != Free
    ensures SystemOk(PageAlloc(s, cur, envid, va, perm).0, managed)
  {
    var (s', err) := PageAlloc(s, cur, envid, va, perm);
    if s' != s {
      var e := EnvOf(s.envs, cur, envid, true).value;
      var v := Alloc(s.frames);
      AllocKeeps(s.frames, managed);
      NotStructural(v.links, s.frames.free[0]);
      InsertKeeps(v, managed, e, Pdx(va), Ptx(va), s.frames.free[0], perm.low);
      InsertFrame(v, e, Pdx(va), Ptx(va), s.frames.free[0], perm.low);
    }
  }

  /** page_insert touches one mapping and at most one page-table reference. */
  lemma InsertFrame(v: Frames, e: nat, d: nat, t: nat, p: nat, perm: Flags)
    ensures var w := Insert(v, e, d, t, p, perm);
      && w.loose == (if CanWalk(v, e, d) then v.loose - {p} else v.loose)
      && (CanWalk(v, e, d) ==> Leaf(e, d, t) in w.links && w.links[Leaf(e, d, t)] == Link(p, WithP(perm)))
      && (forall r :: r != Leaf(e, d, t) && r != Table(e, d) ==>
            (r in w.links <==> r in v.links) && (r in v.links ==> w.links[r] == v.links[r]))
      && (forall q :: q in w.data ==> q in v.data && w.data[q] == v.data[q])
  {
  }

  /** Inserting the page that is already mapped there keeps its count, the free list and all
      contents, and replaces the flag bits; this is how a mapping is made copy-on-write and how
      the block cache clears PTE_D. */
  lemma Reinsert(v: Frames, e: nat, d: nat, t: nat, perm: Flags)
    requires Leaf(e, d, t) in v.links && Table(e, d) in v.links
    ensures var p := v.links[Leaf(e, d, t)].page;
      var w := Insert(v, e, d, t, p, perm);
      && w.links == v.links[Leaf(e, d, t) := Link(p, WithP(perm))]
      && w.free == v.free && w.data == v.data
      && (forall q :: Holders(w.links, q) == Holders(v.links, q))
      && (w.links[Leaf(e, d, t)].flags.d <==> perm.d)
  {
    var leaf := Leaf(e, d, t);
    var p := v.links[leaf].page;
    forall q ensures Holders(v.links[leaf := Link(p, WithP(perm))], q) == Holders(v.links, q) {
      HoldersAdd(v.links, leaf, Link(p, WithP(perm)), q);
      assert leaf in Holders(v.links, p);
    }
    assert leaf in Holders(v.links, p);
  }

  lemma MappedIsData(v: Frames, managed: set<nat>, r: Ref)
    requires WellFormed(v, managed) && r in v.links && !IsStructure(r)
    ensures v.links[r].page in managed && v.links[r].page !in v.free && v.links[r].page !in v.loose
    ensures !Structural(v.links, v.links[r].page) && v.links[r].page in v.data
  {
    assert r in Holders(v.links, v.links[r].page);
  }

  lemma ShareKeeps(s: System, managed: set<nat>, src: Ref, dst: Slot, dstva: nat, perm: Flags)
    requires SystemOk(s, managed) && src.Leaf? && src in s.frames.links
    requires s.envs[dst].status != Free && UserPageAddress(dstva)
    ensures SystemOk(s.(frames := Insert(s.frames, dst, Pdx(dstva), Ptx(dstva), s.frames.links[src].page, perm)),
            managed)
  {
    hide WellFormed, Insert, CanWalk, Structural;
    MappedIsData(s.frames, managed, src);
    InsertKeeps(s.frames, managed, dst, Pdx(dstva), Ptx(dstva), s.frames.links[src].page, perm);
    InsertFrame(s.frames, dst, Pdx(dstva), Ptx(dstva), s.frames.links[src].page, perm);
  }

  lemma PageUnmapKeeps(s: System, managed: set<nat>, cur: Slot, envid: int, va: nat)
    requires SystemOk(s, managed) && s.envs[cur].status != Free
    ensures SystemOk(PageUnmap(s, cur, envid, va).0, managed)
  {
    var (s', err) := PageUnmap(s, cur, envid, va);
    if s' != s {
      DropKeeps(s.frames, managed, LeafAt(EnvOf(s.envs, cur, envid, true).value, va));
    }
  }

  /** Flag bits and page contents do not matter to well-formedness. */
  lemma FlagsOnly(v: Frames, w: Frames, managed: set<nat>, r: Ref, l: Link)
    requires WellFormed(v, managed) && r.Leaf? && r in v.links && l.page == v.links[r].page
    requires w.links == v.links[r := l] && w.free == v.free && w.loose == v.loose && w.data.Keys == v.data.Keys
    ensures WellFormed(w, managed)
    ensures forall q :: Holders(w.links, q) == Holders(v.links, q)
  {
    forall q ensures Holders(w.links, q) == Holders(v.links, q) {
    }
    forall q ensures Structural(w.links, q) <==> Structural(v.links, q) {
      StructuralUnchanged(v.links, w.links, q);
    }
  }

  lemma StoreKeeps(v: Frames, managed: set<nat>, r: Ref, i: nat, w: Word)
    requires WellFormed(v, managed) && r.Leaf? && i < NPTENTRIES
    ensures WellFormed(Store(v, r, i, w), managed)
    ensures r in v.links ==> v.links[r].page in v.data
    ensures forall q :: Holders(Store(v, r, i, w).links, q) == Holders(v.links, q)
  {
    if r in v.links {
      MappedIsData(v, managed, r);
      if CanStore(v, r) {
        FlagsOnly(v, Store(v, r, i, w), managed, r, Link(v.links[r].page, Touched(v.links[r].flags)));
      }
    }
  }

  lemma IpcTrySendKeeps(s: System, managed: set<nat>, cur: Slot, envid: int, value: nat, srcva: nat, perm: Perm)
    requires SystemOk(s, managed) && s.envs[cur].status != Free
    ensures SystemOk(IpcTrySend(s, cur, envid, value, srcva, perm).0, managed)
  {
    var r := EnvOf(s.envs, cur, envid, false);
    if r.Some? && s.envs[r.value].recving {
      var to := r.value;
      if IpcTrySend(s, cur, envid, value, srcva, perm).1 != 0 {
        EnvUpdateKeeps(s, managed, to, s.envs[to].(perm := NO_FLAGS));
      } else if srcva < UTOP && s.envs[to].dstva < UTOP {
        SendPageKeeps(s, managed, LeafAt(cur, srcva), to, Woken(s.envs[to], s.envs[cur].id, value, perm.low), perm.low);
      } else {
        EnvUpdateKeeps(s, managed, to, Woken(s.envs[to], s.envs[cur].id, value, NO_FLAGS));
      }
    }
  }

  lemma SendPageKeeps(s: System, managed: set<nat>, src: Ref, to: Slot, env: Env, perm: Flags)
    requires SystemOk(s, managed) && src.Leaf? && src in s.frames.links
    requires s.envs[to].status != Free && s.envs[to].dstva < UTOP && PageAligned(s.envs[to].dstva)
    requires env.id == s.envs[to].id && env.status != Free && !env.recving
    ensures SystemOk(System(Insert(s.frames, to, Pdx(s.envs[to].dstva), Ptx(s.envs[to].dstva), s.frames.links[src].page,
            perm),
                            s.envs[to := env], s.envFree), managed)
  {
    var dstva := s.envs[to].dstva;
    var s1 := s.(frames := Insert(s.frames, to, Pdx(dstva), Ptx(dstva), s.frames.links[src].page, perm));
    ShareKeeps(s, managed, src, to, dstva, perm);
    EnvUpdateKeeps(s1, managed, to, env);
  }

  lemma PageMapKeeps(s: System, managed: set<nat>, cur: Slot, srcid: int, srcva: nat, dstid: int, dstva: nat,
                     perm: Perm)
    requires SystemOk(s, managed) && s.envs[cur].status != Free
    ensures SystemOk(PageMap(s, cur, srcid, srcva, dstid, dstva, perm).0, managed)
  {
    if PageMap(s, cur, srcid, srcva, dstid, dstva, perm).0 != s {
      ShareKeeps(s, managed, LeafAt(EnvOf(s.envs, cur, srcid, true).value, srcva),
                 EnvOf(s.envs, cur, dstid, true).value, dstva, perm.low);
    }
  }

  lemma ExoforkKeeps(s: System, managed: set<nat>, cur: Slot)
    requires SystemOk(s, managed) && s.envs[cur].status != Free
    ensures SystemOk(Exofork(s, cur).0, managed)
  {
    var s' := EnvAlloc(s, s.envs[cur].id).0;
    EnvAllocKeeps(s, managed, s.envs[cur].id);
    if s.envFree != [] && s.frames.free != [] {
      var e := s.envFree[0];
      EnvUpdateKeeps(s', managed, e, s'.envs[e].(status := NotRunnable));
    }
  }

  lemma StatusKeeps(s: System, managed: set<nat>, e: Slot, status: Status)
    requires SystemOk(s, managed) && s.envs[e].status != Free && status != Free
    ensures SystemOk(s.(envs := s.envs[e := s.envs[e].(status := status)]), managed)
  {
    EnvUpdateKeeps(s, managed, e, s.envs[e].(status := status));
  }

  lemma DestroyKeeps(s: System, managed: set<nat>, cur: Slot, envid: int)
    requires SystemOk(s, managed) && s.envs[cur].status != Free
    ensures SystemOk(Destroy(s, cur, envid).0, managed)
  {
    var r := EnvOf(s.envs, cur, envid, true);
    if r.Some? {
      StatusKeeps(s, managed, r.value, Dying);
      EnvFreeKeeps(s, managed, r.value);
    }
  }

  lemma SetStatusKeeps(s: System, managed: set<nat>, cur: Slot, envid: int, status: Status)
    requires SystemOk(s, managed) && s.envs[cur].status != Free
    ensures SystemOk(SetStatus(s, cur, envid, status).0, managed)
  {
    var r := EnvOf(s.envs, cur, envid, true);
    if r.Some? && status != Free {
      StatusKeeps(s, managed, r.value, status);
    }
  }

  lemma IpcRecvKeeps(s: System, managed: set<nat>, cur: Slot, dstva: nat)
    requires SystemOk(s, managed) && s.envs[cur].status != Free
    ensures SystemOk(IpcRecv(s, cur, dstva).0, managed)
  {
    if !(dstva < UTOP && !PageAligned(dstva)) {
      EnvUpdateKeeps(s, managed, cur, s.envs[cur].(recving := true, dstva := dstva, status := NotRunnable));
    }
  }

  lemma StepKeeps(s: System, managed: set<nat>, ev: Event)
    requires SystemOk(s, managed)
    ensures SystemOk(Step(s, ev).0, managed)
  {
    hide SystemOk, PageAlloc, PageMap, PageUnmap, Exofork, SetStatus, Destroy, IpcTrySend, IpcRecv, StoreAt, EnvFree;
    if Enabled(s.envs, ev) {
      match ev
      case CallPageAlloc(cur, envid, va, perm) => PageAllocKeeps(s, managed, cur, envid, va, perm);
      case CallPageMap(cur, srcid, srcva, dstid, dstva, perm) =>
        PageMapKeeps(s, managed, cur, srcid, srcva, dstid, dstva, perm);
      case CallPageUnmap(cur, envid, va) => PageUnmapKeeps(s, managed, cur, envid, va);
      case CallExofork(cur) => ExoforkKeeps(s, managed, cur);
      case CallSetStatus(cur, envid, status) => SetStatusKeeps(s, managed, cur, envid, status);
      case CallDestroy(cur, envid) => DestroyKeeps(s, managed, cur, envid);
      case CallIpcTrySend(cur, envid, value, srcva, perm) =>
        IpcTrySendKeeps(s, managed, cur, envid, value, srcva, perm);
      case CallIpcRecv(cur, dstva) => IpcRecvKeeps(s, managed, cur, dstva);
      case UserStore(cur, va, w) => UserStoreKeeps(s, managed, cur, va, w);
      case Schedule(e) => StatusKeeps(s, managed, e, Running);
      case Preempt(e) => StatusKeeps(s, managed, e, Runnable);
      case Reap(e) => EnvFreeKeeps(s, managed, e);
    }
  }

  lemma UserStoreKeeps(s: System, managed: set<nat>, cur: Slot, va: nat, w: Word)
    requires SystemOk(s, managed)
    ensures SystemOk(StoreAt(s, cur, va, w), managed)
  {
    StoreKeeps(s.frames, managed, LeafAt(cur, va), WordAt(va), w);
  }

  /** Every reachable state of the page, environment and IPC calls is well-formed: in particular
      the free list has no duplicates and holds exactly the managed pages that nothing refers to,
      and no page table or page directory is mapped where a user could reach it. */
  lemma {:induction false} RunKeeps(s: System, managed: set<nat>, events: seq<Event>)
    requires SystemOk(s, managed)
    ensures SystemOk(Run(s, events), managed)
    decreases |events|
  {
    if events != [] {
      RunKeeps(s, managed, events[..|events| - 1]);
      StepKeeps(Run(s, events[..|events| - 1]), managed, events[|events| - 1]);
    }
  }
}
