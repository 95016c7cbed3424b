/** user/dumbfork.c: fork by copying, and the proof that it and the copy-on-write fork give the child the same page. */
module DumbFork {
  import opened Mmu
  import opened Vm
  import opened Syscalls
  import opened CowFork

  const UTEMP: nat := 0x400000

  /** dumbfork's duppage: a new page in the child, mapped at UTEMP here as well while the contents are copied. */
  function DumbDuppage(s: System, cur: Slot, envid: int, va: nat): (System, bool) {
    var (s1, err1) := PageAlloc(s, cur, envid, va, PERM_RW);
    if err1 < 0 then (s1, false) else
    var (s2, err2) := PageMap(s1, cur, envid, va, 0, UTEMP, PERM_RW);
    if err2 < 0 then (s2, false) else
    var s3 := s2.(frames := CopyPage(s2.frames, LeafAt(cur, UTEMP), LeafAt(cur, va)));
    var (s4, err4) := PageUnmap(s3, cur, 0, UTEMP);
    (s4, err4 >= 0)
  }

  /** sys_page_map of a page of the child at an address here. */
  lemma MapHere(s: System, managed: set<nat>, cur: Slot, child: Slot, srcid: int, srcva: nat, dstva: nat)
    requires SystemOk(s, managed) && s.envs[cur].status != Free && UserPageAddress(srcva) && UserPageAddress(dstva)
    requires EnvOf(s.envs, cur, srcid, true) == Some(child) && LeafAt(child, srcva) in s.frames.links
    requires s.frames.links[LeafAt(child, srcva)].flags.w
    ensures var (s', err) := PageMap(s, cur, srcid, srcva, 0, dstva, PERM_RW);
      && SystemOk(s', managed) && s'.envs == s.envs
      && (err >= 0 ==>
            && Leaves(s'.frames.links) == Leaves(s.frames.links)[LeafAt(cur, dstva) :=
               Link(s.frames.links[LeafAt(child, srcva)].page, WithP(PERM_RW.low))]
            && (forall q :: q in s'.frames.data ==> q in s.frames.data && s'.frames.data[q] == s.frames.data[q]))
  {
    hide WellFormed, Insert, Pdx, Ptx, Leaves, UserPageAddress, EnvTableOk;
    FlagFacts();
    SelfNamed(s.envs, cur);
    PageMapKeeps(s, managed, cur, srcid, srcva, 0, dstva, PERM_RW);
    if CanWalk(s.frames, cur, Pdx(dstva)) {
      InsertLeaves(s.frames, cur, Pdx(dstva), Ptx(dstva), s.frames.links[LeafAt(child, srcva)].page, PERM_RW.low);
    }
  }

  lemma TempFacts(cur: nat, va: nat)
    ensures UserPageAddress(UTEMP) && LeafAt(cur, UTEMP) == Leaf(cur, 1, 0) && LeafAt(cur, va).Leaf?
    ensures LeafAt(cur, va).env == cur
  {
  }

  /** Copying through UTEMP and unmapping it again leaves the copy where it was made. */
  lemma CopyThrough(v1: Frames, v2: Frames, v4: Frames, managed: set<nat>, temp: Ref, src: Ref, dst: Ref, n: nat)
    requires temp.Leaf? && src.Leaf? && dst.Leaf? && temp != src && temp != dst && src != dst
    requires WellFormed(v2, managed) && WellFormed(v4, managed) && src in v1.links && dst in v1.links
    requires v1.links[dst].page == n && v1.links[src].page != n
    requires Leaves(v2.links) == Leaves(v1.links)[temp := Link(n, WithP(PERM_RW.low))]
    requires forall q :: q in v2.data ==> q in v1.data && v2.data[q] == v1.data[q]
    requires v4 == Drop(CopyPage(v2, temp, src), temp)
    ensures Leaves(v4.links) == Leaves(v1.links) - {temp}
    ensures v1.links[src].page in v1.data && n in v4.data && v4.data[n] == v1.data[v1.links[src].page]
    ensures forall q :: q in v4.data && q != n ==> q in v1.data && v4.data[q] == v1.data[q]
  {
    hide WellFormed, Drop;
    assert temp in Leaves(v2.links) && src in Leaves(v2.links) && src in Leaves(v1.links) && dst in Leaves(v1.links);
    MappedIsData(v2, managed, temp);
    MappedIsData(v2, managed, src);
    var v3 := CopyPage(v2, temp, src);
    DropLeaf(v3, temp);
    assert Leaves(v3.links) - {temp} == Leaves(v2.links) - {temp};
    assert (Leaves(v1.links)[temp := Link(n, WithP(PERM_RW.low))]) - {temp} == Leaves(v1.links) - {temp};
    assert dst in Leaves(v4.links);
    MappedIsData(v4, managed, dst);
  }

  /** The effect of dumbfork's duppage on mappings and contents. What was mapped at UTEMP is gone. */
  lemma DumbEffect(s: System, managed: set<nat>, cur: Slot, child: Slot, va: nat)
    requires SystemOk(s, managed) && s.envs[cur].status != Free && s.envs[child].status != Free && cur != child
    requires LeafAt(cur, va) in s.frames.links && LeafAt(cur, va) != LeafAt(cur, UTEMP)
    ensures var (s', ok) := DumbDuppage(s, cur, s.envs[child].id, va);
      var src, dst, temp := LeafAt(cur, va), LeafAt(child, va), LeafAt(cur, UTEMP);
      ok ==>
        && SystemOk(s', managed) && s'.envs == s.envs && s.frames.free != []
        && (forall r :: r in s.frames.links ==> s.frames.links[r].page != s.frames.free[0])
        && Leaves(s'.frames.links) ==
           (Leaves(s.frames.links) - {temp})[dst := Link(s.frames.free[0], WithP(PERM_RW.low))]
        && s.frames.links[src].page in s.frames.data && s.frames.free[0] in s'.frames.data
        && s'.frames.data[s.frames.free[0]] == s.frames.data[s.frames.links[src].page]
        && SameContents(Leaves(s.frames.links) - {temp} - {dst}, s.frames.data, s'.frames.data)
  {
    hide SystemOk, PageAlloc, PageMap, UserPageAddress, EnvOf, CopyPage, SameContents, LeafAt, Leaves, Drop;
    var envid := s.envs[child].id;
    var src, dst, temp := LeafAt(cur, va), LeafAt(child, va), LeafAt(cur, UTEMP);
    TempFacts(cur, va);
    TempFacts(child, va);
    FlagFacts();
    SelfNamed(s.envs, cur);
    ChildNamed(s, managed, cur, child);
    AllocEffect(s, managed, cur, envid, va, PERM_RW);
    var (s1, err1) := PageAlloc(s, cur, envid, va, PERM_RW);
    if err1 >= 0 {
      DumbTail(s, s1, managed, cur, child, va);
      LessThenMore(Leaves(s.frames.links), temp, dst, Link(s.frames.free[0], WithP(PERM_RW.low)));
    }
  }

  lemma DumbTail(s: System, s1: System, managed: set<nat>, cur: Slot, child: Slot, va: nat)
    requires SystemOk(s, managed) && SystemOk(s1, managed) && s1.envs == s.envs && s.envs[cur].status != Free
    requires cur != child
    requires EnvOf(s.envs, cur, s.envs[child].id, true) == Some(child) && UserPageAddress(va)
    requires LeafAt(cur, va) in s.frames.links && LeafAt(cur, va) != LeafAt(cur, UTEMP)
    requires s.frames.free != [] && forall r :: r in s.frames.links ==> s.frames.links[r].page != s.frames.free[0]
    requires Leaves(s1.frames.links) ==
             Leaves(s.frames.links)[LeafAt(child, va) := Link(s.frames.free[0], WithP(PERM_RW.low))]
    requires SameContents(Leaves(s.frames.links) - {LeafAt(child, va)}, s.frames.data, s1.frames.data)
    ensures var (s2, err2) := PageMap(s1, cur, s.envs[child].id, va, 0, UTEMP, PERM_RW);
      var s3 := s2.(frames := CopyPage(s2.frames, LeafAt(cur, UTEMP), LeafAt(cur, va)));
      var (s', err4) := PageUnmap(s3, cur, 0, UTEMP);
      var src, dst, temp := LeafAt(cur, va), LeafAt(child, va), LeafAt(cur, UTEMP);
      err2 >= 0 && err4 >= 0 ==>
        && SystemOk(s', managed) && s'.envs == s.envs
        && Leaves(s'.frames.links) == Leaves(s1.frames.links) - {temp}
        && s.frames.links[src].page in s.frames.data && s.frames.free[0] in s'.frames.data
        && s'.frames.data[s.frames.free[0]] == s.frames.data[s.frames.links[src].page]
        && SameContents(Leaves(s.frames.links) - {temp} - {dst}, s.frames.data, s'.frames.data)
  {
    hide SystemOk, PageMap, UserPageAddress, CopyPage, SameContents, LeafAt, Leaves, Drop, EnvOf;
    var src, dst, temp := LeafAt(cur, va), LeafAt(child, va), LeafAt(cur, UTEMP);
    var n := s.frames.free[0];
    TempFacts(cur, va);
    TempFacts(child, va);
    LeafIn(s.frames.links, src);
    LeafBack(s1.frames.links, src);
    LeafBack(s1.frames.links, dst);
    FlagFacts();
    SelfNamed(s.envs, cur);
    MapHere(s1, managed, cur, child, s.envs[child].id, va, UTEMP);
    var (s2, err2) := PageMap(s1, cur, s.envs[child].id, va, 0, UTEMP, PERM_RW);
    if err2 >= 0 {
      LeafBack(s2.frames.links, temp);
      LeafBack(s2.frames.links, src);
      CopySystem(s2, managed, temp, src);
      var s3 := s2.(frames := CopyPage(s2.frames, temp, src));
      PageUnmapKeeps(s3, managed, cur, 0, UTEMP);
      var s' := PageUnmap(s3, cur, 0, UTEMP).0;
      SystemFrames(s2, managed);
      SystemFrames(s', managed);
      CopyThrough(s1.frames, s2.frames, s'.frames, managed, temp, src, dst, n);
      var rest := Leaves(s.frames.links) - {dst};
      SameAt(rest, s.frames.data, s1.frames.data, src);
      DumbContents(s, s1, s', managed, temp, dst, n);
    }
  }

  lemma LessThenMore(leaves: Links, temp: Ref, dst: Ref, l: Link)
    requires temp != dst
    ensures leaves[dst := l] - {temp} == (leaves - {temp})[dst := l]
  {
  }

  lemma DumbContents(s: System, s1: System, s': System, managed: set<nat>, temp: Ref, dst: Ref, n: nat)
    requires SystemOk(s', managed) && forall r :: r in s.frames.links ==> s.frames.links[r].page != n
    requires Leaves(s'.frames.links) == Leaves(s.frames.links)[dst := Link(n, WithP(PERM_RW.low))] - {temp}
    requires SameContents(Leaves(s.frames.links) - {dst}, s.frames.data, s1.frames.data)
    requires forall q :: q in s'.frames.data && q != n ==> q in s1.frames.data && s'.frames.data[q] == s1.frames.data[q]
    ensures SameContents(Leaves(s.frames.links) - {temp} - {dst}, s.frames.data, s'.frames.data)
  {
    hide *;
    var rest := Leaves(s.frames.links) - {temp} - {dst};
    forall r | r in rest ensures rest[r].page != n && rest[r].page in s'.frames.data {
      LeafBack(s.frames.links, r);
      LeafBack(s'.frames.links, r);
      SystemFrames(s', managed);
      MappedLeaf(s'.frames, managed, r);
    }
    ContentsChain(rest, Leaves(s.frames.links) - {dst}, s.frames.data, s1.frames.data, s'.frames.data, n);
  }

  // ---------------------------------------------------------------- the same child page

  /** The machine that copies, copying whatever the parent sees into a private writable page. */
  function EagerCopy(g: Eager, src: Ref, dst: Ref): Eager
    requires src in g.view && (g.view[src].Shared? ==> g.view[src].id in g.shared)
  {
    g.(view := g.view[dst := Private(Content(g, g.view[src]), true)])
  }

  /** The same after giving up temp. */
  function EagerCopyBut(g: Eager, temp: Ref, src: Ref, dst: Ref): Eager
    requires src != temp && src in g.view && (g.view[src].Shared? ==> g.view[src].id in g.shared)
  {
    EagerCopy(EagerUnmap(g, {temp}), src, dst)
  }

  /** dumbfork's duppage does on the real machine what the copying machine does by giving up UTEMP and copying. */
  lemma DumbCopies(s: System, g: Eager, managed: set<nat>, cur: Slot, child: Slot, va: nat)
    requires Related(s, g, managed) && s.envs[cur].status != Free && s.envs[child].status != Free && cur != child
    requires LeafAt(cur, va) in s.frames.links && LeafAt(cur, va) != LeafAt(cur, UTEMP) && Covered(LeafAt(cur, va))
    ensures var (s', ok) := DumbDuppage(s, cur, s.envs[child].id, va);
      var src, dst := LeafAt(cur, va), LeafAt(child, va);
      && src in g.view && (g.view[src].Shared? ==> g.view[src].id in g.shared)
      && (ok ==> s'.envs == s.envs && Related(s', EagerCopyBut(g, LeafAt(cur, UTEMP), src, dst), managed))
  {
    hide SystemOk, Related, DumbDuppage, Leaves, Covered, SameContents, Disciplined, Agrees, EagerOk, LeafAt;
    var src, dst, temp := LeafAt(cur, va), LeafAt(child, va), LeafAt(cur, UTEMP);
    InView(s, g, managed, src);
    RelatedParts(s, g, managed);
    LeafShapes(cur, child, va);
    DumbEffect(s, managed, cur, child, va);
    var (s', ok) := DumbDuppage(s, cur, s.envs[child].id, va);
    if ok {
      var l := Link(s.frames.free[0], WithP(PERM_RW.low));
      FlagFacts();
      NotMapped(s.frames.links, l.page);
      SystemFrames(s, managed);
      ContentsKept(s.frames, s.frames, managed);
      CopiedBut(Leaves(s.frames.links), s.frames.data, s'.frames.data, g, temp, src, dst, l);
      RelatedIntro(s', (Leaves(s.frames.links) - {temp})[dst := l], EagerCopyBut(g, temp, src, dst), managed);
    }
  }

  lemma CopiedBut(leaves: Links, data: map<nat, Page>, data': map<nat, Page>, g: Eager, temp: Ref, src: Ref, dst: Ref,
                  l: Link)
    requires Disciplined(leaves) && Agrees(leaves, data, g) && EagerOk(g) && dst.Leaf? && Covered(dst) && temp != src
    requires src in g.view && (g.view[src].Shared? ==> g.view[src].id in g.shared) && SameContents(leaves, data, data)
    requires IsUser(l.flags) && !IsShare(l.flags) && IsWritable(l.flags) && MayWrite(l.flags)
    requires forall r' :: r' in leaves ==> leaves[r'].page != l.page
    requires l.page in data' && data'[l.page] == Content(g, g.view[src])
    requires SameContents(leaves - {temp} - {dst}, data, data')
    ensures var g' := EagerCopyBut(g, temp, src, dst);
      Disciplined((leaves - {temp})[dst := l]) && Agrees((leaves - {temp})[dst := l], data', g') && EagerOk(g')
  {
    hide Disciplined, Agrees, EagerOk, IsShare, IsCow, IsWritable, IsUser, Covered, MayWrite;
    var rest, g' := leaves - {temp}, EagerUnmap(g, {temp});
    assert SameContents(rest, data, data);
    hide SameContents;
    UnmapCells(leaves, data, data, g, {temp});
    EagerUnmapOk(g, {temp});
    CopiedCell(rest, data, data', g', src, dst, l);
    EagerCopyOk(g', src, dst);
  }

  lemma EagerCopyOk(g: Eager, src: Ref, dst: Ref)
    requires EagerOk(g) && src in g.view && (g.view[src].Shared? ==> g.view[src].id in g.shared)
    ensures EagerOk(EagerCopy(g, src, dst))
  {
  }

  /** A fresh private writable page with the contents that src has on the copying machine. */
  lemma CopiedCell(leaves: Links, data: map<nat, Page>, data': map<nat, Page>, g: Eager, src: Ref, dst: Ref, l: Link)
    requires Disciplined(leaves) && Agrees(leaves, data, g) && dst.Leaf? && Covered(dst)
    requires src in g.view && (g.view[src].Shared? ==> g.view[src].id in g.shared)
    requires IsUser(l.flags) && !IsShare(l.flags) && IsWritable(l.flags) && MayWrite(l.flags)
    requires forall r' :: r' in leaves ==> leaves[r'].page != l.page
    requires l.page in data' && data'[l.page] == Content(g, g.view[src])
    requires SameContents(leaves - {dst}, data, data')
    ensures Disciplined(leaves[dst := l]) && Agrees(leaves[dst := l], data', EagerCopy(g, src, dst))
  {
    hide IsShare, IsCow, IsWritable, IsUser, Covered, MayWrite;
    DisciplinedFresh(leaves, dst, l);
    hide Disciplined;
    var g' := EagerCopy(g, src, dst);
    forall x | x in g'.view && x != dst ensures CellAgrees(leaves[x], data', g', g'.view[x]) {
      assert CellAgrees(leaves[x], data, g, g.view[x]) && x in leaves - {dst};
    }
    assert CellAgrees(l, data', g', g'.view[dst]);
    assert SharesAgree(leaves[dst := l], g');
    assert forall x :: x in g'.view <==> Covered(x) && x in leaves[dst := l];
    hide *;
    AgreesIntro(leaves[dst := l], data', g');
  }

  /** For a private writable page both forks give the child the same thing: each leaves the real machine related to one
      and the same state of the copying machine, but for what the parent had at UTEMP. */
  lemma SameChildPage(s: System, g: Eager, managed: set<nat>, cur: Slot, child: Slot, va: nat)
    requires Related(s, g, managed) && s.envs[cur].status != Free && s.envs[child].status != Free && cur != child
    requires UserPageAddress(va)
    requires LeafAt(cur, va) in s.frames.links && LeafAt(cur, va) != LeafAt(cur, UTEMP) && Covered(LeafAt(cur, va))
    requires MayWrite(s.frames.links[LeafAt(cur, va)].flags) && !IsShare(s.frames.links[LeafAt(cur, va)].flags)
    ensures var (a, ok) := DumbDuppage(s, cur, s.envs[child].id, va);
      var (b, ok') := Duppage(s, cur, s.envs[child].id, va);
      var g' := EagerDup(g, LeafAt(cur, va), LeafAt(child, va));
      (ok ==> Related(a, EagerUnmap(g', {LeafAt(cur, UTEMP)}), managed)) && (ok' ==> Related(b, g', managed))
  {
    hide Related, DumbDuppage, Duppage, LeafAt, EagerDup, EagerUnmap, EagerCopyBut, IsShare, IsCow, IsWritable, Covered;
    DumbCopies(s, g, managed, cur, child, va);
    DuppageKeeps(s, g, managed, cur, child, va);
    PrivateCell(s, g, managed, LeafAt(cur, va));
    TempFacts(cur, va);
    TempFacts(child, va);
    SameEager(g, LeafAt(cur, UTEMP), LeafAt(cur, va), LeafAt(child, va));
  }

  lemma SameEager(g: Eager, temp: Ref, src: Ref, dst: Ref)
    requires temp != src && temp != dst && src in g.view && (g.view[src].Shared? ==> g.view[src].id in g.shared)
    requires g.view[src] == Private(Content(g, g.view[src]), true)
    ensures EagerCopyBut(g, temp, src, dst) == EagerUnmap(EagerDup(g, src, dst), {temp})
  {
    assert EagerCopyBut(g, temp, src, dst).view == EagerUnmap(EagerDup(g, src, dst), {temp}).view;
  }

  lemma PrivateCell(s: System, g: Eager, managed: set<nat>, leaf: Ref)
    requires Related(s, g, managed) && Covered(leaf) && leaf in s.frames.links
    requires MayWrite(s.frames.links[leaf].flags) && !IsShare(s.frames.links[leaf].flags)
    ensures leaf in g.view && g.view[leaf] == Private(Content(g, g.view[leaf]), true)
  {
    hide SystemOk, Disciplined, IsShare, IsCow, IsWritable, MayWrite;
    LeafIn(s.frames.links, leaf);
    assert CellAgrees(Leaves(s.frames.links)[leaf], s.frames.data, g, g.view[leaf]);
  }
}
