/** Copy-on-write fork at user level, and the proof that it cannot be told from a fork that copies.

    The first part gives the machine that copies: every mapping below the stack top has contents
    of its own, except that PTE_SHARE mappings name a common object.  The second part relates it
    to page-table leaves with the copy-on-write bit.  The third part gives lib/fork.c as system
    calls and shows that every run keeps the relation. */
module CowFork {
  import opened Mmu
  import opened Vm
  import opened Syscalls

  // ---------------------------------------------------------------- flag bits

  const PERM_RO: Perm := Perm(0, NO_FLAGS.(p := true, u := true))                  // PTE_P | PTE_U
  const PERM_RW: Perm := Perm(0, NO_FLAGS.(p := true, u := true, w := true))       // PTE_P | PTE_U | PTE_W
  const PERM_COW: Perm := Perm(0, NO_FLAGS.(p := true, u := true, cow := true))    // PTE_P | PTE_U | PTE_COW

  predicate IsShare(f: Flags) {
    f.share && !f.cow && !f.soft
  }

  predicate IsCow(f: Flags) {
    f.cow && !f.share && !f.soft
  }

  predicate IsWritable(f: Flags) {
    f.w
  }

  /** The environment can store there, at once or after its page-fault handler has run. */
  predicate MayWrite(f: Flags) {
    IsWritable(f) || IsCow(f)
  }

  predicate IsUser(f: Flags) {
    f.p && f.u
  }

  /** uvpt[pn] & PTE_SYSCALL. */
  function SharePerm(f: Flags): Perm {
    Perm(0, Flags(f.p, f.w, f.u, false, false, false, false, false, false, f.soft, f.share, f.cow))
  }

  lemma FlagFacts()
    ensures SyscallPerm(PERM_COW) && SyscallPerm(PERM_RW) && SyscallPerm(PERM_RO)
    ensures var f := WithP(PERM_COW.low); IsUser(f) && IsCow(f) && !IsWritable(f) && !IsShare(f)
    ensures var f := WithP(PERM_RO.low); IsUser(f) && !IsCow(f) && !IsWritable(f) && !IsShare(f) && !MayWrite(f)
    ensures var f := WithP(PERM_RW.low); IsUser(f) && !IsCow(f) && IsWritable(f) && !IsShare(f) && f.w
    ensures !PERM_COW.low.w && !PERM_RO.low.w
  {
  }

  lemma SharePermFacts(f: Flags)
    requires IsUser(f)
    ensures SyscallPerm(SharePerm(f)) && (SharePerm(f).low.w <==> f.w)
    ensures SameUse(WithP(SharePerm(f).low), f)
  {
    assert SyscallPerm(SharePerm(f));
    hide SyscallPerm;
  }

  /** Two sets of flags that fork and the fault handler treat alike. */
  predicate SameUse(f: Flags, f': Flags) {
    IsUser(f) == IsUser(f') && IsShare(f) == IsShare(f') && IsWritable(f) == IsWritable(f') && IsCow(f) == IsCow(f')
  }

  lemma SameUseParts(f: Flags, f': Flags)
    requires SameUse(f, f')
    ensures IsUser(f) == IsUser(f') && IsShare(f) == IsShare(f') && IsWritable(f) == IsWritable(f')
    ensures IsCow(f) == IsCow(f')
  {
  }

  lemma DirtyFacts(f: Flags)
    ensures SameUse(Touched(f), f)
  {
  }

  lemma ExclusiveBits(f: Flags)
    ensures !(IsShare(f) && IsCow(f))
  {
  }

  // ---------------------------------------------------------------- the machine that copies

  /** What one environment has at one page: its own contents, or a common object. */
  datatype Cell = Private(content: Page, writable: bool) | Shared(id: nat, writable: bool)

  datatype Eager = Eager(view: map<Ref, Cell>, shared: map<nat, Page>, next: nat)

  ghost predicate EagerOk(g: Eager) {
    && (forall r :: r in g.view && g.view[r].Shared? ==> g.view[r].id in g.shared)
    && (forall id :: id in g.shared ==> id < g.next)
  }

  function Content(g: Eager, c: Cell): Page
    requires c.Shared? ==> c.id in g.shared
  {
    if c.Private? then c.content else g.shared[c.id]
  }

  /** Fork of one page: a copy, or a second name for a common object. */
  function EagerDup(g: Eager, src: Ref, dst: Ref): Eager {
    if src in g.view then g.(view := g.view[dst := g.view[src]]) else g
  }

  function EagerWrite(g: Eager, r: Ref, i: nat, w: Word): Eager
    requires i < NPTENTRIES
  {
    if r !in g.view || !g.view[r].writable then g
    else match g.view[r]
      case Private(content, wr) => g.(view := g.view[r := Private(content[i := w], wr)])
      case Shared(id, wr) => if id in g.shared then g.(shared := g.shared[id := g.shared[id][i := w]]) else g
  }

  function EagerAlloc(g: Eager, r: Ref, share: bool, writable: bool): Eager {
    if share then Eager(g.view[r := Shared(g.next, writable)], g.shared[g.next := ZeroPage()], g.next + 1)
    else g.(view := g.view[r := Private(ZeroPage(), writable)])
  }

  function EagerUnmap(g: Eager, gone: set<Ref>): Eager {
    g.(view := g.view - gone)
  }

  // ---------------------------------------------------------------- the relation

  /** Mappings below USTACKTOP, other than the fault handler's scratch page at PFTEMP. */
  predicate Covered(r: Ref) {
    r.Leaf? && r.d * 1024 + r.t < 0xEEBFE && !IsTemp(r)
  }

  predicate IsTemp(r: Ref) {
    r.Leaf? && r.d * 1024 + r.t == 0x7FF
  }

  /** The user mappings of all environments. */
  function Leaves(links: Links): Links {
    map r | r in links && r.Leaf? :: links[r]
  }

  /** The copy-on-write discipline: a page that someone can store to directly has no other
      mapping, unless all its mappings are PTE_SHARE mappings. */
  ghost predicate Disciplined(leaves: Links) {
    && (forall r :: r in leaves ==> r.Leaf? && IsUser(leaves[r].flags))
    && (forall r, r' ::
          r in leaves && r' in leaves && r != r' && leaves[r].page == leaves[r'].page && IsWritable(leaves[r].flags)
          ==> IsShare(leaves[r].flags) && IsShare(leaves[r'].flags))
  }

  ghost predicate CellAgrees(l: Link, data: map<nat, Page>, g: Eager, c: Cell) {
    && l.page in data
    && (c.Shared? ==> c.id in g.shared)
    && data[l.page] == Content(g, c)
    && (c.writable <==> MayWrite(l.flags))
    && (c.Shared? <==> IsShare(l.flags))
  }

  /** Every mapping has the contents it would have if fork had copied, and two PTE_SHARE mappings
      are of one page exactly if they are of one object. */
  ghost predicate Agrees(leaves: Links, data: map<nat, Page>, g: Eager) {
    && (forall r :: r in g.view <==> Covered(r) && r in leaves)
    && (forall r :: r in g.view ==> CellAgrees(leaves[r], data, g, g.view[r]))
    && SharesAgree(leaves, g)
  }

  ghost predicate SharesAgree(leaves: Links, g: Eager) {
    forall r, r' :: r in g.view && r' in g.view && r in leaves && r' in leaves && g.view[r].Shared?
           && g.view[r'].Shared?
      ==> (leaves[r].page == leaves[r'].page <==> g.view[r].id == g.view[r'].id)
  }

  /** The pages that are still mapped keep their contents. */
  ghost predicate SameContents(leaves: Links, data: map<nat, Page>, data': map<nat, Page>) {
    forall r :: r in leaves ==>
             leaves[r].page in data' && leaves[r].page in data && data'[leaves[r].page] == data[leaves[r].page]
  }

  lemma DupShared(leaves: Links, data: map<nat, Page>, data': map<nat, Page>, g: Eager, src: Ref, dst: Ref, l: Link)
    requires Disciplined(leaves) && Agrees(leaves, data, g)
    requires src in leaves && IsShare(leaves[src].flags) && dst.Leaf? && (Covered(src) <==> Covered(dst))
    requires l.page == leaves[src].page && IsUser(l.flags) && IsShare(l.flags)
    requires (IsWritable(l.flags) <==> IsWritable(leaves[src].flags))
    requires SameContents(leaves[dst := l], data, data')
    ensures Disciplined(leaves[dst := l]) && Agrees(leaves[dst := l], data', EagerDup(g, src, dst))
  {
    ExclusiveBits(l.flags);
    ExclusiveBits(leaves[src].flags);
    hide IsShare, IsCow, IsWritable, IsUser, Covered;
    assert Disciplined(leaves[dst := l]);
    hide Disciplined;
    CopyCell(leaves, leaves[dst := l], data, data', g, src, dst);
  }

  lemma DupReadOnly(leaves: Links, data: map<nat, Page>, data': map<nat, Page>, g: Eager, src: Ref, dst: Ref, l: Link)
    requires Disciplined(leaves) && Agrees(leaves, data, g)
    requires src in leaves && !IsShare(leaves[src].flags) && !MayWrite(leaves[src].flags) && dst.Leaf?
    requires (Covered(src) <==> Covered(dst))
    requires l.page == leaves[src].page && IsUser(l.flags) && !IsShare(l.flags) && !MayWrite(l.flags)
    requires SameContents(leaves[dst := l], data, data')
    ensures Disciplined(leaves[dst := l]) && Agrees(leaves[dst := l], data', EagerDup(g, src, dst))
  {
    hide IsShare, IsCow, IsWritable, IsUser, Covered;
    assert Disciplined(leaves[dst := l]);
    hide Disciplined;
    CopyCell(leaves, leaves[dst := l], data, data', g, src, dst);
  }

  lemma DupCow(leaves: Links, data: map<nat, Page>, data': map<nat, Page>, g: Eager, src: Ref, dst: Ref, l: Link)
    requires Disciplined(leaves) && Agrees(leaves, data, g)
    requires src in leaves && !IsShare(leaves[src].flags) && MayWrite(leaves[src].flags) && dst.Leaf?
    requires (Covered(src) <==> Covered(dst))
    requires l.page == leaves[src].page && IsUser(l.flags) && !IsShare(l.flags) && IsCow(l.flags)
    requires !IsWritable(l.flags)
    requires SameContents(leaves[dst := l][src := l], data, data')
    ensures Disciplined(leaves[dst := l][src := l]) && Agrees(leaves[dst := l][src := l], data', EagerDup(g, src, dst))
  {
    hide IsShare, IsCow, IsWritable, IsUser, Covered;
    assert Disciplined(leaves[dst := l][src := l]);
    hide Disciplined;
    CopyCell(leaves, leaves[dst := l][src := l], data, data', g, src, dst);
  }

  /** dst becomes a second mapping of src's page, to be used like src. */
  lemma CopyCell(leaves: Links, leaves': Links, data: map<nat, Page>, data': map<nat, Page>, g: Eager, src: Ref,
                 dst: Ref)
    requires Agrees(leaves, data, g) && src in leaves && (Covered(src) <==> Covered(dst))
    requires forall r :: r in leaves' <==> r in leaves || r == dst
    requires forall r :: r in leaves && r != dst && r != src ==> leaves'[r] == leaves[r]
    requires leaves'[dst].page == leaves'[src].page == leaves[src].page
    requires forall r :: r in {src, dst} ==>
      (IsShare(leaves'[r].flags) <==> IsShare(leaves[src].flags))
        && (MayWrite(leaves'[r].flags) <==> MayWrite(leaves[src].flags))
    requires SameContents(leaves', data, data')
    ensures Agrees(leaves', data', EagerDup(g, src, dst))
  {
    hide IsShare, MayWrite, Covered;
    var g' := EagerDup(g, src, dst);
    CopyShares(leaves, leaves', g, src, dst);
    assert forall r :: r in g'.view <==> Covered(r) && r in leaves';
    hide SharesAgree, CellAgrees;
    forall r | r in g'.view ensures CellAgrees(leaves'[r], data', g', g'.view[r]) {
      var o := if r == dst then src else r;
      SameCell(leaves[o], leaves'[r], data, data', g, g', g.view[o]);
    }
    hide *;
    AgreesIntro(leaves', data', g');
  }

  lemma SameCell(l: Link, l': Link, data: map<nat, Page>, data': map<nat, Page>, g: Eager, g': Eager, c: Cell)
    requires CellAgrees(l, data, g, c) && l'.page == l.page && g'.shared == g.shared
    requires l.page in data' && data'[l.page] == data[l.page]
    requires (IsShare(l'.flags) <==> IsShare(l.flags)) && (MayWrite(l'.flags) <==> MayWrite(l.flags))
    ensures CellAgrees(l', data', g', c)
  {
  }

  lemma CopyShares(leaves: Links, leaves': Links, g: Eager, src: Ref, dst: Ref)
    requires SharesAgree(leaves, g) && src in leaves && dst in leaves' && src in leaves'
    requires (dst in g.view ==> src in g.view) && forall r :: r in g.view ==> r in leaves && r in leaves'
    requires forall r :: r in leaves && r != dst && r != src && r in leaves' ==> leaves'[r] == leaves[r]
    requires leaves'[dst].page == leaves'[src].page == leaves[src].page
    ensures SharesAgree(leaves', EagerDup(g, src, dst))
  {
    var g' := EagerDup(g, src, dst);
    forall r, r' | r in g'.view && r' in g'.view && r in leaves' && r' in leaves' && g'.view[r].Shared?
           && g'.view[r'].Shared?
      ensures leaves'[r].page == leaves'[r'].page <==> g'.view[r].id == g'.view[r'].id {
      var o := if r == dst && src in g.view then src else r;
      var o' := if r' == dst && src in g.view then src else r';
      assert leaves'[r].page == leaves[o].page && leaves'[r'].page == leaves[o'].page;
    }
  }

  lemma DisciplinedFresh(leaves: Links, r: Ref, l: Link)
    requires Disciplined(leaves) && r.Leaf? && IsUser(l.flags)
    requires forall r' :: r' in leaves && r' != r ==> leaves[r'].page != l.page
    ensures Disciplined(leaves[r := l])
  {
    hide IsShare, IsWritable, IsUser;
  }

  lemma DisciplinedFlags(leaves: Links, r: Ref, flags: Flags)
    requires Disciplined(leaves) && r in leaves && IsUser(flags)
    requires (IsWritable(flags) <==> IsWritable(leaves[r].flags)) && (IsShare(flags) <==> IsShare(leaves[r].flags))
    ensures Disciplined(leaves[r := Link(leaves[r].page, flags)])
  {
    hide IsShare, IsWritable, IsUser;
  }

  /** Agrees, from its three parts. */
  lemma AgreesIntro(leaves: Links, data: map<nat, Page>, g: Eager)
    requires forall r :: r in g.view <==> Covered(r) && r in leaves
    requires forall r :: r in g.view ==> CellAgrees(leaves[r], data, g, g.view[r])
    requires SharesAgree(leaves, g)
    ensures Agrees(leaves, data, g)
  {
  }

  /** A store through a writable mapping. */
  lemma WriteDirect(leaves: Links, data: map<nat, Page>, g: Eager, r: Ref, flags: Flags, i: nat, w: Word)
    requires Disciplined(leaves) && Agrees(leaves, data, g) && r in leaves && Covered(r) && IsWritable(leaves[r].flags)
    requires i < NPTENTRIES
    requires IsUser(flags) && IsWritable(flags) && (IsShare(flags) <==> IsShare(leaves[r].flags))
    requires (IsCow(flags) <==> IsCow(leaves[r].flags))
    requires leaves[r].page in data
    ensures var p := leaves[r].page;
      && Disciplined(leaves[r := Link(p, flags)])
      && Agrees(leaves[r := Link(p, flags)], data[p := data[p][i := w]], EagerWrite(g, r, i, w))
  {
    hide IsShare, IsCow, IsWritable, IsUser, Covered;
    var p := leaves[r].page;
    var leaves' := leaves[r := Link(p, flags)];
    var data' := data[p := data[p][i := w]];
    var g' := EagerWrite(g, r, i, w);
    DisciplinedFlags(leaves, r, flags);
    assert SharesAgree(leaves', g');
    forall x | x in g'.view ensures CellAgrees(leaves'[x], data', g', g'.view[x]) {
      WriteCell(leaves, data, g, r, flags, i, w, x);
    }
    hide *;
    AgreesIntro(leaves', data', g');
  }

  lemma WriteCell(leaves: Links, data: map<nat, Page>, g: Eager, r: Ref, flags: Flags, i: nat, w: Word, x: Ref)
    requires Disciplined(leaves) && SharesAgree(leaves, g) && i < NPTENTRIES
    requires r in leaves && x in leaves && r in g.view && x in g.view && IsWritable(leaves[r].flags)
    requires CellAgrees(leaves[r], data, g, g.view[r]) && CellAgrees(leaves[x], data, g, g.view[x])
    requires (IsShare(flags) <==> IsShare(leaves[r].flags)) && (MayWrite(flags) <==> MayWrite(leaves[r].flags))
    ensures var p := leaves[r].page;
      var g' := EagerWrite(g, r, i, w);
      x in g'.view && CellAgrees(leaves[r := Link(p, flags)][x], data[p := data[p][i := w]], g', g'.view[x])
  {
    hide IsShare, IsCow, IsWritable, IsUser;
  }

  /** A store that goes to a fresh copy of a copy-on-write page. */
  lemma WriteCopied(leaves: Links, data: map<nat, Page>, data': map<nat, Page>, g: Eager, r: Ref, gone: Ref, l: Link,
                    i: nat, w: Word)
    requires Disciplined(leaves) && Agrees(leaves, data, g) && r in leaves && Covered(r) && IsCow(leaves[r].flags)
    requires !Covered(gone)
    requires i < NPTENTRIES && IsUser(l.flags) && !IsShare(l.flags) && IsWritable(l.flags)
    requires forall r' :: r' in leaves ==> leaves[r'].page != l.page || r' == gone
    requires leaves[r].page in data && l.page in data' && data'[l.page] == data[leaves[r].page][i := w]
    requires SameContents((leaves - {gone}) - {r}, data, data')
    ensures Disciplined((leaves - {gone})[r := l]) && Agrees((leaves - {gone})[r := l], data', EagerWrite(g, r, i, w))
  {
    ExclusiveBits(leaves[r].flags);
    hide IsShare, IsCow, IsWritable, IsUser, Covered;
    var leaves' := (leaves - {gone})[r := l];
    var g' := EagerWrite(g, r, i, w);
    assert Disciplined(leaves - {gone});
    DisciplinedFresh(leaves - {gone}, r, l);
    hide Disciplined;
    assert CellAgrees(leaves[r], data, g, g.view[r]);
    assert SharesAgree(leaves', g');
    hide SharesAgree;
    forall x | x in g'.view ensures CellAgrees(leaves'[x], data', g', g'.view[x]) {
      assert CellAgrees(leaves[x], data, g, g.view[x]);
      assert x == r || x in (leaves - {gone}) - {r};
    }
    hide *;
    AgreesIntro(leaves', data', g');
  }

  lemma AllocCell(leaves: Links, data: map<nat, Page>, data': map<nat, Page>, g: Eager, r: Ref, l: Link)
    requires Disciplined(leaves) && Agrees(leaves, data, g) && EagerOk(g) && r.Leaf? && IsUser(l.flags)
    requires forall r' :: r' in leaves && r' != r ==> leaves[r'].page != l.page
    requires l.page in data' && data'[l.page] == ZeroPage()
    requires SameContents(leaves - {r}, data, data')
    ensures Disciplined(leaves[r := l])
    ensures Agrees(leaves[r := l], data', if Covered(r) then EagerAlloc(g, r, IsShare(l.flags), MayWrite(l.flags))
            else g)
  {
    hide IsShare, IsCow, IsWritable, IsUser, Covered, MayWrite;
    DisciplinedFresh(leaves, r, l);
    hide Disciplined;
    var leaves' := leaves[r := l];
    var g' := if Covered(r) then EagerAlloc(g, r, IsShare(l.flags), MayWrite(l.flags)) else g;
    AllocShares(leaves, g, r, l, IsShare(l.flags), MayWrite(l.flags));
    hide SharesAgree, EagerOk;
    forall x | x in g'.view && x != r ensures CellAgrees(leaves'[x], data', g', g'.view[x]) {
      AllocOther(leaves, data, data', g, r, l, IsShare(l.flags), MayWrite(l.flags), x);
    }
    assert r in g'.view ==> CellAgrees(leaves'[r], data', g', g'.view[r]);
    assert forall x :: x in g'.view <==> Covered(x) && x in leaves';
    hide *;
    AgreesIntro(leaves', data', g');
  }

  lemma AllocOther(leaves: Links, data: map<nat, Page>, data': map<nat, Page>, g: Eager, r: Ref, l: Link, share: bool,
                   writable: bool, x: Ref)
    requires EagerOk(g) && x in g.view && x != r && x in leaves && CellAgrees(leaves[x], data, g, g.view[x])
    requires SameContents(leaves - {r}, data, data')
    ensures CellAgrees(leaves[x], data', g, g.view[x])
    ensures var g' := EagerAlloc(g, r, share, writable); x in g'.view && CellAgrees(leaves[x], data', g', g'.view[x])
  {
    hide IsShare, MayWrite;
    assert x in leaves - {r};
  }

  lemma AllocShares(leaves: Links, g: Eager, r: Ref, l: Link, share: bool, writable: bool)
    requires SharesAgree(leaves, g) && EagerOk(g)
    requires forall r' :: r' in leaves && r' != r ==> leaves[r'].page != l.page
    ensures SharesAgree(leaves[r := l], EagerAlloc(g, r, share, writable))
    ensures r !in g.view ==> SharesAgree(leaves[r := l], g)
  {
  }

  lemma UnmapCells(leaves: Links, data: map<nat, Page>, data': map<nat, Page>, g: Eager, gone: set<Ref>)
    requires Disciplined(leaves) && Agrees(leaves, data, g)
    requires SameContents(leaves - gone, data, data')
    ensures Disciplined(leaves - gone) && Agrees(leaves - gone, data', EagerUnmap(g, gone))
  {
    hide IsShare, IsCow, IsWritable, IsUser, Covered, MayWrite;
    assert Disciplined(leaves - gone);
    hide Disciplined;
    forall x | x in g.view && x !in gone ensures CellAgrees((leaves - gone)[x], data', EagerUnmap(g, gone), g.view[x]) {
      assert CellAgrees(leaves[x], data, g, g.view[x]);
    }
  }

  // ---------------------------------------------------------------- lib/fork.c

  function PageOf(va: nat): nat {
    va - va % 4096
  }

  /** duppage, after fork has seen that the page is mapped; false when it panics. */
  function Duppage(s: System, cur: Slot, envid: int, va: nat): (System, bool) {
    var leaf := LeafAt(cur, va);
    if leaf !in s.frames.links then (s, true) else
    var f := s.frames.links[leaf].flags;
    if f.cow && f.share then (s, false)
    else if IsShare(f) then
      var (s1, err) := PageMap(s, cur, 0, va, envid, va, SharePerm(f));
      (s1, err >= 0)
    else if MayWrite(f) then
      var (s1, err) := PageMap(s, cur, 0, va, envid, va, PERM_COW);
      if err < 0 then (s1, false) else
      var (s2, err2) := PageMap(s1, cur, 0, va, 0, va, PERM_COW);
      (s2, err2 >= 0)
    else
      var (s1, err) := PageMap(s, cur, 0, va, envid, va, PERM_RO);
      (s1, err >= 0)
  }

  /** memmove(PFTEMP, page, PGSIZE). */
  function CopyPage(v: Frames, dst: Ref, src: Ref): Frames {
    if dst in v.links && src in v.links && v.links[src].page in v.data && v.links[dst].page in v.data then
      var l := v.links[dst];
      v.(links := v.links[dst := Link(l.page, Touched(l.flags))], data := v.data[l.page := v.data[v.links[src].page]])
    else v
  }

  /** pgfault for a store at va; false when it panics. */
  function PgFault(s: System, cur: Slot, va: nat): (System, bool) {
    var leaf := LeafAt(cur, va);
    if leaf !in s.frames.links || !IsCow(s.frames.links[leaf].flags) then (s, false) else
    var (s1, err1) := PageAlloc(s, cur, 0, PFTEMP, PERM_RW);
    if err1 < 0 then (s1, false) else CopyAndMove(s1, cur, va)
  }

  /** The rest of pgfault, once there is a scratch page: copy, map the copy at va, unmap the scratch page. */
  function CopyAndMove(s: System, cur: Slot, va: nat): (System, bool) {
    var s2 := s.(frames := CopyPage(s.frames, LeafAt(cur, PFTEMP), LeafAt(cur, va)));
    var (s3, err3) := PageMap(s2, cur, 0, PFTEMP, 0, PageOf(va), PERM_RW);
    if err3 < 0 then (s3, false) else
    var (s4, err4) := PageUnmap(s3, cur, 0, PFTEMP);
    (s4, err4 >= 0)
  }

  /** A store at va by user code, with its page-fault handler; false when the handler panics. */
  function WriteAt(s: System, cur: Slot, va: nat, w: Word): (System, bool) {
    if CanStore(s.frames, LeafAt(cur, va)) then (StoreAt(s, cur, va, w), true) else
    var (s1, ok) := PgFault(s, cur, va);
    if ok then (StoreAt(s1, cur, va, w), true) else (s1, false)
  }

  // ---------------------------------------------------------------- effects on mappings and contents

  lemma InsertLeaves(v: Frames, e: nat, d: nat, t: nat, p: nat, perm: Flags)
    requires CanWalk(v, e, d)
    ensures Leaves(Insert(v, e, d, t, p, perm).links) == Leaves(v.links)[Leaf(e, d, t) := Link(p, WithP(perm))]
    ensures forall q :: q in Insert(v, e, d, t, p, perm).data ==>
            q in v.data && Insert(v, e, d, t, p, perm).data[q] == v.data[q]
  {
    InsertFrame(v, e, d, t, p, perm);
    hide Insert, CanWalk;
    OneLeafMore(v.links, Insert(v, e, d, t, p, perm).links, e, d, t, Link(p, WithP(perm)));
  }

  lemma OneLeafMore(links: Links, links': Links, e: nat, d: nat, t: nat, l: Link)
    requires Leaf(e, d, t) in links' && links'[Leaf(e, d, t)] == l
    requires forall r :: r != Leaf(e, d, t) && r != Table(e, d) ==>
               (r in links' <==> r in links) && (r in links ==> links'[r] == links[r])
    ensures Leaves(links') == Leaves(links)[Leaf(e, d, t) := l]
  {
    assert Leaves(links').Keys == Leaves(links)[Leaf(e, d, t) := l].Keys;
  }

  lemma DropLeaf(v: Frames, r: Ref)
    requires r.Leaf?
    ensures Leaves(Drop(v, r).links) == Leaves(v.links) - {r}
    ensures forall q :: q in Drop(v, r).data ==> q in v.data && Drop(v, r).data[q] == v.data[q]
  {
    DropOther(v, r);
  }

  lemma ContentsKept(v: Frames, w: Frames, managed: set<nat>)
    requires WellFormed(w, managed) && forall q :: q in w.data ==> q in v.data && w.data[q] == v.data[q]
    ensures SameContents(Leaves(w.links), v.data, w.data)
  {
    forall r | r in Leaves(w.links) ensures w.links[r].page in w.data {
      MappedIsData(w, managed, r);
    }
  }

  ghost predicate Related(s: System, g: Eager, managed: set<nat>) {
    && SystemOk(s, managed)
    && Disciplined(Leaves(s.frames.links))
    && Agrees(Leaves(s.frames.links), s.frames.data, g)
    && EagerOk(g)
  }

  /** What sys_page_map does when a page is mapped at srcva in cur: it fails and changes nothing, or
      it maps that page at dstva in the environment named by envid as well.  It does not fail when
      that environment is cur itself and has a page table for dstva. */
  lemma MapEffect(s: System, managed: set<nat>, cur: Slot, srcva: nat, envid: int, dstva: nat, perm: Perm)
    requires SystemOk(s, managed) && s.envs[cur].status != Free && UserPageAddress(srcva) && UserPageAddress(dstva)
    requires LeafAt(cur, srcva) in s.frames.links
    requires SyscallPerm(perm) && (perm.low.w ==> s.frames.links[LeafAt(cur, srcva)].flags.w)
    ensures var (s', err) := PageMap(s, cur, 0, srcva, envid, dstva, perm);
      var dst := EnvOf(s.envs, cur, envid, true);
      && SystemOk(s', managed) && s'.envs == s.envs
      && (err < 0 ==> s' == s)
      && (err >= 0 ==>
            && dst.Some?
            && Leaves(s'.frames.links) == Leaves(s.frames.links)[LeafAt(dst.value, dstva) :=
               Link(s.frames.links[LeafAt(cur, srcva)].page, WithP(perm.low))]
            && SameContents(Leaves(s'.frames.links), s.frames.data, s'.frames.data)
            && (forall q :: q in s'.frames.data ==> q in s.frames.data && s'.frames.data[q] == s.frames.data[q]))
      && (dst == Some(cur) && LeafAt(cur, dstva) in s.frames.links ==> err >= 0)
  {
    hide WellFormed, SyscallPerm, Insert, Pdx, Ptx, SameContents, Leaves, EnvOf, UserPageAddress, EnvTableOk;
    SelfNamed(s.envs, cur);
    PageMapKeeps(s, managed, cur, 0, srcva, envid, dstva, perm);
    var dst := EnvOf(s.envs, cur, envid, true);
    var (s', err) := PageMap(s, cur, 0, srcva, envid, dstva, perm);
    if dst.Some? {
      var p := s.frames.links[LeafAt(cur, srcva)].page;
      if CanWalk(s.frames, dst.value, Pdx(dstva)) {
        InsertLeaves(s.frames, dst.value, Pdx(dstva), Ptx(dstva), p, perm.low);
        ContentsKept(s.frames, s'.frames, managed);
      }
      if LeafAt(dst.value, dstva) in s.frames.links {
        TableThere(s.frames, managed, LeafAt(dst.value, dstva));
      }
    }
  }

  lemma TableThere(v: Frames, managed: set<nat>, leaf: Ref)
    requires WellFormed(v, managed) && leaf.Leaf? && leaf in v.links
    ensures Table(leaf.env, leaf.d) in v.links && leaf.t < NPTENTRIES && leaf.d < USER_TABLES
  {
  }

  lemma AllocEffect(s: System, managed: set<nat>, cur: Slot, envid: int, va: nat, perm: Perm)
    requires SystemOk(s, managed) && s.envs[cur].status != Free
    ensures var (s', err) := PageAlloc(s, cur, envid, va, perm);
      var dst := EnvOf(s.envs, cur, envid, true);
      && SystemOk(s', managed) && s'.envs == s.envs
      && (err < 0 ==> s' == s)
      && (err >= 0 ==>
            && dst.Some? && s.frames.free != [] && SyscallPerm(perm) && UserPageAddress(va)
            && (forall r :: r in s.frames.links ==> s.frames.links[r].page != s.frames.free[0])
            && Leaves(s'.frames.links) ==
               Leaves(s.frames.links)[LeafAt(dst.value, va) := Link(s.frames.free[0], WithP(perm.low))]
            && s.frames.free[0] in s'.frames.data && s'.frames.data[s.frames.free[0]] == ZeroPage()
            && SameContents(Leaves(s.frames.links) - {LeafAt(dst.value, va)}, s.frames.data, s'.frames.data))
  {
    hide SyscallPerm, WellFormed, Insert, Holders, Structural;
    PageAllocKeeps(s, managed, cur, envid, va, perm);
    var (s', err) := PageAlloc(s, cur, envid, va, perm);
    if err >= 0 {
      var dst := EnvOf(s.envs, cur, envid, true).value;
      var n := s.frames.free[0];
      FreshUnheld(s.frames, managed);
      InsertLeaves(Alloc(s.frames), dst, Pdx(va), Ptx(va), n, perm.low);
      assert LeafAt(dst, va) in Leaves(s'.frames.links);
      MappedIsData(s'.frames, managed, LeafAt(dst, va));
      forall r | r in Leaves(s.frames.links) && r != LeafAt(dst, va)
        ensures r in s'.frames.links && s'.frames.links[r] == s.frames.links[r] {
        assert r in Leaves(s'.frames.links);
      }
      AllocContents(s, s', managed, LeafAt(dst, va), n);
    }
  }

  lemma FreshUnheld(v: Frames, managed: set<nat>)
    requires WellFormed(v, managed) && v.free != []
    ensures forall r :: r in v.links ==> v.links[r].page != v.free[0]
  {
    AllocKeeps(v, managed);
    assert forall r :: r in v.links && v.links[r].page == v.free[0] ==> r in Holders(v.links, v.free[0]);
  }

  lemma AllocContents(s: System, s': System, managed: set<nat>, leaf: Ref, n: nat)
    requires WellFormed(s.frames, managed) && WellFormed(s'.frames, managed)
    requires forall r :: r in s.frames.links ==> s.frames.links[r].page != n
    requires forall r :: r in Leaves(s.frames.links) && r != leaf ==>
            r in s'.frames.links && s'.frames.links[r] == s.frames.links[r]
    requires forall q :: q in s'.frames.data ==>
            q in s.frames.data[n := ZeroPage()] && s'.frames.data[q] == s.frames.data[n := ZeroPage()][q]
    ensures SameContents(Leaves(s.frames.links) - {leaf}, s.frames.data, s'.frames.data)
  {
    hide WellFormed;
    forall r | r in Leaves(s.frames.links) && r != leaf
      ensures s.frames.links[r].page in s'.frames.data && s.frames.links[r].page in s.frames.data {
      MappedIsData(s.frames, managed, r);
      MappedIsData(s'.frames, managed, r);
    }
  }

  lemma CopyPageKeeps(v: Frames, managed: set<nat>, dst: Ref, src: Ref)
    requires WellFormed(v, managed) && dst.Leaf?
    ensures WellFormed(CopyPage(v, dst, src), managed)
  {
    var w := CopyPage(v, dst, src);
    if w != v {
      FlagsOnly(v, w, managed, dst, w.links[dst]);
    }
  }

  // ---------------------------------------------------------------- every step keeps the relation

  lemma LeafFacts(s: System, g: Eager, managed: set<nat>, leaf: Ref)
    requires Related(s, g, managed) && leaf.Leaf? && leaf in s.frames.links
    ensures leaf in Leaves(s.frames.links) && Leaves(s.frames.links)[leaf] == s.frames.links[leaf]
    ensures IsUser(s.frames.links[leaf].flags) && s.frames.links[leaf].page in s.frames.data
  {
    hide SystemOk, Agrees, EagerOk;
    assert leaf in Leaves(s.frames.links);
    SystemFrames(s, managed);
    MappedLeaf(s.frames, managed, leaf);
  }

  lemma SelfNamed(envs: EnvTable, cur: Slot)
    ensures EnvOf(envs, cur, 0, true) == Some(cur)
  {
  }

  lemma LeafBack(links: Links, r: Ref)
    requires r in Leaves(links)
    ensures r in links && links[r] == Leaves(links)[r]
  {
  }

  lemma ChildNamed(s: System, managed: set<nat>, cur: Slot, child: Slot)
    requires s.envs[child].status != Free && SystemOk(s, managed)
    ensures var r := EnvOf(s.envs, cur, s.envs[child].id, true); r.Some? ==> r.value == child
  {
    assert EnvOk(s.envs[child], child);
  }

  lemma LeafShapes(cur: Slot, child: Slot, va: nat)
    ensures LeafAt(cur, va).Leaf? && LeafAt(child, va).Leaf?
    ensures (Covered(LeafAt(cur, va)) <==> Covered(LeafAt(child, va)))
  {
  }

  lemma EagerDupOk(g: Eager, src: Ref, dst: Ref)
    requires EagerOk(g)
    ensures EagerOk(EagerDup(g, src, dst))
  {
  }

  /** MapEffect for an environment named by its slot. */
  lemma DupMap(s: System, managed: set<nat>, cur: Slot, child: Slot, va: nat, perm: Perm)
    requires SystemOk(s, managed) && s.envs[cur].status != Free && s.envs[child].status != Free && UserPageAddress(va)
    requires LeafAt(cur, va) in s.frames.links
    requires SyscallPerm(perm) && (perm.low.w ==> s.frames.links[LeafAt(cur, va)].flags.w)
    ensures var (s', err) := PageMap(s, cur, 0, va, s.envs[child].id, va, perm);
      && SystemOk(s', managed) && s'.envs == s.envs
      && (err < 0 ==> s' == s)
      && (err >= 0 ==>
            && Leaves(s'.frames.links) ==
               Leaves(s.frames.links)[LeafAt(child, va) := Link(s.frames.links[LeafAt(cur, va)].page, WithP(perm.low))]
            && SameContents(Leaves(s'.frames.links), s.frames.data, s'.frames.data))
  {
    hide SystemOk, PageMap, SameContents, Leaves, SyscallPerm, Pdx, Ptx, UserPageAddress, EnvOf;
    ChildNamed(s, managed, cur, child);
    MapEffect(s, managed, cur, va, s.envs[child].id, va, perm);
  }

  lemma DupSharedKeeps(s: System, g: Eager, managed: set<nat>, cur: Slot, child: Slot, va: nat)
    requires Related(s, g, managed) && s.envs[cur].status != Free && s.envs[child].status != Free && UserPageAddress(va)
    requires LeafAt(cur, va) in s.frames.links && IsShare(s.frames.links[LeafAt(cur, va)].flags)
    ensures var (s', err) :=
            PageMap(s, cur, 0, va, s.envs[child].id, va, SharePerm(s.frames.links[LeafAt(cur, va)].flags));
      && Related(s', if err >= 0 then EagerDup(g, LeafAt(cur, va), LeafAt(child, va)) else g, managed)
      && s'.envs == s.envs && (err < 0 ==> s' == s)
  {
    hide *;
    var src := LeafAt(cur, va);
    var dst := LeafAt(child, va);
    var f := s.frames.links[src].flags;
    var perm := SharePerm(f);
    var l := Link(s.frames.links[src].page, WithP(perm.low));
    LeafShapes(cur, child, va);
    RelatedParts(s, g, managed);
    LeafFacts(s, g, managed, src);
    SharePermFacts(f);
    SameUseParts(WithP(perm.low), f);
    DupMap(s, managed, cur, child, va, perm);
    var (s', err) := PageMap(s, cur, 0, va, s.envs[child].id, va, perm);
    if err >= 0 {
      DupShared(Leaves(s.frames.links), s.frames.data, s'.frames.data, g, src, dst, l);
      EagerDupOk(g, src, dst);
      RelatedIntro(s', Leaves(s.frames.links)[dst := l], EagerDup(g, src, dst), managed);
    }
  }

  lemma DupReadOnlyKeeps(s: System, g: Eager, managed: set<nat>, cur: Slot, child: Slot, va: nat)
    requires Related(s, g, managed) && s.envs[cur].status != Free && s.envs[child].status != Free && UserPageAddress(va)
    requires LeafAt(cur, va) in s.frames.links
    requires var f := s.frames.links[LeafAt(cur, va)].flags; !IsShare(f) && !MayWrite(f)
    ensures var (s', err) := PageMap(s, cur, 0, va, s.envs[child].id, va, PERM_RO);
      && Related(s', if err >= 0 then EagerDup(g, LeafAt(cur, va), LeafAt(child, va)) else g, managed)
      && s'.envs == s.envs && (err < 0 ==> s' == s)
  {
    hide *;
    var src := LeafAt(cur, va);
    var dst := LeafAt(child, va);
    var f := s.frames.links[src].flags;
    var perm := PERM_RO;
    var l := Link(s.frames.links[src].page, WithP(perm.low));
    LeafShapes(cur, child, va);
    RelatedParts(s, g, managed);
    LeafFacts(s, g, managed, src);
    FlagFacts();
    DupMap(s, managed, cur, child, va, perm);
    var (s', err) := PageMap(s, cur, 0, va, s.envs[child].id, va, perm);
    if err >= 0 {
      DupReadOnly(Leaves(s.frames.links), s.frames.data, s'.frames.data, g, src, dst, l);
      EagerDupOk(g, src, dst);
      RelatedIntro(s', Leaves(s.frames.links)[dst := l], EagerDup(g, src, dst), managed);
    }
  }

  /** The two sys_page_map calls for a writable or copy-on-write page: both mappings end up
      copy-on-write, on the page the parent had. */
  lemma DupCowMaps(s: System, managed: set<nat>, cur: Slot, child: Slot, va: nat)
    requires SystemOk(s, managed) && s.envs[cur].status != Free && s.envs[child].status != Free && UserPageAddress(va)
    requires LeafAt(cur, va) in s.frames.links
    ensures var (s1, err) := PageMap(s, cur, 0, va, s.envs[child].id, va, PERM_COW);
      var (s2, err2) := PageMap(s1, cur, 0, va, 0, va, PERM_COW);
      var l := Link(s.frames.links[LeafAt(cur, va)].page, WithP(PERM_COW.low));
      && (err < 0 ==> s1 == s)
      && (err >= 0 ==>
            && err2 >= 0 && s2.envs == s.envs && SystemOk(s2, managed)
            && Leaves(s2.frames.links) == Leaves(s.frames.links)[LeafAt(child, va) := l][LeafAt(cur, va) := l]
            && SameContents(Leaves(s2.frames.links), s.frames.data, s2.frames.data))
  {
    hide SystemOk, PageMap, SameContents, SyscallPerm, Pdx, Ptx, UserPageAddress, EnvOf;
    var src := LeafAt(cur, va);
    var leaves := Leaves(s.frames.links);
    assert src in leaves;
    ChildNamed(s, managed, cur, child);
    FlagFacts();
    MapEffect(s, managed, cur, va, s.envs[child].id, va, PERM_COW);
    var (s1, err) := PageMap(s, cur, 0, va, s.envs[child].id, va, PERM_COW);
    if err >= 0 {
      LeafBack(s1.frames.links, src);
      SelfNamed(s1.envs, cur);
      MapEffect(s1, managed, cur, va, 0, va, PERM_COW);
      var (s2, err2) := PageMap(s1, cur, 0, va, 0, va, PERM_COW);
      hide Leaves;
      ContentsTrans(Leaves(s1.frames.links), Leaves(s2.frames.links), s.frames.data, s1.frames.data, s2.frames.data,
        src);
    }
  }

  lemma DupCowKeeps(s: System, g: Eager, managed: set<nat>, cur: Slot, child: Slot, va: nat)
    requires Related(s, g, managed) && s.envs[cur].status != Free && s.envs[child].status != Free && UserPageAddress(va)
    requires LeafAt(cur, va) in s.frames.links
    requires var f := s.frames.links[LeafAt(cur, va)].flags; !IsShare(f) && MayWrite(f)
    ensures var (s1, err) := PageMap(s, cur, 0, va, s.envs[child].id, va, PERM_COW);
      var (s2, err2) := PageMap(s1, cur, 0, va, 0, va, PERM_COW);
      && (err < 0 ==> s1 == s)
      && (err >= 0 ==>
            err2 >= 0 && s2.envs == s.envs && Related(s2, EagerDup(g, LeafAt(cur, va), LeafAt(child, va)), managed))
  {
    hide *;
    var src := LeafAt(cur, va);
    var dst := LeafAt(child, va);
    var l := Link(s.frames.links[src].page, WithP(PERM_COW.low));
    LeafShapes(cur, child, va);
    RelatedParts(s, g, managed);
    LeafFacts(s, g, managed, src);
    FlagFacts();
    DupCowMaps(s, managed, cur, child, va);
    var (s1, err) := PageMap(s, cur, 0, va, s.envs[child].id, va, PERM_COW);
    if err >= 0 {
      var (s2, err2) := PageMap(s1, cur, 0, va, 0, va, PERM_COW);
      DupCow(Leaves(s.frames.links), s.frames.data, s2.frames.data, g, src, dst, l);
      EagerDupOk(g, src, dst);
      RelatedIntro(s2, Leaves(s.frames.links)[dst := l][src := l], EagerDup(g, src, dst), managed);
    }
  }

  lemma RelatedIntro(s: System, leaves: Links, g: Eager, managed: set<nat>)
    requires SystemOk(s, managed) && leaves == Leaves(s.frames.links)
    requires Disciplined(leaves) && Agrees(leaves, s.frames.data, g) && EagerOk(g)
    ensures Related(s, g, managed)
  {
  }

  lemma DuppageKeeps(s: System, g: Eager, managed: set<nat>, cur: Slot, child: Slot, va: nat)
    requires Related(s, g, managed) && s.envs[cur].status != Free && s.envs[child].status != Free && UserPageAddress(va)
    ensures var (s', ok) := Duppage(s, cur, s.envs[child].id, va);
      && Related(s', if ok then EagerDup(g, LeafAt(cur, va), LeafAt(child, va)) else g, managed)
      && s'.envs == s.envs && (!ok ==> s' == s)
  {
    var src := LeafAt(cur, va);
    if src in s.frames.links {
      var f := s.frames.links[src].flags;
      hide Related, PageMap, IsShare, IsUser, IsWritable, MayWrite;
      if !(f.cow && f.share) {
        if IsShare(f) {
          DupSharedKeeps(s, g, managed, cur, child, va);
        } else if MayWrite(f) {
          DupCowKeeps(s, g, managed, cur, child, va);
        } else {
          DupReadOnlyKeeps(s, g, managed, cur, child, va);
        }
      }
    } else {
      assert src !in Leaves(s.frames.links);
    }
  }

  lemma ContentsTrans(leaves: Links, leaves': Links, a: map<nat, Page>, b: map<nat, Page>, c: map<nat, Page>, r: Ref)
    requires SameContents(leaves, a, b) && SameContents(leaves', b, c) && r in leaves
    requires forall x :: x in leaves' ==> x == r || x in leaves
    requires forall x :: x in leaves' && x in leaves ==> leaves'[x].page == leaves[x].page
    ensures SameContents(leaves', a, c)
  {
  }

  // ---------------------------------------------------------------- stores

  lemma PageOfFacts(cur: nat, va: nat)
    requires va < USTACKTOP
    ensures UserPageAddress(PageOf(va)) && LeafAt(cur, PageOf(va)) == LeafAt(cur, va) && LeafAt(cur, va).Leaf?
    ensures UserPageAddress(PFTEMP) && IsTemp(LeafAt(cur, PFTEMP)) && !Covered(LeafAt(cur, PFTEMP))
  {
    var n := va / 4096;
    assert PageOf(va) == n * 4096 && PageOf(va) / 4096 == n && PageOf(va) / 0x400000 == va / 0x400000 == n / 1024;
  }

  /** The four steps of pgfault on the page frames, from the page n it allocates. */
  lemma FaultCopies(v1: Frames, v2: Frames, v3: Frames, v4: Frames, managed: set<nat>, temp: Ref, leaf: Ref, n: nat)
    requires temp.Leaf? && leaf.Leaf? && temp != leaf && temp in v1.links && leaf in v1.links
    requires v1.links[temp].page == n
    requires WellFormed(v1, managed) && WellFormed(v4, managed) && v1.links[leaf].page != n
    requires v2 == CopyPage(v1, temp, leaf)
    requires Leaves(v3.links) == Leaves(v2.links)[leaf := Link(n, WithP(PERM_RW.low))]
    requires forall q :: q in v3.data ==> q in v2.data && v3.data[q] == v2.data[q]
    requires v4 == Drop(v3, temp)
    ensures Leaves(v4.links) == (Leaves(v1.links) - {temp})[leaf := Link(n, WithP(PERM_RW.low))]
    ensures n in v4.data && v1.links[leaf].page in v1.data && v4.data[n] == v1.data[v1.links[leaf].page]
    ensures forall q :: q in v4.data && q != n ==> q in v1.data && v4.data[q] == v1.data[q]
  {
    hide WellFormed, Drop;
    MappedIsData(v1, managed, temp);
    MappedIsData(v1, managed, leaf);
    DropLeaf(v3, temp);
    assert Leaves(v2.links) - {temp} == Leaves(v1.links) - {temp};
    assert Leaves(v4.links) == (Leaves(v1.links) - {temp})[leaf := Link(n, WithP(PERM_RW.low))];
    assert leaf in Leaves(v4.links);
    MappedIsData(v4, managed, leaf);
  }

  /** pgfault on a copy-on-write page: it panics for lack of memory and changes nothing, or the
      environment alone maps a writable copy there, and the scratch page is gone. */
  lemma PgFaultEffect(s: System, managed: set<nat>, cur: Slot, va: nat)
    requires SystemOk(s, managed) && s.envs[cur].status != Free && va < USTACKTOP
    requires LeafAt(cur, va) != LeafAt(cur, PFTEMP)
    requires LeafAt(cur, va) in s.frames.links && IsCow(s.frames.links[LeafAt(cur, va)].flags)
    ensures var (s', ok) := PgFault(s, cur, va);
      var leaf := LeafAt(cur, va);
      var temp := LeafAt(cur, PFTEMP);
      && (!ok ==> s' == s)
      && (ok ==>
            && SystemOk(s', managed) && s'.envs == s.envs && s.frames.free != []
            && (forall r :: r in s.frames.links ==> s.frames.links[r].page != s.frames.free[0])
            && Leaves(s'.frames.links) ==
               (Leaves(s.frames.links) - {temp})[leaf := Link(s.frames.free[0], WithP(PERM_RW.low))]
            && s.frames.links[leaf].page in s.frames.data && s.frames.free[0] in s'.frames.data
            && s'.frames.data[s.frames.free[0]] == s.frames.data[s.frames.links[leaf].page]
            && SameContents((Leaves(s.frames.links) - {temp}) - {leaf}, s.frames.data, s'.frames.data))
  {
    hide SystemOk, PageAlloc, PageMap, SyscallPerm, Pdx, Ptx, UserPageAddress, EnvOf, IsCow, IsUser, IsShare, CopyPage,
         SameContents;
    var leaf := LeafAt(cur, va);
    var temp := LeafAt(cur, PFTEMP);
    FlagFacts();
    PageOfFacts(cur, va);
    SelfNamed(s.envs, cur);
    AllocEffect(s, managed, cur, 0, PFTEMP, PERM_RW);
    var (s1, err1) := PageAlloc(s, cur, 0, PFTEMP, PERM_RW);
    if err1 >= 0 {
      FaultTail(s, s1, managed, cur, va);
    }
  }

  lemma FaultTail(s: System, s1: System, managed: set<nat>, cur: Slot, va: nat)
    requires SystemOk(s, managed) && SystemOk(s1, managed) && s1.envs == s.envs && s.envs[cur].status != Free
    requires va < USTACKTOP && LeafAt(cur, va) != LeafAt(cur, PFTEMP) && LeafAt(cur, va) in s.frames.links
    requires s.frames.free != [] && forall r :: r in s.frames.links ==> s.frames.links[r].page != s.frames.free[0]
    requires Leaves(s1.frames.links) ==
             Leaves(s.frames.links)[LeafAt(cur, PFTEMP) := Link(s.frames.free[0], WithP(PERM_RW.low))]
    requires SameContents(Leaves(s.frames.links) - {LeafAt(cur, PFTEMP)}, s.frames.data, s1.frames.data)
    ensures var (s', ok) := CopyAndMove(s1, cur, va);
      && ok && SystemOk(s', managed) && s'.envs == s.envs
      && Leaves(s'.frames.links) ==
         (Leaves(s.frames.links) - {LeafAt(cur, PFTEMP)})[LeafAt(cur, va) := Link(s.frames.free[0], WithP(PERM_RW.low))]
      && s.frames.links[LeafAt(cur, va)].page in s.frames.data && s.frames.free[0] in s'.frames.data
      && s'.frames.data[s.frames.free[0]] == s.frames.data[s.frames.links[LeafAt(cur, va)].page]
      && SameContents((Leaves(s.frames.links) - {LeafAt(cur, PFTEMP)}) - {LeafAt(cur, va)}, s.frames.data,
         s'.frames.data)
  {
    hide SystemOk, CopyAndMove, SyscallPerm, Pdx, Ptx, UserPageAddress, IsCow, IsUser, IsShare, IsWritable,
         SameContents, Leaves;
    var leaf := LeafAt(cur, va);
    var temp := LeafAt(cur, PFTEMP);
    var n := s.frames.free[0];
    var s' := CopyAndMove(s1, cur, va).0;
    FlagFacts();
    LeafIn(s.frames.links, leaf);
    LeafBack(s1.frames.links, leaf);
    LeafBack(s1.frames.links, temp);
    CopyAndMoveEffect(s1, managed, cur, va);
    var rest := Leaves(s.frames.links) - {temp};
    assert Leaves(s1.frames.links) - {temp} == rest;
    SameAt(rest, s.frames.data, s1.frames.data, leaf);
    FaultContents(s, s1, s', managed, temp, leaf, n);
  }

  lemma LeafIn(links: Links, r: Ref)
    requires r in links && r.Leaf?
    ensures r in Leaves(links) && Leaves(links)[r] == links[r]
  {
  }

  lemma CopyAndMoveEffect(s: System, managed: set<nat>, cur: Slot, va: nat)
    requires SystemOk(s, managed) && s.envs[cur].status != Free
    requires va < USTACKTOP && LeafAt(cur, va) != LeafAt(cur, PFTEMP)
    requires LeafAt(cur, va) in s.frames.links && LeafAt(cur, PFTEMP) in s.frames.links
    requires s.frames.links[LeafAt(cur, va)].page != s.frames.links[LeafAt(cur, PFTEMP)].page
    requires s.frames.links[LeafAt(cur, PFTEMP)].flags.w
    ensures var (s', ok) := CopyAndMove(s, cur, va);
      var n := s.frames.links[LeafAt(cur, PFTEMP)].page;
      && ok && SystemOk(s', managed) && s'.envs == s.envs
      && Leaves(s'.frames.links) ==
         (Leaves(s.frames.links) - {LeafAt(cur, PFTEMP)})[LeafAt(cur, va) := Link(n, WithP(PERM_RW.low))]
      && s.frames.links[LeafAt(cur, va)].page in s.frames.data && n in s'.frames.data
      && s'.frames.data[n] == s.frames.data[s.frames.links[LeafAt(cur, va)].page]
      && (forall q :: q in s'.frames.data && q != n ==> q in s.frames.data && s'.frames.data[q] == s.frames.data[q])
  {
    hide SystemOk, PageMap, SyscallPerm, Pdx, Ptx, UserPageAddress, EnvOf, IsCow, IsUser, IsShare, IsWritable, CopyPage,
         SameContents, Drop, Leaves;
    var leaf := LeafAt(cur, va);
    var temp := LeafAt(cur, PFTEMP);
    FlagFacts();
    PageOfFacts(cur, va);
    SelfNamed(s.envs, cur);
    var s2 := s.(frames := CopyPage(s.frames, temp, leaf));
    CopySystem(s, managed, temp, leaf);
    MapEffect(s2, managed, cur, PFTEMP, 0, PageOf(va), PERM_RW);
    var (s3, err3) := PageMap(s2, cur, 0, PFTEMP, 0, PageOf(va), PERM_RW);
    PageUnmapKeeps(s3, managed, cur, 0, PFTEMP);
    var (s', err4) := PageUnmap(s3, cur, 0, PFTEMP);
    SystemFrames(s, managed);
    SystemFrames(s', managed);
    FaultCopies(s.frames, s2.frames, s3.frames, s'.frames, managed, temp, leaf, s.frames.links[temp].page);
  }

  lemma SameAt(leaves: Links, data: map<nat, Page>, data': map<nat, Page>, r: Ref)
    requires SameContents(leaves, data, data') && r in leaves
    ensures leaves[r].page in data && leaves[r].page in data' && data'[leaves[r].page] == data[leaves[r].page]
  {
  }

  lemma SystemFrames(s: System, managed: set<nat>)
    requires SystemOk(s, managed)
    ensures WellFormed(s.frames, managed)
  {
  }

  lemma CopySystem(s: System, managed: set<nat>, dst: Ref, src: Ref)
    requires SystemOk(s, managed) && dst.Leaf? && src.Leaf? && dst in s.frames.links && src in s.frames.links
    ensures var s' := s.(frames := CopyPage(s.frames, dst, src));
      && SystemOk(s', managed)
      && dst in s'.frames.links && src in s'.frames.links
      && s'.frames.links[dst].page == s.frames.links[dst].page && s'.frames.links[src].page == s.frames.links[src].page
      && (s.frames.links[dst].flags.w ==> s'.frames.links[dst].flags.w)
  {
    CopyPageKeeps(s.frames, managed, dst, src);
    DirtyFacts(s.frames.links[dst].flags);
  }

  lemma FaultContents(s: System, s1: System, s': System, managed: set<nat>, temp: Ref, leaf: Ref, n: nat)
    requires SystemOk(s, managed) && SystemOk(s', managed) && leaf != temp
    requires forall r :: r in s.frames.links ==> s.frames.links[r].page != n
    requires Leaves(s'.frames.links) == (Leaves(s.frames.links) - {temp})[leaf := Link(n, WithP(PERM_RW.low))]
    requires SameContents(Leaves(s.frames.links) - {temp}, s.frames.data, s1.frames.data)
    requires forall q :: q in s'.frames.data && q != n ==> q in s1.frames.data && s'.frames.data[q] == s1.frames.data[q]
    ensures SameContents((Leaves(s.frames.links) - {temp}) - {leaf}, s.frames.data, s'.frames.data)
  {
    hide *;
    forall r | r in (Leaves(s.frames.links) - {temp}) - {leaf}
      ensures var p := (Leaves(s.frames.links) - {temp})[r].page; p != n && p in s'.frames.data {
      LeafBack(s.frames.links, r);
      LeafBack(s'.frames.links, r);
      SystemFrames(s', managed);
      MappedLeaf(s'.frames, managed, r);
    }
    ContentsChain((Leaves(s.frames.links) - {temp}) - {leaf}, Leaves(s.frames.links) - {temp}, s.frames.data,
      s1.frames.data, s'.frames.data, n);
  }

  lemma MappedLeaf(v: Frames, managed: set<nat>, r: Ref)
    requires WellFormed(v, managed) && r in v.links && r in Leaves(v.links)
    ensures v.links[r].page in v.data
  {
    MappedIsData(v, managed, r);
  }

  lemma ContentsChain(leaves: Links, more: Links, a: map<nat, Page>, b: map<nat, Page>, c: map<nat, Page>, n: nat)
    requires SameContents(more, a, b) && forall r :: r in leaves ==> r in more && more[r] == leaves[r]
    requires forall q :: q in c && q != n ==> q in b && c[q] == b[q]
    requires forall r :: r in leaves ==> leaves[r].page != n && leaves[r].page in c
    ensures SameContents(leaves, a, c)
  {
  }

  lemma StoreEffect(s: System, managed: set<nat>, cur: Slot, va: nat, w: Word)
    requires SystemOk(s, managed) && va < USTACKTOP && CanStore(s.frames, LeafAt(cur, va))
    ensures var s' := StoreAt(s, cur, va, w);
      var l := s.frames.links[LeafAt(cur, va)];
      && SystemOk(s', managed) && s'.envs == s.envs && l.page in s.frames.data
      && Leaves(s'.frames.links) == Leaves(s.frames.links)[LeafAt(cur, va) := Link(l.page, Touched(l.flags))]
      && s'.frames.data == s.frames.data[l.page := s.frames.data[l.page][WordAt(va) := w]]
  {
    hide WellFormed, EnvTableOk, Pdx, Ptx;
    UserStoreKeeps(s, managed, cur, va, w);
    MappedIsData(s.frames, managed, LeafAt(cur, va));
    hide SystemOk;
  }

  lemma WriteDirectKeeps(s: System, g: Eager, managed: set<nat>, cur: Slot, va: nat, w: Word)
    requires Related(s, g, managed) && va < USTACKTOP && Covered(LeafAt(cur, va)) && CanStore(s.frames, LeafAt(cur, va))
    ensures Related(StoreAt(s, cur, va, w), EagerWrite(g, LeafAt(cur, va), WordAt(va), w), managed)
    ensures LeafAt(cur, va) in g.view && g.view[LeafAt(cur, va)].writable && StoreAt(s, cur, va, w).envs == s.envs
  {
    var leaf := LeafAt(cur, va);
    var l := s.frames.links[leaf];
    LeafFacts(s, g, managed, leaf);
    DirtyFacts(l.flags);
    StoreEffect(s, managed, cur, va, w);
    InView(s, g, managed, leaf);
    EagerWriteOk(g, leaf, WordAt(va), w);
    hide SystemOk, Disciplined, Agrees, StoreAt, Leaves, IsShare, IsUser, IsWritable, IsCow, EagerWrite, EagerOk,
         Covered, Pdx, Ptx;
    WriteDirect(Leaves(s.frames.links), s.frames.data, g, leaf, Touched(l.flags), WordAt(va), w);
  }

  lemma EagerWriteOk(g: Eager, r: Ref, i: nat, w: Word)
    requires EagerOk(g) && i < NPTENTRIES
    ensures EagerOk(EagerWrite(g, r, i, w))
  {
  }

  /** What the copying machine has at a mapping. */
  lemma InView(s: System, g: Eager, managed: set<nat>, leaf: Ref)
    requires Related(s, g, managed) && Covered(leaf)
    ensures leaf in g.view <==> leaf in s.frames.links
    ensures leaf in g.view ==> (g.view[leaf].writable <==> MayWrite(s.frames.links[leaf].flags))
    ensures leaf in g.view ==> (g.view[leaf].Shared? ==> g.view[leaf].id in g.shared)
    ensures leaf in g.view ==> s.frames.links[leaf].page in s.frames.data
    ensures leaf in g.view ==> s.frames.data[s.frames.links[leaf].page] == Content(g, g.view[leaf])
  {
    hide SystemOk, Disciplined, IsShare, IsCow, IsWritable;
    if leaf in s.frames.links {
      LeafIn(s.frames.links, leaf);
      assert CellAgrees(Leaves(s.frames.links)[leaf], s.frames.data, g, g.view[leaf]);
    }
  }

  /** pgfault and the store that is then repeated, on mappings and contents. */
  lemma WriteCopyEffect(s: System, managed: set<nat>, cur: Slot, va: nat, w: Word)
    requires SystemOk(s, managed) && va < USTACKTOP && s.envs[cur].status != Free
    requires LeafAt(cur, va) != LeafAt(cur, PFTEMP)
    requires LeafAt(cur, va) in s.frames.links && IsCow(s.frames.links[LeafAt(cur, va)].flags) && PgFault(s, cur, va).1
    ensures var s' := StoreAt(PgFault(s, cur, va).0, cur, va, w);
      var p := s.frames.links[LeafAt(cur, va)].page;
      var rest := Leaves(s.frames.links) - {LeafAt(cur, PFTEMP)};
      && SystemOk(s', managed) && s'.envs == s.envs && s.frames.free != []
      && (forall r :: r in s.frames.links ==> s.frames.links[r].page != s.frames.free[0])
      && Leaves(s'.frames.links) == rest[LeafAt(cur, va) := Link(s.frames.free[0], Touched(WithP(PERM_RW.low)))]
      && p in s.frames.data && s.frames.free[0] in s'.frames.data
      && s'.frames.data[s.frames.free[0]] == s.frames.data[p][WordAt(va) := w]
      && SameContents(rest - {LeafAt(cur, va)}, s.frames.data, s'.frames.data)
  {
    hide SystemOk, PgFault, StoreAt, Leaves, SameContents, Pdx, Ptx, IsCow, Touched, WithP;
    var leaf := LeafAt(cur, va);
    PgFaultEffect(s, managed, cur, va);
    var s1 := PgFault(s, cur, va).0;
    LeafBack(s1.frames.links, leaf);
    WritableFacts(s1.frames, leaf);
    StoreEffect(s1, managed, cur, va, w);
    NotMapped(s.frames.links, s.frames.free[0]);
    SameAfterStore((Leaves(s.frames.links) - {LeafAt(cur, PFTEMP)}) - {leaf}, s.frames.data, s1.frames.data,
                   StoreAt(s1, cur, va, w).frames.data, s.frames.free[0]);
  }

  lemma WriteCopiedKeeps(s: System, g: Eager, managed: set<nat>, cur: Slot, va: nat, w: Word)
    requires Related(s, g, managed) && va < USTACKTOP && Covered(LeafAt(cur, va)) && s.envs[cur].status != Free
    requires LeafAt(cur, va) in s.frames.links && IsCow(s.frames.links[LeafAt(cur, va)].flags) && PgFault(s, cur, va).1
    ensures var s' := StoreAt(PgFault(s, cur, va).0, cur, va, w);
      s'.envs == s.envs && Related(s', EagerWrite(g, LeafAt(cur, va), WordAt(va), w), managed)
  {
    var i := WordAt(va);
    hide *;
    var leaf := LeafAt(cur, va);
    var temp := LeafAt(cur, PFTEMP);
    var s' := StoreAt(PgFault(s, cur, va).0, cur, va, w);
    RelatedParts(s, g, managed);
    PageOfFacts(cur, va);
    LeafFacts(s, g, managed, leaf);
    WriteCopyEffect(s, managed, cur, va, w);
    var l := Link(s.frames.free[0], Touched(WithP(PERM_RW.low)));
    NotMapped(s.frames.links, s.frames.free[0]);
    RwFacts();
    WriteCopied(Leaves(s.frames.links), s.frames.data, s'.frames.data, g, leaf, temp, l, i, w);
    EagerWriteOk(g, leaf, i, w);
    RelatedIntro(s', (Leaves(s.frames.links) - {temp})[leaf := l], EagerWrite(g, leaf, i, w), managed);
  }

  lemma RwFacts()
    ensures var f := Touched(WithP(PERM_RW.low)); IsUser(f) && !IsShare(f) && IsWritable(f)
  {
  }

  lemma RelatedParts(s: System, g: Eager, managed: set<nat>)
    requires Related(s, g, managed)
    ensures SystemOk(s, managed) && Disciplined(Leaves(s.frames.links)) && EagerOk(g)
    ensures Agrees(Leaves(s.frames.links), s.frames.data, g)
  {
  }

  /** The mapping that pgfault makes is writable. */
  lemma WritableFacts(v: Frames, leaf: Ref)
    requires leaf in v.links && v.links[leaf].flags == WithP(PERM_RW.low)
    ensures CanStore(v, leaf)
  {
  }

  lemma NotMapped(links: Links, n: nat)
    requires forall r :: r in links ==> links[r].page != n
    ensures forall r :: r in Leaves(links) ==> Leaves(links)[r].page != n
  {
  }

  lemma SameAfterStore(leaves: Links, a: map<nat, Page>, b: map<nat, Page>, c: map<nat, Page>, n: nat)
    requires SameContents(leaves, a, b) && forall r :: r in leaves ==> leaves[r].page != n
    requires forall q :: q in b && q != n ==> q in c && c[q] == b[q]
    ensures SameContents(leaves, a, c)
  {
  }

  /** What a store does to the mappings there are: it leaves them, except that one which needs the fault handler takes
      away whatever the environment had at PFTEMP. */
  lemma TempLost(s: System, managed: set<nat>, cur: Slot, va: nat, w: Word)
    requires SystemOk(s, managed) && s.envs[cur].status != Free && va < USTACKTOP
    requires LeafAt(cur, va) != LeafAt(cur, PFTEMP) && WriteAt(s, cur, va, w).1
    ensures var s' := WriteAt(s, cur, va, w).0;
      var before, after := Leaves(s.frames.links).Keys, Leaves(s'.frames.links).Keys;
      after == if CanStore(s.frames, LeafAt(cur, va)) then before else before - {LeafAt(cur, PFTEMP)}
  {
    hide SystemOk, StoreAt, Leaves, SameContents, CanStore, Pdx, Ptx, IsCow, Touched, WithP, CopyAndMove, PageAlloc;
    var leaf := LeafAt(cur, va);
    if CanStore(s.frames, leaf) {
      StoreEffect(s, managed, cur, va, w);
      StoreMapped(s.frames, leaf);
    } else {
      WriteCopyEffect(s, managed, cur, va, w);
      LeafIn(s.frames.links, leaf);
    }
  }

  lemma StoreMapped(v: Frames, r: Ref)
    requires CanStore(v, r) && r.Leaf?
    ensures r in Leaves(v.links)
  {
  }

  /** A store that the environment makes, with or without its fault handler, is the store of the
      machine that copies; it fails to happen only if that machine does not allow it either, or
      if there is no memory for the copy. */
  lemma WriteKeeps(s: System, g: Eager, managed: set<nat>, cur: Slot, va: nat, w: Word)
    requires Related(s, g, managed) && va < USTACKTOP && Covered(LeafAt(cur, va)) && s.envs[cur].status != Free
    ensures var (s', ok) := WriteAt(s, cur, va, w);
      var leaf := LeafAt(cur, va);
      && Related(s', if ok then EagerWrite(g, leaf, WordAt(va), w) else g, managed)
      && s'.envs == s.envs
      && (ok ==> leaf in g.view && g.view[leaf].writable)
      && (!ok ==> s' == s && (leaf !in g.view || !g.view[leaf].writable || PageAlloc(s, cur, 0, PFTEMP, PERM_RW).1 < 0))
  {
    hide SystemOk, Related, PgFault, PageAlloc, StoreAt, IsCow, Covered, Pdx, Ptx, EagerWrite, Leaves, SameContents,
         UserPageAddress;
    var leaf := LeafAt(cur, va);
    InView(s, g, managed, leaf);
    RelatedParts(s, g, managed);
    if CanStore(s.frames, leaf) {
      WriteDirectKeeps(s, g, managed, cur, va, w);
    } else if leaf in s.frames.links && IsCow(s.frames.links[leaf].flags) {
      PageOfFacts(cur, va);
      PgFaultEffect(s, managed, cur, va);
      if PgFault(s, cur, va).1 {
        WriteCopiedKeeps(s, g, managed, cur, va, w);
      } else {
        FaultPanics(s, managed, cur, va);
      }
    } else {
      FaultRefused(s, cur, va);
      if leaf in s.frames.links {
        LeafFacts(s, g, managed, leaf);
        DirtyFacts(s.frames.links[leaf].flags);
      }
    }
  }

  lemma FaultRefused(s: System, cur: Slot, va: nat)
    requires LeafAt(cur, va) !in s.frames.links || !IsCow(s.frames.links[LeafAt(cur, va)].flags)
    ensures PgFault(s, cur, va) == (s, false)
  {
  }

  lemma FaultPanics(s: System, managed: set<nat>, cur: Slot, va: nat)
    requires SystemOk(s, managed) && s.envs[cur].status != Free && va < USTACKTOP
    requires LeafAt(cur, va) != LeafAt(cur, PFTEMP)
    requires LeafAt(cur, va) in s.frames.links && IsCow(s.frames.links[LeafAt(cur, va)].flags) && !PgFault(s, cur, va).1
    ensures PageAlloc(s, cur, 0, PFTEMP, PERM_RW).1 < 0
  {
    hide SystemOk, PageAlloc, SyscallPerm, Pdx, Ptx, UserPageAddress, EnvOf, IsCow, CopyAndMove, SameContents, Leaves;
    SelfNamed(s.envs, cur);
    AllocEffect(s, managed, cur, 0, PFTEMP, PERM_RW);
    if PageAlloc(s, cur, 0, PFTEMP, PERM_RW).1 >= 0 {
      FaultTail(s, PageAlloc(s, cur, 0, PFTEMP, PERM_RW).0, managed, cur, va);
    }
  }

  // ---------------------------------------------------------------- the other system calls

  lemma PageAllocRelated(s: System, g: Eager, managed: set<nat>, cur: Slot, target: Slot, va: nat, perm: Perm)
    requires Related(s, g, managed) && s.envs[cur].status != Free && s.envs[target].status != Free
    ensures var (s', err) := PageAlloc(s, cur, s.envs[target].id, va, perm);
      var leaf := LeafAt(target, va);
      var f := WithP(perm.low);
      && s'.envs == s.envs && (err < 0 ==> s' == s)
      && (err >= 0 ==> Related(s', if Covered(leaf) then EagerAlloc(g, leaf, IsShare(f), MayWrite(f)) else g, managed))
  {
    hide *;
    var leaf := LeafAt(target, va);
    RelatedParts(s, g, managed);
    ChildNamed(s, managed, cur, target);
    LeafShapes(target, target, va);
    AllocEffect(s, managed, cur, s.envs[target].id, va, perm);
    var (s', err) := PageAlloc(s, cur, s.envs[target].id, va, perm);
    if err >= 0 {
      var l := Link(s.frames.free[0], WithP(perm.low));
      NotMapped(s.frames.links, s.frames.free[0]);
      SyscallUser(perm);
      AllocCell(Leaves(s.frames.links), s.frames.data, s'.frames.data, g, leaf, l);
      EagerAllocOk(g, leaf, IsShare(l.flags), MayWrite(l.flags));
      RelatedIntro(s', Leaves(s.frames.links)[leaf := l],
                   if Covered(leaf) then EagerAlloc(g, leaf, IsShare(l.flags), MayWrite(l.flags)) else g, managed);
    }
  }

  lemma SyscallUser(perm: Perm)
    requires SyscallPerm(perm)
    ensures IsUser(WithP(perm.low))
  {
  }

  lemma EagerAllocOk(g: Eager, r: Ref, share: bool, writable: bool)
    requires EagerOk(g)
    ensures EagerOk(EagerAlloc(g, r, share, writable))
  {
  }

  lemma PageUnmapRelated(s: System, g: Eager, managed: set<nat>, cur: Slot, target: Slot, va: nat)
    requires Related(s, g, managed) && s.envs[cur].status != Free && s.envs[target].status != Free
    ensures var (s', err) := PageUnmap(s, cur, s.envs[target].id, va);
      && s'.envs == s.envs && (err < 0 ==> s' == s)
      && (err >= 0 ==> Related(s', EagerUnmap(g, {LeafAt(target, va)}), managed))
      && (err >= 0 ==> Leaves(s'.frames.links) == Leaves(s.frames.links) - {LeafAt(target, va)})
  {
    hide *;
    RelatedParts(s, g, managed);
    UnmapEffect(s, managed, cur, target, va);
    var leaf := LeafAt(target, va);
    var (s', err) := PageUnmap(s, cur, s.envs[target].id, va);
    if err >= 0 {
      UnmapCells(Leaves(s.frames.links), s.frames.data, s'.frames.data, g, {leaf});
      EagerUnmapOk(g, {leaf});
      RelatedIntro(s', Leaves(s.frames.links) - {leaf}, EagerUnmap(g, {leaf}), managed);
    }
  }

  lemma UnmapEffect(s: System, managed: set<nat>, cur: Slot, target: Slot, va: nat)
    requires SystemOk(s, managed) && s.envs[cur].status != Free && s.envs[target].status != Free
    ensures var (s', err) := PageUnmap(s, cur, s.envs[target].id, va);
      && SystemOk(s', managed) && s'.envs == s.envs && (err < 0 ==> s' == s)
      && (err >= 0 ==>
            && Leaves(s'.frames.links) == Leaves(s.frames.links) - {LeafAt(target, va)}
            && SameContents(Leaves(s.frames.links) - {LeafAt(target, va)}, s.frames.data, s'.frames.data))
  {
    hide SystemOk, EnvOf, UserPageAddress, LeafAt, Leaves, Drop, SameContents;
    PageUnmapKeeps(s, managed, cur, s.envs[target].id, va);
    ChildNamed(s, managed, cur, target);
    var leaf := LeafAt(target, va);
    var (s', err) := PageUnmap(s, cur, s.envs[target].id, va);
    if err >= 0 {
      LeafShapes(target, target, va);
      DropLeaf(s.frames, leaf);
      SystemFrames(s', managed);
      ContentsKept(s.frames, s'.frames, managed);
    }
  }

  lemma EagerUnmapOk(g: Eager, gone: set<Ref>)
    requires EagerOk(g)
    ensures EagerOk(EagerUnmap(g, gone))
  {
  }

  ghost function Mappings(leaves: Links, e: nat): set<Ref> {
    set r | r in leaves && r.Leaf? && r.env == e
  }

  lemma EnvFreeRelated(s: System, g: Eager, managed: set<nat>, e: Slot)
    requires Related(s, g, managed) && s.envs[e].status != Free
    ensures Related(EnvFree(s, e), EagerUnmap(g, Mappings(Leaves(s.frames.links), e)), managed)
  {
    RelatedParts(s, g, managed);
    EnvFreeKeeps(s, managed, e);
    var s' := EnvFree(s, e);
    var leaves := Leaves(s.frames.links);
    var gone := Mappings(leaves, e);
    DropSpaceView(s, managed, e);
    hide *;
    SystemFrames(s', managed);
    ContentsKept(s.frames, s'.frames, managed);
    UnmapCells(leaves, s.frames.data, s'.frames.data, g, gone);
    EagerUnmapOk(g, gone);
    RelatedIntro(s', leaves - gone, EagerUnmap(g, gone), managed);
  }

  lemma DropSpaceView(s: System, managed: set<nat>, e: Slot)
    requires SystemOk(s, managed) && s.envs[e].status != Free
    ensures Leaves(EnvFree(s, e).frames.links) == Leaves(s.frames.links) - Mappings(Leaves(s.frames.links), e)
    ensures forall q :: q in EnvFree(s, e).frames.data ==>
            q in s.frames.data && EnvFree(s, e).frames.data[q] == s.frames.data[q]
  {
    hide WellFormed, DropSpace;
    DropSpaceKeeps(s.frames, managed, e);
  }

  lemma ExoforkRelated(s: System, g: Eager, managed: set<nat>, cur: Slot)
    requires Related(s, g, managed) && s.envs[cur].status != Free
    ensures Related(Exofork(s, cur).0, g, managed)
  {
    hide *;
    RelatedParts(s, g, managed);
    ExoforkKeeps(s, managed, cur);
    ExoforkView(s, managed, cur);
    var s' := Exofork(s, cur).0;
    SystemFrames(s', managed);
    ContentsKept(s.frames, s'.frames, managed);
    SameView(Leaves(s.frames.links), s.frames.data, s'.frames.data, g);
    RelatedIntro(s', Leaves(s.frames.links), g, managed);
  }

  lemma SameView(leaves: Links, data: map<nat, Page>, data': map<nat, Page>, g: Eager)
    requires Agrees(leaves, data, g) && SameContents(leaves, data, data')
    ensures Agrees(leaves, data', g)
  {
    hide SharesAgree, IsShare, MayWrite;
    forall r | r in g.view ensures CellAgrees(leaves[r], data', g, g.view[r]) {
      assert CellAgrees(leaves[r], data, g, g.view[r]);
    }
  }

  lemma ExoforkView(s: System, managed: set<nat>, cur: Slot)
    requires SystemOk(s, managed)
    ensures Leaves(Exofork(s, cur).0.frames.links) == Leaves(s.frames.links)
    ensures forall q :: q in Exofork(s, cur).0.frames.data ==>
            q in s.frames.data && Exofork(s, cur).0.frames.data[q] == s.frames.data[q]
  {
    hide WellFormed, EnvTableOk, NextId;
  }
}
