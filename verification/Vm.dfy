/** What the physical page allocator and the page tables are for, without reference counts:
    a finite map from the places that can refer to a page (a page directory root, a directory
    entry, a page-table entry, a pinned device buffer) to the page referred to.  A page is
    returned to the free list exactly when the last place that refers to it is gone.

    The kernel keeps a count per page and two levels of tables instead; module Kernel refines this. */
module Vm {
  import opened Mmu

  /** A place that refers to a physical page.
      InTransit is the reference page_insert takes before it drops the old mapping. */
  datatype Ref =
    | Root(env: nat)
    | Table(env: nat, d: nat)
    | Leaf(env: nat, d: nat, t: nat)
    | Pin(k: nat)
    | InTransit

  datatype Link = Link(page: nat, flags: Flags)

  type Links = map<Ref, Link>

  /** Page-frame state: who refers to what, the free list, the pages taken off the free list
      that nothing refers to yet, and the contents of the pages that hold data. */
  datatype Frames = Frames(links: Links, free: seq<nat>, loose: set<nat>, data: map<nat, Page>)

  function Holders(links: Links, p: nat): set<Ref> {
    set r | r in links && links[r].page == p
  }

  predicate NoDup<T(==)>(s: seq<T>) {
    forall i, j :: 0 <= i < j < |s| ==> s[i] != s[j]
  }

  predicate IsStructure(r: Ref) {
    r.Root? || r.Table?
  }

  ghost predicate Structural(links: Links, p: nat) {
    exists r :: r in links && IsStructure(r) && links[r].page == p
  }

  /** Every mapping hangs from a page table, every page table from a page directory. */
  ghost predicate Hierarchical(links: Links) {
    && (forall e: nat, d: nat :: Table(e, d) in links ==> d < USER_TABLES && Root(e) in links)
    && (forall e: nat, d: nat, t: nat :: Leaf(e, d, t) in links ==> t < NPTENTRIES && Table(e, d) in links)
  }

  /** A page directory or page table is referred to from one place only. */
  ghost predicate Exclusive(links: Links) {
    forall r, r' :: r in links && r' in links && IsStructure(r) && links[r].page == links[r'].page ==> r == r'
  }

  ghost predicate FreeExact(v: Frames, managed: set<nat>) {
    && NoDup(v.free)
    && (forall p :: p in v.free <==> p in managed && p !in v.loose && Holders(v.links, p) == {})
  }

  ghost predicate Managed(links: Links, managed: set<nat>) {
    forall r :: r in links ==> links[r].page in managed
  }

  ghost predicate LooseOk(v: Frames, managed: set<nat>) {
    forall p :: p in v.loose ==> p in managed && Holders(v.links, p) == {}
  }

  ghost predicate DataExact(v: Frames, managed: set<nat>) {
    forall p :: p in v.data <==> p in managed && p !in v.free && !Structural(v.links, p)
  }

  ghost predicate WellFormed(v: Frames, managed: set<nat>) {
    && Hierarchical(v.links)
    && Exclusive(v.links)
    && Managed(v.links, managed)
    && LooseOk(v, managed)
    && FreeExact(v, managed)
    && DataExact(v, managed)
  }

  // ---------------------------------------------------------------- holders under map updates

  lemma HoldersAdd(links: Links, r: Ref, l: Link, p: nat)
    ensures Holders(links[r := l], p) ==
            if l.page == p then Holders(links, p) + {r} else Holders(links, p) - {r}
  {
  }

  lemma HoldersDrop(links: Links, r: Ref, p: nat)
    ensures Holders(links - {r}, p) == Holders(links, p) - {r}
  {
  }

  // ---------------------------------------------------------------- the operations

  /** page_alloc(ALLOC_ZERO) when the free list is not empty. */
  function Alloc(v: Frames): Frames
    requires v.free != []
  {
    v.(free := v.free[1..], loose := v.loose + {v.free[0]}, data := v.data[v.free[0] := ZeroPage()])
  }

  /** page_free of a page that nothing refers to. */
  function Release(v: Frames, p: nat): Frames {
    v.(free := [p] + v.free, loose := v.loose - {p}, data := v.data - {p})
  }

  /** A loose page becomes the page directory of env e. */
  function MakeRoot(v: Frames, e: nat, p: nat): Frames {
    v.(links := v.links[Root(e) := Link(p, NO_FLAGS)], loose := v.loose - {p}, data := v.data - {p})
  }

  /** Some place starts to refer to p: ++pp_ref. */
  function Hold(v: Frames, r: Ref, p: nat): Frames {
    v.(links := v.links[r := Link(p, NO_FLAGS)], loose := v.loose - {p})
  }

  /** A reference goes away, and with it a page that nothing else refers to. */
  function Drop(v: Frames, r: Ref): Frames {
    if r !in v.links then v else
    var p := v.links[r].page;
    var links := v.links - {r};
    if Holders(links, p) == {} then Frames(links, [p] + v.free, v.loose, v.data - {p})
    else v.(links := links)
  }

  lemma DropAbsent(v: Frames, r: Ref)
    requires r !in v.links
    ensures Drop(v, r) == v
  {
  }

  /** pgdir_walk with create set, when the page table exists or a page is left for it. */
  predicate CanWalk(v: Frames, e: nat, d: nat) {
    Table(e, d) in v.links || v.free != []
  }

  function Walk(v: Frames, e: nat, d: nat): Frames
    requires CanWalk(v, e, d)
  {
    if Table(e, d) in v.links then v
    else v.(links := v.links[Table(e, d) := Link(v.free[0], TABLE_FLAGS)], free := v.free[1..])
  }

  /** One entry of the address-space map changes, and the page it mapped before is
      reclaimed if this was the last reference to it. */
  function SetEntry(v: Frames, r: Ref, l: Link): Frames {
    var links := v.links[r := l];
    if r in v.links && Holders(links, v.links[r].page) == {} then
      Frames(links, [v.links[r].page] + v.free, v.loose - {l.page}, v.data - {v.links[r].page})
    else v.(links := links, loose := v.loose - {l.page})
  }

  /** page_insert: nothing changes when no page is left for a missing page table. */
  function Insert(v: Frames, e: nat, d: nat, t: nat, p: nat, perm: Flags): Frames {
    if CanWalk(v, e, d) then SetEntry(Walk(v, e, d), Leaf(e, d, t), Link(p, WithP(perm))) else v
  }

  lemma InsertBlocked(v: Frames, e: nat, d: nat, t: nat, p: nat, perm: Flags)
    ensures !CanWalk(v, e, d) ==> Insert(v, e, d, t, p, perm) == v
  {
  }

  // ---------------------------------------------------------------- what every operation keeps

  lemma AllocKeeps(v: Frames, managed: set<nat>)
    requires WellFormed(v, managed) && v.free != []
    ensures WellFormed(Alloc(v), managed)
    ensures v.free[0] in managed && v.free[0] !in v.data && v.free[0] !in v.loose
    ensures Holders(v.links, v.free[0]) == {}
  {
    FreeTail(v.free);
    NotStructural(v.links, v.free[0]);
  }

  lemma FreeTail(free: seq<nat>)
    requires NoDup(free) && free != []
    ensures NoDup(free[1..]) && free[0] !in free[1..]
    ensures forall p :: p in free[1..] <==> p in free && p != free[0]
  {
    assert free == [free[0]] + free[1..];
  }

  lemma ReleaseKeeps(v: Frames, managed: set<nat>, p: nat)
    requires WellFormed(v, managed) && p in v.loose
    ensures WellFormed(Release(v, p), managed)
  {
    NotStructural(v.links, p);
  }

  lemma NotStructural(links: Links, p: nat)
    requires Holders(links, p) == {}
    ensures !Structural(links, p)
  {
    assert forall r :: r in links ==> (r in Holders(links, p) <==> links[r].page == p);
  }

  /** Only page directories and page tables make a page structural. */
  lemma StructuralUnchanged(links: Links, links': Links, q: nat)
    requires forall r :: IsStructure(r) && r in links && links[r].page == q ==> r in links' && links'[r].page == q
    requires forall r :: IsStructure(r) && r in links' && links'[r].page == q ==> r in links && links[r].page == q
    ensures Structural(links', q) <==> Structural(links, q)
  {
    if Structural(links, q) {
      var r :| r in links && IsStructure(r) && links[r].page == q;
      assert r in links' && links'[r].page == q;
    }
  }

  lemma MakeRootKeeps(v: Frames, managed: set<nat>, e: nat, p: nat)
    requires WellFormed(v, managed) && p in v.loose && Root(e) !in v.links
    ensures WellFormed(MakeRoot(v, e, p), managed)
  {
    var w := MakeRoot(v, e, p);
    NewStructure(v, managed, Root(e), Link(p, NO_FLAGS), p);
    assert Hierarchical(w.links);
    hide Hierarchical, Exclusive, Managed;
    RootFree(v, w, managed, p);
    RootData(v, w, managed, e, p);
    hide *;
    WellFormedIntro(w, managed);
  }

  /** A page that was loose gets its first reference. */
  lemma RootFree(v: Frames, w: Frames, managed: set<nat>, p: nat)
    requires FreeExact(v, managed) && LooseOk(v, managed) && p in v.loose
    requires w.loose == v.loose - {p} && w.free == v.free
    requires Holders(w.links, p) != {} && forall q :: q != p ==> Holders(w.links, q) == Holders(v.links, q)
    ensures FreeExact(w, managed) && LooseOk(w, managed)
  {
    hide Holders;
  }

  /** It held data and is a directory now. */
  lemma RootData(v: Frames, w: Frames, managed: set<nat>, e: nat, p: nat)
    requires DataExact(v, managed) && w.data == v.data - {p} && w.free == v.free && Root(e) !in v.links
    requires w.links == v.links[Root(e) := Link(p, NO_FLAGS)]
    ensures DataExact(w, managed)
  {
    forall q ensures Structural(w.links, q) <==> Structural(v.links, q) || q == p {
      if Structural(v.links, q) {
        var x :| x in v.links && IsStructure(x) && v.links[x].page == q;
        assert x in w.links && w.links[x].page == q;
      }
      assert Root(e) in w.links && w.links[Root(e)].page == p;
    }
    hide Structural;
  }

  lemma HoldKeeps(v: Frames, managed: set<nat>, r: Ref, p: nat)
    requires WellFormed(v, managed) && r !in v.links && (r.Pin? || r.InTransit?)
    requires p in managed && p !in v.free && !Structural(v.links, p)
    ensures WellFormed(Hold(v, r, p), managed)
    ensures forall q :: Holders(Hold(v, r, p).links, q) == if q == p then Holders(v.links, q) + {r}
            else Holders(v.links, q)
  {
    var w := Hold(v, r, p);
    forall q ensures Holders(w.links, q) == if q == p then Holders(v.links, q) + {r} else Holders(v.links, q) {
      HoldersAdd(v.links, r, Link(p, NO_FLAGS), q);
    }
    forall q ensures Structural(w.links, q) <==> Structural(v.links, q) {
      StructuralUnchanged(v.links, w.links, q);
    }
  }

  /** r may be dropped: nothing hangs from it. */
  ghost predicate Bare(links: Links, r: Ref) {
    && (r.Root? ==> forall d :: Table(r.env, d) !in links)
    && (r.Table? ==> forall t :: Leaf(r.env, r.d, t) !in links)
  }

  lemma DropKeeps(v: Frames, managed: set<nat>, r: Ref)
    requires WellFormed(v, managed) && r in v.links && Bare(v.links, r)
    ensures WellFormed(Drop(v, r), managed)
    ensures forall q :: Holders(Drop(v, r).links, q) == Holders(v.links, q) - {r}
  {
    var w := Drop(v, r);
    forall q ensures Holders(w.links, q) == Holders(v.links, q) - {r} {
      HoldersDrop(v.links, r, q);
    }
    DropFree(v, managed, r);
    DropData(v, managed, r);
    hide FreeExact, DataExact, Structural;
    assert LooseOk(w, managed);
    DropLinks(v.links, managed, r);
    assert w.links == v.links - {r};
    hide *;
    WellFormedIntro(w, managed);
  }

  lemma DropLinks(links: Links, managed: set<nat>, r: Ref)
    requires Hierarchical(links) && Exclusive(links) && Managed(links, managed) && Bare(links, r)
    ensures Hierarchical(links - {r}) && Exclusive(links - {r}) && Managed(links - {r}, managed)
  {
  }

  lemma DropFree(v: Frames, managed: set<nat>, r: Ref)
    requires r in v.links && FreeExact(v, managed) && Managed(v.links, managed) && LooseOk(v, managed)
    ensures FreeExact(Drop(v, r), managed)
  {
    var p := v.links[r].page;
    assert r in Holders(v.links, p);
    forall q ensures Holders(v.links - {r}, q) == Holders(v.links, q) - {r} {
      HoldersDrop(v.links, r, q);
    }
  }

  lemma DropData(v: Frames, managed: set<nat>, r: Ref)
    requires r in v.links && DataExact(v, managed) && Exclusive(v.links)
    ensures DataExact(Drop(v, r), managed)
  {
    var w := Drop(v, r);
    var p := v.links[r].page;
    forall q | q != p ensures Structural(w.links, q) <==> Structural(v.links, q) {
      StructuralUnchanged(v.links, w.links, q);
    }
    if Holders(w.links, p) == {} {
      NotStructural(w.links, p);
    } else {
      var s :| s in Holders(w.links, p);
      assert v.links[s].page == p && s != r;
      StructuralUnchanged(v.links, w.links, p);
    }
  }

  lemma WalkKeeps(v: Frames, managed: set<nat>, e: nat, d: nat)
    requires WellFormed(v, managed) && CanWalk(v, e, d) && Root(e) in v.links && d < USER_TABLES
    ensures var w := Walk(v, e, d);
      && WellFormed(w, managed)
      && Table(e, d) in w.links
      && w.loose == v.loose && w.data == v.data
      && (forall r :: r in v.links ==> r in w.links && w.links[r] == v.links[r])
      && (forall r :: r in w.links ==> r in v.links || r == Table(e, d))
      && (forall q :: q !in v.free ==> Holders(w.links, q) == Holders(v.links, q))
  {
    if Table(e, d) !in v.links {
      var w := Walk(v, e, d);
      var p := v.free[0];
      FreeTail(v.free);
      NewStructure(v, managed, Table(e, d), Link(p, TABLE_FLAGS), p);
      WalkHierarchy(v, w, e, d);
      WalkFree(v, w, managed, p);
      WalkData(v, w, managed, Table(e, d), p);
      hide *;
      WellFormedIntro(w, managed);
    }
  }

  lemma WalkHierarchy(v: Frames, w: Frames, e: nat, d: nat)
    requires Hierarchical(v.links) && Root(e) in v.links && d < USER_TABLES
    requires w.links.Keys == v.links.Keys + {Table(e, d)}
    ensures Hierarchical(w.links)
  {
  }

  /** The first free page gets its first reference. */
  lemma WalkFree(v: Frames, w: Frames, managed: set<nat>, p: nat)
    requires FreeExact(v, managed) && LooseOk(v, managed) && w.loose == v.loose && NoDup(w.free) && p !in w.free
    requires forall q :: q in v.free <==> q == p || q in w.free
    requires Holders(w.links, p) != {} && forall q :: q != p ==> Holders(w.links, q) == Holders(v.links, q)
    ensures FreeExact(w, managed) && LooseOk(w, managed)
  {
    hide Holders;
    assert p in v.free;
  }

  /** It becomes a table, so it holds no data before or after. */
  lemma WalkData(v: Frames, w: Frames, managed: set<nat>, r: Ref, p: nat)
    requires DataExact(v, managed) && w.data == v.data && p in v.free && IsStructure(r) && r !in v.links
    requires r in w.links && w.links[r].page == p && w.links == v.links[r := w.links[r]]
    requires forall q :: q in v.free <==> q == p || q in w.free
    ensures DataExact(w, managed)
  {
    forall q ensures Structural(w.links, q) <==> Structural(v.links, q) || q == p {
      if Structural(v.links, q) {
        var x :| x in v.links && IsStructure(x) && v.links[x].page == q;
        assert x in w.links && w.links[x].page == q;
      }
    }
    hide Structural;
  }

  /** A directory or table on a page that nothing refers to. */
  lemma NewStructure(v: Frames, managed: set<nat>, r: Ref, l: Link, p: nat)
    requires Exclusive(v.links) && Managed(v.links, managed) && r !in v.links && IsStructure(r) && l.page == p
    requires p in managed
    requires Holders(v.links, p) == {}
    ensures Exclusive(v.links[r := l]) && Managed(v.links[r := l], managed)
    ensures forall q :: Holders(v.links[r := l], q) == if q == p then {r} else Holders(v.links, q)
    ensures forall q :: Structural(v.links[r := l], q) <==> q == p || Structural(v.links, q)
  {
    var links := v.links[r := l];
    forall q ensures Holders(links, q) == if q == p then {r} else Holders(v.links, q) {
      HoldersAdd(v.links, r, l, q);
      assert r !in Holders(v.links, q);
    }
    forall x | x in v.links ensures v.links[x].page != p {
      assert v.links[x].page == p ==> x in Holders(v.links, p);
    }
    assert links[r].page == p;
    forall q ensures Structural(links, q) <==> q == p || Structural(v.links, q) {
      if x :| x in v.links && IsStructure(x) && v.links[x].page == q {
        assert x in links && links[x].page == q;
      }
    }
  }

  lemma SetEntryKeeps(v: Frames, managed: set<nat>, r: Ref, l: Link)
    requires WellFormed(v, managed) && r.Leaf? && r.t < NPTENTRIES && Table(r.env, r.d) in v.links
    requires l.page in managed && l.page !in v.free && !Structural(v.links, l.page)
    ensures WellFormed(SetEntry(v, r, l), managed)
  {
    var w := SetEntry(v, r, l);
    SetEntryLinks(v, managed, r, l);
    SetEntryFree(v, managed, r, l);
    SetEntryData(v, managed, r, l);
    SetEntryLoose(v, managed, r, l);
    hide *;
    WellFormedIntro(w, managed);
  }

  lemma SetEntryLoose(v: Frames, managed: set<nat>, r: Ref, l: Link)
    requires Managed(v.links, managed) && LooseOk(v, managed) && l.page in managed
    requires forall q :: Holders(v.links[r := l], q) ==
                         if q == l.page then Holders(v.links, q) + {r} else Holders(v.links, q) - {r}
    ensures Managed(SetEntry(v, r, l).links, managed) && LooseOk(SetEntry(v, r, l), managed)
  {
    hide Holders;
  }

  lemma WellFormedIntro(v: Frames, managed: set<nat>)
    requires Hierarchical(v.links) && Exclusive(v.links) && Managed(v.links, managed)
    requires LooseOk(v, managed) && FreeExact(v, managed) && DataExact(v, managed)
    ensures WellFormed(v, managed)
  {
  }

  lemma SetEntryLinks(v: Frames, managed: set<nat>, r: Ref, l: Link)
    requires WellFormed(v, managed) && r.Leaf? && r.t < NPTENTRIES && Table(r.env, r.d) in v.links
    requires l.page in managed && !Structural(v.links, l.page)
    ensures var w := v.links[r := l];
      && SetEntry(v, r, l).links == w
      && Hierarchical(w) && Exclusive(w)
      && (forall q :: Holders(w, q) == if q == l.page then Holders(v.links, q) + {r} else Holders(v.links, q) - {r})
  {
    var w := v.links[r := l];
    forall q ensures Holders(w, q) == if q == l.page then Holders(v.links, q) + {r} else Holders(v.links, q) - {r} {
      HoldersAdd(v.links, r, l, q);
    }
    forall x, y | x in w && y in w && IsStructure(x) && w[x].page == w[y].page ensures x == y {
      assert x in v.links && v.links[x].page == w[x].page;
      assert y == r ==> Structural(v.links, l.page);
    }
  }

  lemma SetEntryFree(v: Frames, managed: set<nat>, r: Ref, l: Link)
    requires FreeExact(v, managed) && Managed(v.links, managed) && LooseOk(v, managed) && r.Leaf?
    requires l.page in managed && l.page !in v.free
    ensures FreeExact(SetEntry(v, r, l), managed)
  {
    forall q ensures Holders(v.links[r := l], q) == if q == l.page then Holders(v.links, q) + {r}
           else Holders(v.links, q) - {r} {
      HoldersAdd(v.links, r, l, q);
    }
    if r in v.links {
      assert r in Holders(v.links, v.links[r].page);
    }
  }

  lemma SetEntryData(v: Frames, managed: set<nat>, r: Ref, l: Link)
    requires DataExact(v, managed) && Managed(v.links, managed) && r.Leaf?
    ensures DataExact(SetEntry(v, r, l), managed)
  {
    var w := SetEntry(v, r, l);
    forall q ensures Structural(w.links, q) <==> Structural(v.links, q) {
      StructuralUnchanged(v.links, w.links, q);
    }
    if r in v.links && Holders(w.links, v.links[r].page) == {} {
      NotStructural(w.links, v.links[r].page);
    }
  }

  lemma InsertKeeps(v: Frames, managed: set<nat>, e: nat, d: nat, t: nat, p: nat, perm: Flags)
    requires WellFormed(v, managed) && Root(e) in v.links && d < USER_TABLES && t < NPTENTRIES
    requires p in managed && p !in v.free && !Structural(v.links, p)
    ensures WellFormed(Insert(v, e, d, t, p, perm), managed)
  {
    if CanWalk(v, e, d) {
      WalkKeeps(v, managed, e, d);
      SetEntryKeeps(Walk(v, e, d), managed, Leaf(e, d, t), Link(p, WithP(perm)));
    }
  }

  // ---------------------------------------------------------------- tearing an address space down

  /** The inner loop of env_free, up to entry n of page table d. */
  function DropLeaves(v: Frames, e: nat, d: nat, n: nat): Frames {
    if n == 0 then v else Drop(DropLeaves(v, e, d, n - 1), Leaf(e, d, n - 1))
  }

  /** The outer loop of env_free, up to directory entry n. */
  function DropTables(v: Frames, e: nat, n: nat): Frames {
    if n == 0 then v else
    var w := DropTables(v, e, n - 1);
    if Table(e, n - 1) in w.links then DropTable(w, e, n - 1) else w
  }

  /** One turn of the outer loop: all entries of page table d, then the table itself. */
  function DropTable(v: Frames, e: nat, d: nat): Frames {
    Drop(DropLeaves(v, e, d, NPTENTRIES), Table(e, d))
  }

  function DropSpace(v: Frames, e: nat): Frames {
    Drop(DropTables(v, e, USER_TABLES), Root(e))
  }

  ghost function LeavesBelow(e: nat, d: nat, n: nat): set<Ref> {
    set t: nat | t < n :: Leaf(e, d, t)
  }

  predicate TableBelow(r: Ref, e: nat, n: nat) {
    (r.Table? || r.Leaf?) && r.env == e && r.d < n
  }

  predicate BelongsTo(r: Ref, e: nat) {
    (r.Root? || r.Table? || r.Leaf?) && r.env == e
  }

  /** w is v without the references in gone: the pages reclaimed lie on top of the old free
      list, and no page that still holds data has changed. */
  ghost predicate Without(v: Frames, w: Frames, gone: set<Ref>) {
    && w.links == v.links - gone
    && w.loose == v.loose
    && |v.free| <= |w.free| && w.free[|w.free| - |v.free|..] == v.free
    && (forall p :: p in w.data ==> p in v.data && w.data[p] == v.data[p])
  }

  lemma DropWithout(v: Frames, w: Frames, gone: set<Ref>, r: Ref)
    requires Without(v, w, gone)
    ensures Without(v, Drop(w, r), gone + {r})
  {
    var u := Drop(w, r);
    assert u.links == v.links - (gone + {r});
    if u.free != w.free {
      assert u.free == [w.links[r].page] + w.free;
    }
  }

  lemma WithoutTrans(v: Frames, u: Frames, w: Frames, a: set<Ref>, b: set<Ref>)
    requires Without(v, u, a) && Without(u, w, b)
    ensures Without(v, w, a + b)
  {
    assert w.links == v.links - (a + b);
    assert w.free[|w.free| - |v.free|..] == w.free[|w.free| - |u.free|..][|u.free| - |v.free|..];
  }

  lemma LeavesBelowStep(e: nat, d: nat, n: nat)
    ensures LeavesBelow(e, d, n) + {Leaf(e, d, n)} == LeavesBelow(e, d, n + 1)
  {
  }

  lemma {:induction false} DropLeavesWithout(v: Frames, e: nat, d: nat, n: nat)
    ensures Without(v, DropLeaves(v, e, d, n), LeavesBelow(e, d, n))
  {
    hide Drop;
    if n == 0 {
      assert v.links - LeavesBelow(e, d, 0) == v.links;
    } else {
      DropLeavesWithout(v, e, d, n - 1);
      LeavesBelowStep(e, d, n - 1);
      hide Without, LeavesBelow;
      DropWithout(v, DropLeaves(v, e, d, n - 1), LeavesBelow(e, d, n - 1), Leaf(e, d, n - 1));
    }
  }

  lemma {:induction false} DropLeavesKeeps(v: Frames, managed: set<nat>, e: nat, d: nat, n: nat)
    requires WellFormed(v, managed)
    ensures WellFormed(DropLeaves(v, e, d, n), managed)
  {
    if n != 0 {
      DropLeavesKeeps(v, managed, e, d, n - 1);
      var w := DropLeaves(v, e, d, n - 1);
      if Leaf(e, d, n - 1) in w.links {
        DropKeeps(w, managed, Leaf(e, d, n - 1));
      }
    }
  }

  ghost function TablesBelow(links: Links, e: nat, n: nat): set<Ref> {
    set r | r in links && TableBelow(r, e, n)
  }

  lemma DropTableWithout(v: Frames, e: nat, d: nat)
    ensures Without(v, DropTable(v, e, d), LeavesBelow(e, d, NPTENTRIES) + {Table(e, d)})
  {
    DropLeavesWithout(v, e, d, NPTENTRIES);
    DropWithout(v, DropLeaves(v, e, d, NPTENTRIES), LeavesBelow(e, d, NPTENTRIES), Table(e, d));
  }

  lemma DropTableKeeps(v: Frames, managed: set<nat>, e: nat, d: nat)
    requires WellFormed(v, managed) && Table(e, d) in v.links
    ensures WellFormed(DropTable(v, e, d), managed)
  {
    DropLeavesKeeps(v, managed, e, d, NPTENTRIES);
    DropLeavesWithout(v, e, d, NPTENTRIES);
    var u := DropLeaves(v, e, d, NPTENTRIES);
    forall t: nat ensures Leaf(e, d, t) !in u.links {
      assert t < NPTENTRIES ==> Leaf(e, d, t) in LeavesBelow(e, d, NPTENTRIES);
    }
    DropKeeps(u, managed, Table(e, d));
  }

  lemma {:induction false} DropTablesWithout(v: Frames, e: nat, n: nat)
    requires Hierarchical(v.links)
    ensures Without(v, DropTables(v, e, n), TablesBelow(v.links, e, n))
  {
    if n == 0 {
      WithoutNone(v, e);
    } else {
      hide Without, TablesBelow, Hierarchical, DropTable;
      DropTablesWithout(v, e, n - 1);
      DropTablesStep(v, DropTables(v, e, n - 1), e, n - 1);
    }
  }

  lemma WithoutNone(v: Frames, e: nat)
    ensures Without(v, v, TablesBelow(v.links, e, 0))
  {
    assert v.links - TablesBelow(v.links, e, 0) == v.links;
  }

  lemma DropTablesStep(v: Frames, w: Frames, e: nat, d: nat)
    requires Hierarchical(v.links) && Without(v, w, TablesBelow(v.links, e, d))
    ensures Without(v, if Table(e, d) in w.links then DropTable(w, e, d) else w, TablesBelow(v.links, e, d + 1))
  {
    TablesBelowStep(v.links, e, d);
    if Table(e, d) in w.links {
      DropTableWithout(w, e, d);
      WithoutTrans(v, w, DropTable(w, e, d), TablesBelow(v.links, e, d), LeavesBelow(e, d, NPTENTRIES) + {Table(e, d)});
    }
  }

  lemma TablesBelowStep(links: Links, e: nat, n: nat)
    requires Hierarchical(links)
    ensures links - (TablesBelow(links, e, n) + (LeavesBelow(e, n, NPTENTRIES) + {Table(e, n)})) ==
            links - TablesBelow(links, e, n + 1)
    ensures Table(e, n) !in links ==> TablesBelow(links, e, n) == TablesBelow(links, e, n + 1)
  {
  }

  lemma {:induction false} DropTablesKeeps(v: Frames, managed: set<nat>, e: nat, n: nat)
    requires WellFormed(v, managed)
    ensures WellFormed(DropTables(v, e, n), managed)
  {
    if n != 0 {
      DropTablesKeeps(v, managed, e, n - 1);
      if Table(e, n - 1) in DropTables(v, e, n - 1).links {
        DropTableKeeps(DropTables(v, e, n - 1), managed, e, n - 1);
      }
    }
  }

  ghost function RefsOf(links: Links, e: nat): set<Ref> {
    set r | r in links && BelongsTo(r, e)
  }

  predicate OnlyHeldBy(links: Links, p: nat, e: nat) {
    Holders(links, p) != {} && forall r :: r in Holders(links, p) ==> BelongsTo(r, e)
  }

  lemma DropSpaceKeeps(v: Frames, managed: set<nat>, e: nat)
    requires WellFormed(v, managed) && Root(e) in v.links
    ensures WellFormed(DropSpace(v, e), managed)
    ensures Without(v, DropSpace(v, e), RefsOf(v.links, e))
  {
    DropTablesWithout(v, e, USER_TABLES);
    DropTablesKeeps(v, managed, e, USER_TABLES);
    DropRootKeeps(v, DropTables(v, e, USER_TABLES), managed, e);
  }

  lemma DropRootKeeps(v: Frames, u: Frames, managed: set<nat>, e: nat)
    requires Hierarchical(v.links) && Root(e) in v.links
    requires WellFormed(u, managed) && Without(v, u, TablesBelow(v.links, e, USER_TABLES))
    ensures WellFormed(Drop(u, Root(e)), managed)
    ensures Without(v, Drop(u, Root(e)), RefsOf(v.links, e))
  {
    hide WellFormed, Drop;
    assert Bare(u.links, Root(e)) && Root(e) in u.links;
    assert TablesBelow(v.links, e, USER_TABLES) + {Root(e)} == RefsOf(v.links, e);
    hide Without, TablesBelow, RefsOf;
    DropKeeps(u, managed, Root(e));
    DropWithout(v, u, TablesBelow(v.links, e, USER_TABLES), Root(e));
  }

  /** env_free reclaims exactly: every reference of the environment goes and no other; a page is
      free afterwards exactly if it was free before or only this environment referred to it, which
      is so of its page directory and all its page tables; each page loses as many references as
      the environment had to it; and the pages that stay keep their contents. */
  lemma DropSpaceExact(v: Frames, managed: set<nat>, e: nat)
    requires WellFormed(v, managed) && Root(e) in v.links
    ensures Without(v, DropSpace(v, e), RefsOf(v.links, e))
    ensures forall p :: p in DropSpace(v, e).free <==> p in v.free || OnlyHeldBy(v.links, p, e)
    ensures forall r :: IsStructure(r) && r in v.links && BelongsTo(r, e) ==> v.links[r].page in DropSpace(v, e).free
    ensures forall p ::
              |Holders(DropSpace(v, e).links, p)| == |Holders(v.links, p)| - |Holders(v.links, p) * RefsOf(v.links, e)|
  {
    DropSpaceKeeps(v, managed, e);
    var w := DropSpace(v, e);
    forall p ensures Holders(w.links, p) == Holders(v.links, p) - RefsOf(v.links, e) {
    }
    forall p ensures |Holders(w.links, p)| == |Holders(v.links, p)| - |Holders(v.links, p) * RefsOf(v.links, e)| {
    }
    forall p ensures p in w.free <==> p in v.free || OnlyHeldBy(v.links, p, e) {
      ReclaimedPage(v, w, managed, e, p);
    }
    forall r | IsStructure(r) && r in v.links && BelongsTo(r, e) ensures v.links[r].page in w.free {
      assert r in Holders(v.links, v.links[r].page);
      assert OnlyHeldBy(v.links, v.links[r].page, e);
    }
  }

  lemma ReclaimedPage(v: Frames, w: Frames, managed: set<nat>, e: nat, p: nat)
    requires FreeExact(v, managed) && FreeExact(w, managed) && w.loose == v.loose
    requires forall q :: q in v.loose ==> Holders(v.links, q) == {}
    requires forall r :: r in v.links ==> v.links[r].page in managed
    requires Holders(w.links, p) == Holders(v.links, p) - RefsOf(v.links, e)
    ensures p in w.free <==> p in v.free || OnlyHeldBy(v.links, p, e)
  {
    assert forall r :: r in Holders(v.links, p) ==> (r in RefsOf(v.links, e) <==> BelongsTo(r, e));
    if Holders(v.links, p) != {} {
      var r :| r in Holders(v.links, p);
      assert v.links[r].page == p && p in managed && p !in v.loose;
    }
    if Holders(w.links, p) == {} {
      forall r | r in Holders(v.links, p) ensures BelongsTo(r, e) {
        assert r !in Holders(w.links, p);
      }
    }
  }

  /** Dropping one reference leaves all others. */
  lemma DropOther(v: Frames, r: Ref)
    ensures forall r' :: r' != r ==>
            (r' in Drop(v, r).links <==> r' in v.links) && (r' in v.links ==> Drop(v, r).links[r'] == v.links[r'])
    ensures r !in v.links ==> Drop(v, r) == v
  {
  }

  lemma TableEmptied(v: Frames, managed: set<nat>, e: nat, d: nat)
    requires WellFormed(v, managed)
    ensures var w := DropLeaves(v, e, d, NPTENTRIES);
      && (forall t: nat :: Leaf(e, d, t) !in w.links)
      && (forall r :: IsStructure(r) ==>
           (r in w.links <==> r in v.links) && (r in v.links ==> w.links[r] == v.links[r]))
  {
    DropLeavesWithout(v, e, d, NPTENTRIES);
    assert forall t: nat :: t < NPTENTRIES ==> Leaf(e, d, t) in LeavesBelow(e, d, NPTENTRIES);
  }

  lemma TablesEmptied(v: Frames, managed: set<nat>, e: nat)
    requires WellFormed(v, managed)
    ensures forall d: nat :: Table(e, d) !in DropTables(v, e, USER_TABLES).links
  {
    DropTablesWithout(v, e, USER_TABLES);
    assert forall d: nat :: Table(e, d) in v.links ==> Table(e, d) in TablesBelow(v.links, e, USER_TABLES);
  }
}
